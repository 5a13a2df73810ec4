/** The paged hand-over of a new epoch key to the participants of a private channel. */
module Handover {
  import opened Order

  const PAGE: nat := 128

  /** The rows of `j` full pages, and the full pages in `n` rows. */
  function Rows(j: nat): (n: nat) { 128 * j }

  function FullPages(n: nat): (j: nat) { n / 128 }

  /** The participant table as its query returns it: distinct keys in ascending order. */
  predicate Sorted(table: seq<string>) {
    && (forall i, j {:trigger StrLess(table[i], table[j])} | 0 <= i < j < |table| :: StrLess(table[i], table[j]))
    && forall i | 0 <= i < |table| :: table[i] != ""
  }

  /** Everyone the cursor `after` has passed. */
  predicate AtOrBefore(p: string, after: string) { !StrLess(after, p) }

  /** How many rows lie at or before the cursor. */
  function Passed(table: seq<string>, after: string): (k: nat)
    ensures k <= |table|
    ensures forall i | 0 <= i < k :: AtOrBefore(table[i], after)
    ensures k < |table| ==> !AtOrBefore(table[k], after)
  {
    if table == [] || !AtOrBefore(table[0], after) then 0 else 1 + Passed(table[1..], after)
  }

  /** `list_private_channel_participants`: the first 128 keys past the cursor. */
  function Page(table: seq<string>, after: string): (page: seq<string>) {
    var k := Passed(table, after);
    table[k..Min(k + PAGE, |table|)]
  }

  /** The cursor stored after a page; none once a page is not full. */
  function NextAfter(page: seq<string>): (next: Option<string>) {
    if |page| == PAGE then Some(page[PAGE - 1]) else None
  }

  lemma Asymmetric(a: string, b: string)
    ensures !(StrLess(a, b) && StrLess(b, a)) && !StrLess(a, a)
  {
  }

  /** Nobody between two cursors is left out: whoever the next cursor passes was passed
      before or is on the page, and a last page holds everyone who was left. */
  lemma PageHasNoGap(table: seq<string>, after: string, p: string)
    requires Sorted(table) && p in table
    ensures var next := NextAfter(Page(table, after));
            (next.Some? ==> AtOrBefore(p, next.value)) ==> AtOrBefore(p, after) || p in Page(table, after)
  {
  }

  /** The stored cursor after `j` advances over a table that does not change. */
  function AfterAdvances(table: seq<string>, j: nat): (after: Option<string>) {
    if j == 0 then Some("")
    else match AfterAdvances(table, j - 1)
         case None => None
         case Some(a) => NextAfter(Page(table, a))
  }

  function CursorAt(table: seq<string>, k: nat): (after: string)
    requires k <= |table|
  {
    if k == 0 then "" else table[k - 1]
  }

  lemma {:induction false} PassedIs(table: seq<string>, after: string, k: nat)
    requires k <= |table| && forall i | 0 <= i < k :: AtOrBefore(table[i], after)
    requires k < |table| ==> !AtOrBefore(table[k], after)
    ensures Passed(table, after) == k
  {
  }

  lemma PageAt(table: seq<string>, k: nat)
    requires Sorted(table) && k <= |table|
    ensures Page(table, CursorAt(table, k)) == table[k..Min(k + PAGE, |table|)]
  {
    var after := CursorAt(table, k);
    forall i | 0 <= i < k
      ensures AtOrBefore(table[i], after)
    {
      assert i < k - 1 ==> StrLess(table[i], after);
      Asymmetric(table[i], after);
    }
    if k < |table| {
      assert k > 0 ==> StrLess(after, table[k]);
    }
    PassedIs(table, after, k);
  }

  lemma CursorStep(table: seq<string>, j: nat, k: nat)
    requires Sorted(table) && j > 0 && k + PAGE <= |table|
    requires AfterAdvances(table, j - 1) == Some(CursorAt(table, k))
    ensures AfterAdvances(table, j) == Some(CursorAt(table, k + PAGE))
  {
    PageAt(table, k);
    var page := table[k..k + PAGE];
    assert Page(table, CursorAt(table, k)) == page;
    assert page[PAGE - 1] == table[k + PAGE - 1];
  }

  /** Before its end the hand-over has passed exactly 128 rows per advance. */
  lemma {:induction false} CursorAfter(table: seq<string>, j: nat)
    requires Sorted(table) && Rows(j) <= |table|
    ensures AfterAdvances(table, j) == Some(CursorAt(table, Rows(j)))
  {
    if j > 0 {
      CursorAfter(table, j - 1);
      CursorStep(table, j, Rows(j - 1));
    }
  }

  /** A rotation over n participants ends after exactly n / 128 + 1 advances. */
  lemma AdvancesToFinish(table: seq<string>, j: nat)
    requires Sorted(table)
    ensures AfterAdvances(table, j).Some? <==> j <= FullPages(|table|)
  {
    var last := FullPages(|table|);
    if j <= last {
      CursorAfter(table, j);
    } else {
      CursorAfter(table, last);
      PageAt(table, Rows(last));
      assert AfterAdvances(table, last + 1) == None;
      StaysFinished(table, last + 1, j);
    }
  }

  lemma {:induction false} StaysFinished(table: seq<string>, i: nat, j: nat)
    requires i <= j && AfterAdvances(table, i) == None
    ensures AfterAdvances(table, j) == None
    decreases j
  {
    if i < j {
      StaysFinished(table, i, j - 1);
    }
  }

  function PageAfter(table: seq<string>, after: Option<string>): (page: seq<string>) {
    if after.None? then [] else Page(table, after.value)
  }

  /** The pages of those advances, one after the other. */
  function Pages(table: seq<string>, j: nat): (all: seq<string>) {
    if j == 0 then []
    else Pages(table, j - 1) + PageAfter(table, AfterAdvances(table, j - 1))
  }

  lemma PageNumber(table: seq<string>, j: nat)
    requires Sorted(table) && Rows(j) <= |table|
    ensures PageAfter(table, AfterAdvances(table, j)) == table[Rows(j)..Min(Rows(j) + PAGE, |table|)]
  {
    CursorAfter(table, j);
    PageAt(table, Rows(j));
  }

  lemma Glue(s: seq<string>, k: nat, m: nat)
    requires k <= m <= |s|
    ensures s[..k] + s[k..m] == s[..m]
  {
  }

  lemma PagesStep(table: seq<string>, j: nat, k: nat, m: nat)
    requires j > 0 && k <= m <= |table| && Pages(table, j - 1) == table[..k]
    requires PageAfter(table, AfterAdvances(table, j - 1)) == table[k..m]
    ensures Pages(table, j) == table[..m]
  {
    Glue(table, k, m);
  }

  lemma {:induction false} PagesAreInitial(table: seq<string>, j: nat)
    requires Sorted(table) && (j > 0 ==> Rows(j - 1) <= |table|)
    ensures Pages(table, j) == table[..Min(Rows(j), |table|)]
  {
    if j > 0 {
      PagesAreInitial(table, j - 1);
      PageNumber(table, j - 1);
      PagesStep(table, j, Rows(j - 1), Min(Rows(j), |table|));
    }
  }

  lemma RowsOfPages(n: nat)
    ensures Rows(FullPages(n)) <= n < Rows(FullPages(n) + 1)
  {
  }

  lemma Whole(s: seq<string>, n: nat)
    requires n >= |s|
    ensures s[..Min(n, |s|)] == s
  {
  }

  /** Together they are the table: everyone once, in order. */
  lemma PagesAreTable(table: seq<string>)
    requires Sorted(table)
    ensures Pages(table, FullPages(|table|) + 1) == table
  {
    var j := FullPages(|table|) + 1;
    RowsOfPages(|table|);
    PagesAreInitial(table, j);
    Whole(table, Rows(j));
  }
}
