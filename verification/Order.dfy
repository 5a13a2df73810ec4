/** The orders shared by every page, cursor and ordered map of the application API.

    Rust compares `String` keys byte by byte; on valid text that is the order of the
    code points. A position in a time index, a timeline or a bookmark list is the pair
    (time, id) compared lexicographically. */
module Order {

  datatype Option<+T> = None | Some(value: T)

  function Min(a: nat, b: nat): (m: nat) { if a < b then a else b }

  /** The largest and smallest values of `i64` and the largest of `u64`. */
  const I64_MAX: int := 0x7FFF_FFFF_FFFF_FFFF
  const I64_MIN: int := -0x8000_0000_0000_0000
  const U64_MAX: int := 0xFFFF_FFFF_FFFF_FFFF

  predicate StrLess(a: string, b: string)
    decreases |b|
  {
    if b == [] then false
    else if a == [] then true
    else a[0] < b[0] || (a[0] == b[0] && StrLess(a[1..], b[1..]))
  }

  /** A text is smaller exactly when it is cut off before the other ends, or has the smaller character
      where they first differ. */
  lemma {:induction false} StrLessIff(a: string, b: string, i: nat)
    requires i <= |a| && i <= |b| && a[..i] == b[..i] && (i < |a| && i < |b| ==> a[i] != b[i])
    ensures StrLess(a, b) <==> i < |b| && (i < |a| ==> a[i] < b[i])
    decreases i
  {
    if i > 0 {
      assert a[0] == a[..i][0] == b[..i][0] == b[0];
      assert a[1..][..i - 1] == a[..i][1..] && b[1..][..i - 1] == b[..i][1..];
      StrLessIff(a[1..], b[1..], i - 1);
    }
  }

  datatype Pos = Pos(at: int, id: string)

  predicate Less(a: Pos, b: Pos) {
    a.at < b.at || (a.at == b.at && StrLess(a.id, b.id))
  }

  /** Strictly ascending, hence free of duplicates: what iterating a `BTreeMap` yields. */
  predicate Ascending(s: seq<Pos>) {
    forall i, j | 0 <= i < j < |s| :: Less(s[i], s[j])
  }

  lemma {:induction false} StrLessIrreflexive(a: string)
    ensures !StrLess(a, a)
  {
    if a != [] {
      StrLessIrreflexive(a[1..]);
    }
  }

  lemma {:induction false} StrLessTransitive(a: string, b: string, c: string)
    requires StrLess(a, b) && StrLess(b, c)
    ensures StrLess(a, c)
    decreases |c|
  {
    if a != [] && a[0] == b[0] && b[0] == c[0] {
      StrLessTransitive(a[1..], b[1..], c[1..]);
    }
  }

  lemma {:induction false} StrLessTotal(a: string, b: string)
    ensures StrLess(a, b) || a == b || StrLess(b, a)
    decreases |b|
  {
    if a != [] && b != [] && a[0] == b[0] {
      StrLessTotal(a[1..], b[1..]);
      assert a == [a[0]] + a[1..] && b == [b[0]] + b[1..];
    }
  }

  lemma StrOrder()
    ensures forall a: string :: !StrLess(a, a)
    ensures forall a: string, b: string, c: string
              {:trigger StrLess(a, b), StrLess(b, c)} ::
              StrLess(a, b) && StrLess(b, c) ==> StrLess(a, c)
    ensures forall a: string, b: string {:trigger StrLess(a, b)} ::
              StrLess(a, b) || a == b || StrLess(b, a)
  {
    forall a: string { StrLessIrreflexive(a); }
    forall a: string, b: string, c: string | StrLess(a, b) && StrLess(b, c)
      ensures StrLess(a, c) {
      StrLessTransitive(a, b, c);
    }
    forall a: string, b: string
      ensures StrLess(a, b) || a == b || StrLess(b, a) {
      StrLessTotal(a, b);
    }
  }

  /** `Less` is a strict total order on positions. */
  lemma PosOrder()
    ensures forall a: Pos :: !Less(a, a)
    ensures forall a: Pos, b: Pos, c: Pos {:trigger Less(a, b), Less(b, c)} ::
              Less(a, b) && Less(b, c) ==> Less(a, c)
    ensures forall a: Pos, b: Pos {:trigger Less(a, b)} :: Less(a, b) || a == b || Less(b, a)
  {
    StrOrder();
  }

  lemma LessTransitive(a: Pos, b: Pos, c: Pos)
    requires Less(a, b) && Less(b, c)
    ensures Less(a, c) && !Less(c, a)
  {
    PosOrder();
  }

  lemma NotBoth(a: Pos, b: Pos)
    ensures !(Less(a, b) && Less(b, a)) && !Less(a, a)
  {
    PosOrder();
  }

  /** Where `k` belongs in an ascending sequence: everything before it is smaller. */
  function Rank(s: seq<Pos>, k: Pos): (n: nat)
    ensures n <= |s|
    ensures forall i | 0 <= i < n :: Less(s[i], k)
    ensures n < |s| ==> !Less(s[n], k)
  {
    if s == [] || !Less(s[0], k) then 0 else 1 + Rank(s[1..], k)
  }

  /** `BTreeMap::entry(k).or_insert` and `BTreeSet::insert` on the ascending key list. */
  function Insert(s: seq<Pos>, k: Pos): (r: seq<Pos>) {
    var n := Rank(s, k);
    if n < |s| && s[n] == k then s else s[..n] + [k] + s[n..]
  }

  lemma RankSplits(s: seq<Pos>, k: Pos)
    requires Ascending(s)
    ensures k in s <==> Rank(s, k) < |s| && s[Rank(s, k)] == k
    ensures forall i | Rank(s, k) <= i < |s| :: s[i] == k || Less(k, s[i])
  {
    PosOrder();
  }

  lemma InsertMembers(s: seq<Pos>, k: Pos)
    requires Ascending(s)
    ensures forall p :: p in Insert(s, k) <==> p in s || p == k
    ensures |Insert(s, k)| == |s| + (if k in s then 0 else 1)
  {
    RankSplits(s, k);
    assert s == s[..Rank(s, k)] + s[Rank(s, k)..];
  }

  lemma InsertKeepsOrder(s: seq<Pos>, k: Pos)
    requires Ascending(s)
    ensures Ascending(Insert(s, k))
    ensures forall p :: p in Insert(s, k) <==> p in s || p == k
    ensures |Insert(s, k)| == |s| + (if k in s then 0 else 1)
  {
    InsertMembers(s, k);
    RankSplits(s, k);
    if k !in s {
      var n := Rank(s, k);
      forall i, j | 0 <= i < j < |s| + 1
        ensures Less(Insert(s, k)[i], Insert(s, k)[j])
      {
        if i < n < j {
          PosOrder();
          assert Less(s[i], s[j - 1]);
        }
      }
    }
  }

  lemma {:induction false} SubsetSize<T>(a: set<T>, b: set<T>)
    requires a <= b
    ensures |a| <= |b|
  {
    if a != {} {
      var x :| x in a;
      SubsetSize(a - {x}, b - {x});
    }
  }
}
