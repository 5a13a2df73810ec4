/** Which proposal holds a slot of a Dome: of all signed selections for the slot, the one with
    the highest slot generation, and among equals the one with the smallest envelope id. */
module Selection {
  import opened Order

  datatype Direction = North | East | South | West

  datatype Slot = Slot(instance: string, direction: Direction)

  datatype Choice = Choice(proposal: string, slot: Slot, generation: nat, envelope: string)

  predicate Beats(a: Choice, b: Choice) {
    a.generation > b.generation || (a.generation == b.generation && StrLess(a.envelope, b.envelope))
  }

  /** An envelope id names one selection. */
  predicate Distinct(all: set<Choice>) {
    forall a, b | a in all && b in all && a.envelope == b.envelope :: a == b
  }

  function Side(d: Direction): (n: nat) {
    match d case North => 0 case East => 1 case South => 2 case West => 3
  }

  predicate SlotLess(a: Slot, b: Slot) {
    StrLess(a.instance, b.instance) || (a.instance == b.instance && Side(a.direction) < Side(b.direction))
  }

  // ------------------------------------------------------------------ what the winner is

  predicate Wins(all: set<Choice>, w: Choice) {
    w in all && forall x | x in all && x.slot == w.slot :: x == w || Beats(w, x)
  }

  function Slots(all: set<Choice>): (r: set<Slot>) { set x | x in all :: x.slot }

  type Winners = map<Slot, Choice>

  predicate IsWinners(all: set<Choice>, m: Winners) {
    m.Keys == Slots(all) && forall s | s in m :: m[s].slot == s && Wins(all, m[s])
  }

  /** The result by proposal: the winners, and of several slots won by one proposal the last
      in slot order. */
  predicate IsSelected(m: Winners, r: map<string, Choice>) { SelectedFrom(m, m.Keys, r) }

  predicate SelectedFrom(m: Winners, done: set<Slot>, r: map<string, Choice>)
    requires done <= m.Keys
  {
    && (forall p | p in r :: r[p].proposal == p && r[p].slot in done && m[r[p].slot] == r[p])
    && forall s | s in done ::
         m[s].proposal in r && (r[m[s].proposal].slot == s || SlotLess(s, r[m[s].proposal].slot))
  }

  lemma BeatsOrder(a: Choice, b: Choice, c: Choice)
    ensures !Beats(a, a) && !(Beats(a, b) && Beats(b, a))
    ensures Beats(a, b) && Beats(b, c) ==> Beats(a, c)
    ensures Beats(a, b) || Beats(b, a) || (a.generation == b.generation && a.envelope == b.envelope)
  {
    StrOrder();
  }

  lemma SlotOrder(a: Slot, b: Slot, c: Slot)
    ensures !SlotLess(a, a) && !(SlotLess(a, b) && SlotLess(b, a))
    ensures SlotLess(a, b) && SlotLess(b, c) ==> SlotLess(a, c)
    ensures SlotLess(a, b) || a == b || SlotLess(b, a)
  {
    StrOrder();
  }

  /** The winners are a function of the set of selections. */
  lemma WinnersUnique(all: set<Choice>, m: Winners, n: Winners)
    requires IsWinners(all, m) && IsWinners(all, n)
    ensures m == n
  {
    forall s | s in m
      ensures m[s] == n[s]
    {
      BeatsOrder(m[s], n[s], m[s]);
    }
  }

  lemma SelectedUnique(m: Winners, r: map<string, Choice>, q: map<string, Choice>)
    requires IsSelected(m, r) && IsSelected(m, q)
    ensures r == q
  {
    forall p | p in r
      ensures p in q && q[p] == r[p]
    {
      var s := r[p].slot;
      assert m[s].proposal == p;
      var u := q[p].slot;
      assert m[u].proposal == p;
      SlotOrder(s, u, s);
    }
    forall p | p in q
      ensures p in r
    {
      assert m[q[p].slot].proposal == p;
    }
  }

  /** What a set of selections gives. */
  ghost predicate IsResult(all: set<Choice>, r: map<string, Choice>) {
    exists m: Winners :: IsWinners(all, m) && IsSelected(m, r)
  }

  /** The result is a function of the set of selections: order and repetition do not matter. */
  lemma ResultUnique(all: set<Choice>, r: map<string, Choice>, q: map<string, Choice>)
    requires IsResult(all, r) && IsResult(all, q)
    ensures r == q
  {
    var m: Winners :| IsWinners(all, m) && IsSelected(m, r);
    var n: Winners :| IsWinners(all, n) && IsSelected(n, q);
    SameResult(all, m, r, n, q);
  }

  lemma SameResult(all: set<Choice>, m: Winners, r: map<string, Choice>, n: Winners, q: map<string, Choice>)
    requires IsWinners(all, m) && IsSelected(m, r) && IsWinners(all, n) && IsSelected(n, q)
    ensures r == q
  {
    WinnersUnique(all, m, n);
    SelectedUnique(m, r, q);
  }

  // ------------------------------------------------------------------ the loops of the code

  function Elements(s: seq<Choice>): (r: set<Choice>) { set x | x in s }

  /** `selected_proposals`. Every proposal in the result holds a slot, and every holder of a slot is in
      the result with that slot or with one that comes later. */
  method SelectedProposals(selections: seq<Choice>) returns (r: map<string, Choice>)
    requires Distinct(Elements(selections))
    ensures IsResult(Elements(selections), r)
    ensures forall p | p in r :: r[p].proposal == p && Holds(selections, r[p])
    ensures forall w: Choice | Holds(selections, w) ::
              && w.proposal in r
              && (r[w.proposal] == w || ComesLater(r[w.proposal].slot, w.slot))
  {
    var m := WinnerBySlot(selections);
    r := ByProposal(m);
    forall w: Choice | Holds(selections, w)
      ensures w.slot in m && m[w.slot] == w
    {
      OneHolder(selections, w, m);
    }
    SlotsInOrder();
  }

  /** The highest generation of its slot, and of those the smallest envelope id. */
  predicate Holds(selections: seq<Choice>, w: Choice) {
    && w in selections
    && (forall x | x in selections && x.slot == w.slot :: x.generation <= w.generation)
    && forall x | x in selections && x.slot == w.slot && x.generation == w.generation ::
         x == w || StrLess(w.envelope, x.envelope)
  }

  /** By instance id, and clockwise from the north. */
  predicate ComesLater(a: Slot, b: Slot) {
    || StrLess(b.instance, a.instance)
    || (a.instance == b.instance && Clockwise(b.direction, a.direction))
  }

  predicate Clockwise(a: Direction, b: Direction) {
    match a
    case North => !b.North?
    case East => b.South? || b.West?
    case South => b.West?
    case West => false
  }

  lemma SlotsInOrder()
    ensures forall a: Slot, b: Slot :: SlotLess(a, b) <==> ComesLater(b, a)
  {
  }

  lemma OneHolder(selections: seq<Choice>, w: Choice, m: Winners)
    requires Holds(selections, w) && w.slot in m && m[w.slot].slot == w.slot && Holds(selections, m[w.slot])
    ensures m[w.slot] == w
  {
    StrOrder();
  }

  /** The winners in slot order, by proposal id; a later one overwrites an earlier one. */
  method ByProposal(m: Winners) returns (r: map<string, Choice>)
    requires forall s | s in m :: m[s].slot == s
    ensures IsSelected(m, r)
  {
    r := map[];
    var left, done := m.Keys, {};
    while left != {}
      invariant left !! done && left + done == m.Keys
      invariant forall s, t | s in left && t in done :: SlotLess(t, s)
      invariant SelectedFrom(m, done, r)
      decreases left
    {
      var first := FirstSlot(left);
      AddLater(m, done, r, first);
      r := r[m[first].proposal := m[first]];
      left, done := left - {first}, done + {first};
    }
  }

  lemma AddLater(m: Winners, done: set<Slot>, r: map<string, Choice>, s: Slot)
    requires done <= m.Keys && s in m && m[s].slot == s && SelectedFrom(m, done, r)
    requires forall t | t in done :: SlotLess(t, s)
    ensures SelectedFrom(m, done + {s}, r[m[s].proposal := m[s]])
  {
  }

  method FirstSlot(slots: set<Slot>) returns (first: Slot)
    requires slots != {}
    ensures first in slots && forall s | s in slots :: s == first || SlotLess(first, s)
  {
    first :| first in slots;
    var left := slots - {first};
    while left != {}
      invariant left <= slots && first in slots
      invariant forall s | s in slots - left :: s == first || SlotLess(first, s)
      decreases left
    {
      var s :| s in left;
      SlotOrder(s, first, s);
      if SlotLess(s, first) {
        forall t | t in slots - left
          ensures SlotLess(s, t)
        {
          SlotOrder(s, first, t);
        }
        first := s;
      }
      left := left - {s};
    }
  }

  /** The first loop: a selection replaces the one that holds its slot if it beats it. */
  method WinnerBySlot(selections: seq<Choice>) returns (m: Winners)
    requires Distinct(Elements(selections))
    ensures IsWinners(Elements(selections), m)
    ensures forall s | s in m :: m[s].slot == s && Holds(selections, m[s])
    ensures forall x | x in selections :: x.slot in m
  {
    m := map[];
    for i := 0 to |selections|
      invariant IsWinners(Elements(selections[..i]), m)
    {
      var x := selections[i];
      var s := x.slot;
      assert Elements(selections[..i + 1]) == Elements(selections[..i]) + {x};
      assert x in selections && forall y | y in selections[..i] :: y in selections;
      OneMore(Elements(selections[..i]), m, x);
      if s !in m || Beats(x, m[s]) {
        m := m[s := x];
      }
    }
    assert selections[..|selections|] == selections;
    forall x | x in selections
      ensures x.slot in m
    {
      assert x in Elements(selections) && x.slot in Slots(Elements(selections));
    }
    forall s | s in m
      ensures Holds(selections, m[s])
    {
      WinnerHolds(selections, m[s]);
    }
  }

  lemma WinnerHolds(selections: seq<Choice>, w: Choice)
    requires Wins(Elements(selections), w)
    ensures Holds(selections, w)
  {
    forall x | x in selections && x.slot == w.slot
      ensures x == w || Beats(w, x)
    {
      assert x in Elements(selections);
    }
  }

  function Better(m: Winners, x: Choice): (r: Winners) {
    if x.slot !in m || Beats(x, m[x.slot]) then m[x.slot := x] else m
  }

  lemma StillWins(all: set<Choice>, w: Choice, x: Choice)
    requires Wins(all, w) && (x.slot == w.slot ==> x == w || Beats(w, x))
    ensures Wins(all + {x}, w)
  {
  }

  lemma NowWins(all: set<Choice>, w: Choice, x: Choice)
    requires Wins(all, w) && x.slot == w.slot && Beats(x, w)
    ensures Wins(all + {x}, x)
  {
    forall y | y in all && y.slot == x.slot
      ensures Beats(x, y)
    {
      BeatsOrder(x, w, y);
    }
  }

  lemma Undecided(all: set<Choice>, w: Choice, x: Choice)
    requires w in all && x in all && Distinct(all) && !Beats(x, w)
    ensures x == w || Beats(w, x)
  {
    BeatsOrder(w, x, x);
  }

  lemma OneMore(all: set<Choice>, m: Winners, x: Choice)
    requires IsWinners(all, m) && Distinct(all + {x})
    ensures IsWinners(all + {x}, Better(m, x))
  {
    var b, more := Better(m, x), all + {x};
    assert Slots(more) == Slots(all) + {x.slot};
    forall s | s in b
      ensures b[s].slot == s && Wins(more, b[s])
    {
      if s != x.slot {
        StillWins(all, m[s], x);
      } else if s !in m {
        assert forall y | y in all :: y.slot in Slots(all);
      } else if Beats(x, m[s]) {
        NowWins(all, m[s], x);
      } else {
        Undecided(more, m[s], x);
        StillWins(all, m[s], x);
      }
    }
  }

  // ------------------------------------------------------------------ merging

  /** Combines what two devices hold. */
  function Merge(m: Winners, n: Winners): (r: Winners) {
    map s | s in m.Keys + n.Keys ::
      if s !in n || (s in m && Beats(m[s], n[s])) then m[s] else n[s]
  }

  /** Merging winners is the same as pooling the selections. */
  lemma MergeIsUnion(all: set<Choice>, m: Winners, more: set<Choice>, n: Winners)
    requires IsWinners(all, m) && IsWinners(more, n) && Distinct(all + more)
    ensures IsWinners(all + more, Merge(m, n))
  {
    var r := Merge(m, n);
    assert Slots(all + more) == Slots(all) + Slots(more);
    forall s | s in r
      ensures r[s].slot == s && Wins(all + more, r[s])
    {
      forall y | y in all + more && y.slot == s
        ensures y == r[s] || Beats(r[s], y)
      {
        if s in m && s in n {
          BeatsOrder(m[s], n[s], y);
          BeatsOrder(n[s], m[s], y);
        } else {
          assert y in all ==> s in Slots(all);
          assert y in more ==> s in Slots(more);
        }
      }
    }
  }

  /** Order, grouping and repetition of the sources do not matter. */
  lemma MergeLaws(a: set<Choice>, m: Winners, b: set<Choice>, n: Winners, c: set<Choice>, o: Winners)
    requires IsWinners(a, m) && IsWinners(b, n) && IsWinners(c, o) && Distinct(a + b + c)
    ensures Merge(m, n) == Merge(n, m)
    ensures Merge(Merge(m, n), o) == Merge(m, Merge(n, o))
    ensures Merge(m, m) == m
  {
    MergeIsUnion(a, m, b, n);
    MergeIsUnion(b, n, a, m);
    assert a + b == b + a;
    WinnersUnique(a + b, Merge(m, n), Merge(n, m));
    MergeIsUnion(a + b, Merge(m, n), c, o);
    MergeIsUnion(b, n, c, o);
    MergeIsUnion(a, m, b + c, Merge(n, o));
    assert (a + b) + c == a + (b + c);
    WinnersUnique(a + b + c, Merge(Merge(m, n), o), Merge(m, Merge(n, o)));
    MergeIsUnion(a, m, a, m);
    assert a + a == a;
    WinnersUnique(a, Merge(m, m), m);
  }

  // ------------------------------------------------------------------ accepting

  function MaxGeneration(s: seq<Choice>, slot: Slot): (g: nat) {
    if s == [] then 0
    else
      var g, x := MaxGeneration(s[..|s| - 1], slot), s[|s| - 1];
      if x.slot == slot && x.generation > g then x.generation else g
  }

  lemma {:induction false} GenerationBound(s: seq<Choice>, x: Choice)
    requires x in s
    ensures x.generation <= MaxGeneration(s, x.slot)
  {
    var t := s[..|s| - 1];
    assert s == t + [s[|s| - 1]];
    if x in t {
      GenerationBound(t, x);
    }
  }

  lemma {:induction false} GenerationReached(s: seq<Choice>, slot: Slot) returns (x: Choice)
    requires MaxGeneration(s, slot) > 0
    ensures x in s && x.slot == slot && x.generation == MaxGeneration(s, slot)
  {
    var t := s[..|s| - 1];
    x := s[|s| - 1];
    assert s == t + [x];
    if MaxGeneration(s, slot) == MaxGeneration(t, slot) {
      x := GenerationReached(t, slot);
    }
  }

  /** The generation that `accept_dome_connection_proposal` gives a selection. The unchecked
      addition of a release build wraps around at the `u64` limit. */
  function NextGeneration(s: seq<Choice>, slot: Slot): (g: nat) {
    if MaxGeneration(s, slot) == U64_MAX then 0 else MaxGeneration(s, slot) + 1
  }

  /** An accepted selection beats every selection seen for its slot exactly when none of them
      stands at the `u64` limit. */
  lemma AcceptWinsIff(s: seq<Choice>, x: Choice)
    requires x.generation == NextGeneration(s, x.slot) && x !in s
    ensures Wins(Elements(s) + {x}, x) <==> MaxGeneration(s, x.slot) != U64_MAX
  {
    var all := Elements(s) + {x};
    if MaxGeneration(s, x.slot) == U64_MAX {
      var y := GenerationReached(s, x.slot);
      assert y in all && y != x && !Beats(x, y);
    } else {
      forall y | y in all && y.slot == x.slot
        ensures y == x || Beats(x, y)
      {
        if y in s {
          GenerationBound(s, y);
        }
      }
    }
  }

  /** A slot that stands at the largest generation: what is accepted next loses to it. */
  lemma WrapExample()
    ensures var slot := Slot("dome", North);
            var seen, accepted := Choice("p", slot, U64_MAX, "b"), Choice("q", slot, 0, "a");
            NextGeneration([seen], slot) == 0 && !Wins({seen, accepted}, accepted)
  {
    var slot := Slot("dome", North);
    var seen, accepted := Choice("p", slot, U64_MAX, "b"), Choice("q", slot, 0, "a");
    assert [seen][..0] == [] && MaxGeneration([seen], slot) == U64_MAX;
    AcceptWinsIff([seen], accepted);
    assert Elements([seen]) + {accepted} == {seen, accepted};
  }
}
