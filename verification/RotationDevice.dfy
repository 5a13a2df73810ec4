/** The controlling device of a private channel as a sequence of operations on its stores. Each
    method keeps `Sound` at every point where it can stop. */
module RotationDevice {
  import opened Order
  import opened Rotation
  import opened Handover

  /** A reserved rotation as `rotate_private_channel` or the tick holds it. */
  datatype Operation = Operation(epoch: Epoch, secret: string, from: Epoch, after: Option<string>)

  /** The same epochs with the same secrets. */
  predicate SameKeys(c: Channel, d: Channel) {
    c.rows.Keys == d.rows.Keys && forall e | e in c.rows :: c.rows[e].secret == d.rows[e].secret
  }

  /** From `c` to `d` the channel went from epoch `from` to epoch `to`: the source is frozen and
      otherwise as it was, the new epoch is open and names the source as its previous epoch and
      its entry Dome as its own, and no other policy changed. */
  predicate WentOver(c: Channel, d: Channel, from: Epoch, to: Epoch) {
    && d.current == to > c.current == from
    && d.policies == c.policies[from := PolicyOf(c, from).(open := false)]
                               [to := Policy(to, true, Some(from), PolicyOf(c, from).entry)]
  }

  class Device {
    var store: Channel
    var table: seq<string>
    var offered: set<(Epoch, string)>   // grants written for an epoch and a recipient
    var refused: set<(Epoch, string)>   // recipients seen not to be mutual friends
    const owner: string
    const friendOnly: bool
    const friends: set<string>          // those who are mutual friends throughout
    const strangers: set<string>        // those who never are
    const first: Epoch
    const steady: set<string>           // those who stay participants throughout

    predicate Handled(e: Epoch, p: string) reads this {
      p == owner || (e, p) in offered || (e, p) in refused
    }

    predicate Covered(e: Epoch, after: string) reads this {
      forall p | p in steady && AtOrBefore(p, after) :: Handled(e, p)
    }

    predicate AllHandled(e: Epoch) reads this { forall p | p in steady :: Handled(e, p) }

    predicate CursorsCovered() reads this {
      && (forall e | e in store.rows && store.rows[e].from.Some? && store.rows[e].after.Some? ::
            Covered(e, store.rows[e].after.value))
      && forall e | e in store.rows && store.rows[e].from.None? && e != first :: AllHandled(e)
    }

    predicate Sound() reads this {
      && Chain(store) && first in store.rows && store.rows[first].from.None?
      && (forall e | e in store.rows :: first <= e)
      && Sorted(table) && (forall p | p in steady :: p in table)
      && CursorsCovered()
      && (refused != {} ==> friendOnly) && friends !! strangers
      && (forall x | x in refused :: x.1 !in friends)
      && (friendOnly ==> forall x | x in offered :: x.1 !in strangers)
      && (forall x | x in offered :: x.1 != owner)
    }

    /** `op` was read from the store, perhaps some time ago. */
    predicate Resumable(op: Operation) reads this {
      && op.epoch in store.rows && store.rows[op.epoch].secret == op.secret
      && op.epoch > first && op.from < op.epoch && op.from in store.rows
      && (op.epoch > store.current ==> op.from == store.current && op.after.None?)
      && (op.after.Some? ==> Covered(op.epoch, op.after.value))
    }

    /** `create_private_channel`: the membership and key rows, then the open policy. */
    constructor (start: Epoch, secret: string, owner: string, friendOnly: bool, friends: set<string>,
                 strangers: set<string>, steady: set<string>, table: seq<string>, faulty: bool)
      requires Sorted(table) && friends !! strangers && forall p | p in steady :: p in table
      ensures Sound() && store.current == start
      ensures !faulty ==> IsOpen(store, start)
    {
      var stopped: bool := *;
      store := Channel(map[start := Row(secret, None, None)],
                       if faulty && stopped then map[] else map[start := Policy(start, true, None, None)],
                       start);
      this.owner, this.friendOnly, this.friends, this.strangers := owner, friendOnly, friends, strangers;
      this.steady, this.table := steady, table;
      first, offered, refused := start, {}, {};
    }

    /** What other parties do between two awaited calls: participants come and go, and a tick
        hands a committed epoch over and stores its own cursor. Nothing of the kind when `quiet`. */
    method Interfere(quiet: bool)
      requires Sound()
      modifies this`store, this`table, this`offered, this`refused
      ensures Sound() && SameKeys(old(store), store)
      ensures store.current == old(store.current) && store.policies == old(store.policies)
      ensures old(offered) <= offered && old(refused) <= refused
      ensures quiet ==> store == old(store) && table == old(table)
      ensures quiet ==> offered == old(offered) && refused == old(refused)
    {
      if !quiet {
        ComeAndGo();
        OfferElsewhere();
      }
      var e: Epoch, after: Option<string> := *, *;
      if !quiet && e in store.rows && first < e <= store.current
        && (if after.Some? then Covered(e, after.value) else AllHandled(e)) {
        SetCursor(e, after);
      }
    }

    /** Participants come and go. */
    method ComeAndGo()
      requires Sound()
      modifies this`table
      ensures Sound()
    {
      var rows: seq<string> := *;
      if Sorted(rows) && forall p | p in steady :: p in rows {
        table := rows;
      }
    }

    /** A tick writes grants. */
    method OfferElsewhere()
      requires Sound()
      modifies this`offered
      ensures Sound() && old(offered) <= offered
    {
      var granted: set<(Epoch, string)> := *;
      if forall x | x in granted :: x.1 != owner && (friendOnly ==> x.1 !in strangers) {
        offered := offered + granted;
      }
    }

    /** Resumes the reservation made from the current epoch, or makes one. */
    method Prepare(now: int, secret: string, faulty: bool) returns (op: Option<Operation>)
      requires Sound()
      modifies this`store
      ensures Sound() && store.current == old(store.current) && store.policies == old(store.policies)
      ensures op.Some? ==> Resumable(op.value) && op.value.from == store.current < op.value.epoch
      ensures op.None? ==> store == old(store) && faulty
      // A reservation is resumed as it is; a new one takes the new id and secret.
      ensures forall e | e in old(store.rows) && e > store.current && op.Some? ::
                store == old(store) && op.value.epoch == e && op.value.secret == store.rows[e].secret
      ensures op.Some? && (forall e | e in old(store.rows) :: e <= store.current) ==>
                op.value.secret == secret && op.value.epoch == NextEpoch(now, store.current)
                && store == Reserved(old(store), op.value.epoch, secret)
    {
      var stopped: bool := *;
      if faulty && stopped { return None; }
      var reserved: Option<Epoch> := None;
      if e :| e in store.rows && e > store.current
              && forall d | d in store.rows && d > store.current :: e <= d {
        if store.rows[e].from == Some(store.current) {
          reserved := Some(e);
        }
      }
      if reserved.Some? {
        var e := reserved.value;
        return Some(Operation(e, store.rows[e].secret, store.current, store.rows[e].after));
      }
      stopped := *;
      if faulty && stopped { return None; }
      var e := NextEpoch(now, store.current);
      ReservedKeepsChain(store, e, secret);
      store := Reserved(store, e, secret);
      return Some(Operation(e, secret, store.current, None));
    }

    method PutPolicy(p: Policy, quiet: bool)
      requires Sound() && Chain(Put(store, p))
      modifies this`store, this`table, this`offered, this`refused
      ensures Sound() && SameKeys(old(store), store)
      ensures store.current == old(store.current) && store.policies == old(store.policies)[p.epoch := p]
      ensures old(offered) <= offered && old(refused) <= refused
      ensures quiet ==> table == old(table) && store.rows == old(store.rows)
    {
      store := Put(store, p);
      Interfere(quiet);
    }

    method MakeCurrent(e: Epoch)
      requires Sound() && e in store.rows && e > store.current && IsFrozen(store, store.current) && e in store.policies
      modifies this`store
      ensures Sound() && store == old(store).(current := e)
    {
      CommitKeepsChain(store, e);
      store := store.(current := e);
    }

    /** Once the source epoch of a rotation is frozen, a freeze that comes in before the current
        epoch moves finds nothing open that it may close. */
    method FreezeBetween(faulty: bool, quiet: bool)
      requires Sound() && IsFrozen(store, store.current)
      modifies this`store
      ensures store == old(store)
    {
      var e: Epoch := *;
      if !quiet && e <= store.current {
        var _ := Freeze(e, faulty);
      }
    }

    /** Freezes the source epoch, opens the new one and makes it current. `false` with the
        current epoch moved: only the account sync write was missed. */
    method Commit(op: Operation, faulty: bool, quiet: bool) returns (ok: bool)
      requires Sound() && Resumable(op) && op.from == store.current < op.epoch
      modifies this`store, this`table, this`offered, this`refused
      ensures Sound() && SameKeys(old(store), store)
      ensures old(offered) <= offered && old(refused) <= refused
      ensures store.current == old(store.current) || store.current == op.epoch
      ensures ok ==> store.current == op.epoch
      ensures store.current == op.epoch ==> WentOver(old(store), store, op.from, op.epoch)
      ensures !faulty ==> ok
      ensures quiet ==> table == old(table) && store.rows == old(store.rows)
    {
      ok := false;
      var stopped: bool := *;
      if faulty && stopped { return; }
      var policy := PolicyOf(store, store.current);
      FrozenKeepsChain(store, store.current);
      PutPolicy(policy.(open := false), quiet);
      FreezeBetween(faulty, quiet);
      stopped := *;
      if faulty && stopped { return; }
      ok := OpenAndMove(op.epoch, policy.entry, faulty, quiet);
    }

    /** The second half: opens the reserved epoch and makes it current. */
    method OpenAndMove(e: Epoch, entry: Option<string>, faulty: bool, quiet: bool) returns (ok: bool)
      requires Sound() && e in store.rows && e > store.current && IsFrozen(store, store.current)
      modifies this`store, this`table, this`offered, this`refused
      ensures Sound() && SameKeys(old(store), store)
      ensures old(offered) <= offered && old(refused) <= refused
      ensures store.current == old(store.current) || store.current == e
      ensures store.current == e ==>
                store.policies == old(store.policies)[e := Policy(e, true, Some(old(store.current)), entry)]
      ensures ok ==> store.current == e
      ensures !faulty ==> ok
      ensures quiet ==> table == old(table) && store.rows == old(store.rows)
    {
      ok := false;
      OpenedKeepsChain(store, e, entry);
      PutPolicy(Policy(e, true, Some(store.current), entry), quiet);
      FreezeBetween(faulty, quiet);
      var stopped: bool := *;
      if faulty && stopped { return; }
      MakeCurrent(e);
      stopped := *;
      if faulty && stopped { return; }
      ok := true;
    }

    /** Writes the grant for one recipient, or passes over the owner and, in a friends-only
        channel, over a recipient who is no mutual friend at that moment. Those who are friends
        throughout, and all in another channel, get the grant. */
    method Distribute(e: Epoch, p: string, faulty: bool) returns (ok: bool)
      requires Sound()
      modifies this`offered, this`refused
      ensures Sound() && old(offered) <= offered <= old(offered) + {(e, p)}
      ensures old(refused) <= refused <= old(refused) + {(e, p)}
      ensures ok ==> Handled(e, p)
      ensures p == owner ==> offered == old(offered) && refused == old(refused)
      ensures ok && p != owner && (!friendOnly || p in friends) ==> (e, p) in offered
      ensures friendOnly && p in strangers ==> offered == old(offered)
      ensures !faulty ==> ok
    {
      if p == owner { return true; }
      var mutual: bool := *;
      if friendOnly && p !in friends && (p in strangers || !mutual) {
        refused := refused + {(e, p)};
        return true;
      }
      var stopped: bool := *;
      if faulty && stopped { return false; }
      offered := offered + {(e, p)};
      return true;
    }

    method DistributePage(e: Epoch, page: seq<string>, faulty: bool) returns (ok: bool)
      requires Sound()
      modifies this`offered, this`refused
      ensures Sound() && old(offered) <= offered && old(refused) <= refused
      ensures ok ==> forall p | p in page :: Handled(e, p)
      ensures !faulty ==> ok
    {
      for i := 0 to |page|
        invariant Sound() && old(offered) <= offered && old(refused) <= refused
        invariant forall j | 0 <= j < i :: Handled(e, page[j])
      {
        ok := Distribute(e, page[i], faulty);
        if !ok { return; }
      }
      ok := true;
    }

    /** One stage of a rotation: commit if that is missing, then hand one page over. */
    method Advance(op: Operation, faulty: bool, quiet: bool) returns (ok: bool)
      requires Sound() && Resumable(op)
      modifies this`store, this`table, this`offered, this`refused
      ensures Sound() && SameKeys(old(store), store)
      ensures store.current == old(store.current) || store.current == op.epoch > old(store.current)
      ensures ok ==> store.current >= op.epoch
      ensures op.epoch <= old(store.current) ==>
                store.policies == old(store.policies) && store.current == old(store.current)
      ensures store.current != old(store.current) ==> WentOver(old(store), store, op.from, op.epoch)
      ensures !faulty ==> ok
      // The stored cursor moves one page, and not at all when the page was not completed.
      ensures quiet ==> table == old(table)
      ensures quiet && ok ==>
                store.rows[op.epoch].after
                == NextAfter(Page(table, if op.after.Some? then op.after.value else ""))
      ensures quiet && ok ==>
                store.rows[op.epoch].from
                == if store.rows[op.epoch].after.None? then None else old(store.rows)[op.epoch].from
      ensures quiet && !ok ==>
                store.rows == old(store.rows)
                || (op.after.None? && store.rows == SetAfter(old(store), op.epoch, Some("")).rows)
    {
      var after := "";
      if op.after.None? {
        ok := Begin(op, faulty, quiet);
        if !ok { return; }
      } else {
        after := op.after.value;
      }
      ok := HandPage(op.epoch, after, faulty, quiet);
    }

    /** Up to the empty cursor: commits, or makes up for the account sync write missed after a
        commit, and marks the hand-over as begun. */
    method Begin(op: Operation, faulty: bool, quiet: bool) returns (ok: bool)
      requires Sound() && Resumable(op)
      modifies this`store, this`table, this`offered, this`refused
      ensures Sound() && SameKeys(old(store), store)
      ensures store.current == old(store.current) || store.current == op.epoch > old(store.current)
      ensures ok ==> store.current >= op.epoch && Covered(op.epoch, "")
      ensures op.epoch <= old(store.current) ==>
                store.policies == old(store.policies) && store.current == old(store.current)
      ensures store.current != old(store.current) ==> WentOver(old(store), store, op.from, op.epoch)
      ensures !faulty ==> ok
      ensures quiet ==> table == old(table)
      ensures quiet ==>
                store.rows == if ok then SetAfter(old(store), op.epoch, Some("")).rows else old(store.rows)
    {
      ok := false;
      var stopped: bool := *;
      if store.current == op.from {
        ok := Commit(op, faulty, quiet);
        if !ok { return; }
      } else if faulty && stopped { return; }
      ok := false;
      stopped := *;
      if faulty && stopped { return; }
      assert Covered(op.epoch, "") by { assert forall p | p in table :: !AtOrBefore(p, ""); }
      SetCursor(op.epoch, Some(""));
      ok := true;
    }

    /** `set_private_channel_rotation` on a committed epoch. */
    method SetCursor(e: Epoch, after: Option<string>)
      requires Sound() && first < e <= store.current && e in store.rows
      requires if after.Some? then Covered(e, after.value) else AllHandled(e)
      modifies this`store
      ensures Sound() && store == SetAfter(old(store), e, after) && SameKeys(old(store), store)
    {
      SetAfterKeepsChain(store, e, after);
      store := SetAfter(store, e, after);
    }

    /** Reads one page, offers the grant to everyone on it, and moves the cursor over it. */
    method HandPage(e: Epoch, after: string, faulty: bool, quiet: bool) returns (ok: bool)
      requires Sound() && first < e <= store.current && e in store.rows && Covered(e, after)
      modifies this`store, this`table, this`offered, this`refused
      ensures Sound() && SameKeys(old(store), store)
      ensures store.current == old(store.current) && store.policies == old(store.policies)
      ensures !faulty ==> ok
      ensures quiet ==> table == old(table)
      ensures quiet ==>
                store == if ok then SetAfter(old(store), e, NextAfter(Page(table, after))) else old(store)
    {
      var page;
      ok, page := OfferPage(e, after, faulty, quiet);
      if ok {
        ok := MoveOn(e, NextAfter(page), faulty, quiet);
      }
    }

    /** Everyone on the page after the cursor is offered the grant. */
    method OfferPage(e: Epoch, after: string, faulty: bool, quiet: bool) returns (ok: bool, page: seq<string>)
      requires Sound() && e in store.rows && Covered(e, after)
      modifies this`store, this`table, this`offered, this`refused
      ensures Sound() && SameKeys(old(store), store)
      ensures store.current == old(store.current) && store.policies == old(store.policies)
      ensures ok ==> if NextAfter(page).Some? then Covered(e, NextAfter(page).value) else AllHandled(e)
      ensures !faulty ==> ok
      ensures quiet ==> table == old(table) && store == old(store) && page == Page(table, after)
    {
      Interfere(quiet);
      page := Page(table, after);
      ghost var seen := table;
      Interfere(quiet);
      ok := DistributePage(e, page, faulty);
      if ok {
        PageCovers(e, seen, after);
      }
    }

    /** The cursor moves over a page that has been offered. */
    method MoveOn(e: Epoch, next: Option<string>, faulty: bool, quiet: bool) returns (ok: bool)
      requires Sound() && first < e <= store.current && e in store.rows
      requires if next.Some? then Covered(e, next.value) else AllHandled(e)
      modifies this`store, this`table, this`offered, this`refused
      ensures Sound() && SameKeys(old(store), store)
      ensures store.current == old(store.current) && store.policies == old(store.policies)
      ensures !faulty ==> ok
      ensures quiet ==> table == old(table)
      ensures quiet ==> store == if ok then SetAfter(old(store), e, next) else old(store)
    {
      Interfere(quiet);
      var stopped: bool := *;
      if faulty && stopped { return false; }
      SetCursor(e, next);
      ok := true;
    }

    lemma PageCovers(e: Epoch, seen: seq<string>, after: string)
      requires Sorted(seen) && (forall p | p in steady :: p in seen) && Covered(e, after)
      requires forall p | p in Page(seen, after) :: Handled(e, p)
      ensures var next := NextAfter(Page(seen, after));
              if next.Some? then Covered(e, next.value) else AllHandled(e)
    {
      forall p | p in steady
        ensures var next := NextAfter(Page(seen, after));
                (next.Some? ==> AtOrBefore(p, next.value)) ==> Handled(e, p)
      {
        PageHasNoGap(seen, after, p);
      }
    }

    /** `rotate_private_channel`; `ok` says whether it returned Ok, `handed` whether its own advance
        was completed. */
    method Rotate(now: int, secret: string, faulty: bool, quiet: bool) returns (ok: bool, handed: bool)
      requires Sound()
      modifies this`store, this`table, this`offered, this`refused
      ensures Sound()
      ensures ok <==> store.current != old(store.current)
      ensures !faulty ==> ok
      // An interrupted rotation is taken up again under the same id and secret.
      ensures forall e | e in old(store.rows) && e > old(store.current) ::
                SameKeys(old(store), store) && (ok ==> store.current == e)
      ensures store.rows.Keys <= old(store.rows.Keys) + {NextEpoch(now, old(store.current))}
      ensures forall e | e in old(store.rows) :: e in store.rows && store.rows[e].secret == old(store.rows[e].secret)
      ensures store.current != old(store.current) ==>
                WentOver(old(store), store, old(store.current), store.current)
      // Its own advance, if it succeeds, is the first of the hand-over.
      ensures handed ==> ok
      ensures quiet ==> table == old(table)
      ensures quiet && ok ==>
                if handed && FullPages(|table|) == 0 then IsOver(store.current)
                else Stands(store.current, if handed then 1 else 0)
    {
      var prepared := Prepare(now, secret, faulty);
      if prepared.None? { return false, false; }
      var op := prepared.value;
      handed := FirstAdvance(op, faulty, quiet);
      ok := handed || store.current != op.from;
    }

    /** The advance of a rotation that is not committed yet. */
    method FirstAdvance(op: Operation, faulty: bool, quiet: bool) returns (handed: bool)
      requires Sound() && Resumable(op) && op.from == store.current < op.epoch
      modifies this`store, this`table, this`offered, this`refused
      ensures Sound() && SameKeys(old(store), store)
      ensures store.current == old(store.current) || WentOver(old(store), store, op.from, op.epoch)
      ensures handed ==> store.current == op.epoch
      ensures !faulty ==> handed
      ensures quiet ==> table == old(table)
      ensures quiet && store.current == op.epoch ==>
                if handed && FullPages(|table|) == 0 then IsOver(op.epoch)
                else Stands(op.epoch, if handed then 1 else 0)
    {
      AdvancesToFinish(table, 1);
      handed := Advance(op, faulty, quiet);
    }

    /** One tick of the background owner on the unfinished rotation of epoch `e`. */
    method Tick(e: Epoch, faulty: bool, quiet: bool) returns (ok: bool)
      requires Sound()
      modifies this`store, this`table, this`offered, this`refused
      ensures Sound() && SameKeys(old(store), store)
      ensures store.current == old(store.current) && store.policies == old(store.policies)
      ensures quiet ==> table == old(table)
      ensures e !in old(store.rows) || old(store.rows)[e].from in {None, Some(store.current)} ==>
                ok && store == old(store) && offered == old(offered) && refused == old(refused)
      ensures e in old(store.rows) && old(store.rows)[e].from.Some? && e <= store.current ==>
                var was := old(store.rows)[e];
                && (!faulty ==> ok)
                && (quiet && ok ==>
                      store.rows[e].after == NextAfter(Page(table, if was.after.Some? then was.after.value else "")))
                && (quiet && ok ==> store.rows[e].from == if store.rows[e].after.None? then None else was.from)
                && (quiet && !ok ==>
                      store.rows == old(store.rows)
                      || (was.after.None? && store.rows == SetAfter(old(store), e, Some("")).rows))
    {
      if e !in store.rows || store.rows[e].from.None? { return true; }
      var row := store.rows[e];
      if row.from == Some(store.current) { return true; }
      assert e <= store.current;
      ok := Advance(Operation(e, row.secret, row.from.value, row.after), faulty, quiet);
    }

    /** The hand-over of a committed epoch stands after `n` advances. Before the first, its cursor
        may not be set yet. */
    predicate Stands(e: Epoch, n: nat) reads this {
      && e in store.rows && e <= store.current && store.rows[e].from.Some?
      && (store.rows[e].after.None? ==> n == 0)
      && (store.rows[e].after.Some? ==> AfterAdvances(table, n) == store.rows[e].after)
    }

    /** The hand-over of an epoch is over: everyone who stayed has been handled. */
    predicate IsOver(e: Epoch) reads this { e in store.rows && store.rows[e].from.None? && AllHandled(e) }

    /** A tick of a hand-over that stands after `n` advances. */
    method QuietTick(e: Epoch, n: nat, faulty: bool) returns (ok: bool)
      requires Sound() && Stands(e, n)
      modifies this`store, this`table, this`offered, this`refused
      ensures Sound() && table == old(table) && store.current == old(store.current)
      ensures n <= FullPages(|table|) && (!faulty ==> ok)
      ensures !ok ==> Stands(e, n)
      ensures ok ==> if n < FullPages(|table|) then Stands(e, n + 1) else IsOver(e)
    {
      AdvancesToFinish(table, n);
      AdvancesToFinish(table, n + 1);
      assert e != first;
      ok := Tick(e, faulty, true);
    }

    /** Hands a committed epoch over by ticks alone, on a table that stays as it is, with any
        number of failures in between: together with those before, n / 128 + 1 advances succeed. */
    method FinishHandover(e: Epoch, done: nat, failures: nat) returns (n: nat)
      requires Sound() && Stands(e, done)
      modifies this`store, this`table, this`offered, this`refused
      ensures Sound() && table == old(table) && store.current == old(store.current)
      ensures done + n == FullPages(|table|) + 1 && IsOver(e)
      decreases FullPages(|table|) + 1 - done, failures
    {
      var ok := QuietTick(e, done, failures > 0);
      if !ok {
        n := FinishHandover(e, done, failures - 1);
      } else if done < FullPages(|table|) {
        n := FinishHandover(e, done + 1, failures);
        n := n + 1;
      } else {
        n := 1;
      }
    }

    /** A whole rotation on a table that stays as it is: the explicit call, which may fail partway
        and be made again, and the ticks after it. Its advances that succeed are n / 128 + 1. */
    method RotateAndFinish(now: int, secret: string, faulty: bool, failures: nat)
      returns (ok: bool, advances: nat)
      requires Sound()
      modifies this`store, this`table, this`offered, this`refused
      ensures Sound() && table == old(table) && (!faulty ==> ok)
      ensures ok ==> store.current > old(store.current) && advances == FullPages(|table|) + 1 && IsOver(store.current)
    {
      var handed;
      ok, handed := Rotate(now, secret, faulty, true);
      advances := if handed then 1 else 0;
      if !ok { return; }
      var e := store.current;
      AdvancesToFinish(table, 1);
      if store.rows[e].from.Some? {
        var rest := FinishHandover(e, advances, failures);
        advances := advances + rest;
      }
    }

    /** `freeze_private_channel`. The epoch comes from memory and may lag behind the store. */
    method Freeze(e: Epoch, faulty: bool) returns (ok: bool)
      requires Sound() && e <= store.current
      modifies this`store
      ensures Sound() && store.current == old(store.current) && store.rows == old(store.rows)
      ensures ok ==> e in old(store.policies)
                     && store.policies == old(store.policies)[e := old(store.policies)[e].(open := false)]
      ensures !ok ==> store == old(store)
      ensures !faulty && e in old(store.policies) ==> ok
    {
      var stopped: bool := *;
      if e !in store.policies || (faulty && stopped) { return false; }
      FrozenKeepsChain(store, e);
      store := Put(store, store.policies[e].(open := false));
      return true;
    }

    /** `set_private_channel_entry_dome` when nothing writes the policy between its read and
        its write. `active`: no entry is given, or it is an active Dome of the channel. */
    method SetEntry(e: Epoch, entry: Option<string>, active: bool, faulty: bool) returns (ok: bool)
      requires Sound() && e <= store.current
      modifies this`store
      ensures Sound() && store.current == old(store.current) && store.rows == old(store.rows)
      ensures !ok ==> store == old(store)
      ensures ok ==> e in old(store.policies)
                     && store.policies == old(store.policies)[e := old(store.policies)[e].(entry := entry)]
      ensures !faulty && active && e in old(store.policies) ==> ok
    {
      var stopped: bool := *;
      if !active || e !in store.policies || (faulty && stopped) { return false; }
      var read := store.policies[e];
      EntryKeepsChain(store, e, entry);
      store := Put(store, read.(entry := entry));
      return true;
    }
  }
}
