/** Connection status by topic: the full snapshot, the delta for a set of dirty keys, and the
    table of a client that folds deltas. Tables are maps by topic; the order of the list in a
    reply is not modelled. */
module SyncDelta {
  import opened Order

  // ------------------------------------------------------------------ topic names

  const HINT := "hint/"
  const NON_PUBLIC: seq<string> := ["private/", "public-channel/", "kukuri:dm:", "kukuri:account:"]

  function StripHint(topic: string): (r: string) {
    if HINT <= topic then topic[|HINT|..] else topic
  }

  predicate IsNonPublic(topic: string) {
    exists i | 0 <= i < |NON_PUBLIC| :: NON_PUBLIC[i] <= StripHint(topic)
  }

  /** `normalize_topic_name`. */
  function Normalized(topic: string): (r: Option<string>) {
    if IsNonPublic(topic) then None else Some(StripHint(topic))
  }

  /** A topic is shown under its own name, or what follows one `hint/`, exactly when that name is not
      of a private channel, a public channel, a direct message or an account. */
  lemma NormalizedIff(topic: string, t: string)
    ensures Normalized(topic) == Some(t) <==>
            && (topic == "hint/" + t || (topic == t && !("hint/" <= t)))
            && !("private/" <= t) && !("public-channel/" <= t) && !("kukuri:dm:" <= t) && !("kukuri:account:" <= t)
  {
    assert IsNonPublic(topic) <==>
           || NON_PUBLIC[0] <= StripHint(topic) || NON_PUBLIC[1] <= StripHint(topic)
           || NON_PUBLIC[2] <= StripHint(topic) || NON_PUBLIC[3] <= StripHint(topic);
    if "hint/" <= topic {
      assert topic == "hint/" + topic[5..];
      assert topic == "hint/" + t ==> topic[5..] == t;
    }
  }

  // ------------------------------------------------------------------ the snapshot

  datatype Peer = Peer(topic: string, peerCount: nat, detail: string, rest: string)

  /** What the transport and the app hold at one moment. */
  datatype World = World(connected: bool, peers: seq<Peer>, assist: nat, activity: map<string, int>,
                         subscribed: seq<string>)

  datatype Delivery = Live | DurableReady | DurableRecovering | Offline

  datatype Detail = Base(text: string) | Recovering(peers: nat) | Ready(peers: nat)

  datatype Status = Status(topic: string, state: Delivery, peerCount: nat, activity: Option<int>, detail: Detail,
                           rest: string)

  /** Keeps, for each shown topic, the first entry with the most peers. */
  function Merged(peers: seq<Peer>): (m: map<string, Peer>) {
    if peers == [] then map[] else MergeOne(Merged(peers[..|peers| - 1]), peers[|peers| - 1])
  }

  function MergeOne(m: map<string, Peer>, p: Peer): (r: map<string, Peer>) {
    match Normalized(p.topic)
    case None => m
    case Some(t) => if t !in m || m[t].peerCount < p.peerCount then m[t := p.(topic := t)] else m
  }

  /** The kept entry of a topic is one of its entries, under the shown name, and none has more peers. */
  lemma {:induction false} MergedIsMost(peers: seq<Peer>, p: Peer)
    requires p in peers && Normalized(p.topic).Some?
    ensures Normalized(p.topic).value in Merged(peers)
    ensures p.peerCount <= Merged(peers)[Normalized(p.topic).value].peerCount
  {
    var init := peers[..|peers| - 1];
    assert peers == init + [peers[|peers| - 1]];
    if p in init {
      MergedIsMost(init, p);
    }
  }

  lemma {:induction false} MergedIsOne(peers: seq<Peer>, t: string) returns (p: Peer)
    requires t in Merged(peers)
    ensures p in peers && Normalized(p.topic) == Some(t) && Merged(peers)[t] == p.(topic := t)
  {
    var init := peers[..|peers| - 1];
    p := peers[|peers| - 1];
    assert peers == init + [p];
    if t in Merged(init) && Merged(peers)[t] == Merged(init)[t] {
      p := MergedIsOne(init, t);
    }
  }

  function ActivityOf(w: World, t: string): (a: Option<int>) {
    if t in w.activity then Some(w.activity[t]) else None
  }

  /** `delivery_state_for_topic`. */
  function StateFor(peerCount: nat, assist: nat, activity: Option<int>): (d: Delivery) {
    if peerCount > 0 then Live
    else if activity.Some? then DurableReady
    else if assist > 0 then DurableRecovering
    else Offline
  }

  function StatusOf(w: World, p: Peer): (s: Status) {
    var activity := ActivityOf(w, p.topic);
    var state := StateFor(p.peerCount, w.assist, activity);
    var detail := match state
                  case Live => Base(p.detail)
                  case Offline => Base(p.detail)
                  case DurableRecovering => Recovering(w.assist)
                  case DurableReady => Ready(w.assist);
    Status(p.topic, state, p.peerCount, activity, detail, p.rest)
  }

  type Table = map<string, Status>

  /** The full snapshot. */
  function Snapshot(w: World): (t: Table) {
    var m := Merged(w.peers);
    map t | t in m :: StatusOf(w, m[t])
  }

  /** Some entry is shown as this topic, with at least so many peers. */
  ghost predicate Listed(w: World, t: string, atLeast: nat) {
    exists p | p in w.peers :: Normalized(p.topic) == Some(t) && p.peerCount >= atLeast
  }

  lemma PeersOf(w: World, t: string)
    ensures t in Merged(w.peers) <==> Listed(w, t, 0)
    ensures t in Merged(w.peers) ==> (Merged(w.peers)[t].peerCount > 0 <==> Listed(w, t, 1))
    ensures t in Merged(w.peers) ==> Merged(w.peers)[t].topic == t
  {
    if t in Merged(w.peers) {
      var p := MergedIsOne(w.peers, t);
    }
    forall p | p in w.peers && Normalized(p.topic) == Some(t)
      ensures t in Merged(w.peers) && p.peerCount <= Merged(w.peers)[t].peerCount
    {
      MergedIsMost(w.peers, p);
    }
  }

  /** The status of a topic: it is there exactly when some entry is shown as it; live with a peer in some
      entry, else ready with something received, else recovering with helpers, else offline. */
  lemma StatusIff(w: World, t: string)
    ensures t in Snapshot(w) <==> Listed(w, t, 0)
    ensures t in Snapshot(w) ==>
              var s := Snapshot(w)[t];
              && s.topic == t && s.activity == (if t in w.activity then Some(w.activity[t]) else None)
              && (s.state.Live? <==> Listed(w, t, 1))
              && (s.state.DurableReady? <==> !Listed(w, t, 1) && t in w.activity)
              && (s.state.DurableRecovering? <==> !Listed(w, t, 1) && t !in w.activity && w.assist > 0)
              && (s.state.DurableReady? ==> s.detail == Ready(w.assist))
              && (s.state.DurableRecovering? ==> s.detail == Recovering(w.assist))
              && (s.state.Live? || s.state.Offline? ==> s.detail.Base?)
  {
    PeersOf(w, t);
  }

  // ------------------------------------------------------------------ the overall state

  predicate SomeTopic(t: Table, d: Delivery) { exists k | k in t :: t[k].state == d }

  /** The best state of the connection and of all topics. */
  function Best(w: World, t: Table): (d: Delivery) {
    if w.connected || SomeTopic(t, Live) then Live
    else if SomeTopic(t, DurableReady) then DurableReady
    else if SomeTopic(t, DurableRecovering) then DurableRecovering
    else Offline
  }

  /** With helpers and subscriptions, an offline client counts as recovering or ready. */
  function Overall(w: World): (d: Delivery) {
    var t := Snapshot(w);
    var best := Best(w, t);
    if best == Offline && w.assist > 0 && HasSubscription(w)
    then if exists k | k in t :: t[k].activity.Some? then DurableReady else DurableRecovering
    else best
  }

  /** A topic that is shown, without a peer. */
  ghost predicate Quiet(w: World, t: string) { Listed(w, t, 0) && !Listed(w, t, 1) }

  lemma SomeTopicIff(w: World)
    ensures SomeTopic(Snapshot(w), Live) <==> exists t :: Listed(w, t, 1)
    ensures SomeTopic(Snapshot(w), DurableReady) <==> exists t :: Quiet(w, t) && t in w.activity
    ensures SomeTopic(Snapshot(w), DurableRecovering) <==>
            exists t :: Quiet(w, t) && t !in w.activity && w.assist > 0
  {
    var table := Snapshot(w);
    forall t: string
      ensures t in table <==> Listed(w, t, 0)
      ensures Listed(w, t, 1) ==> t in table && table[t].state.Live?
      ensures Quiet(w, t) && t in w.activity ==> t in table && table[t].state.DurableReady?
      ensures Quiet(w, t) && t !in w.activity && w.assist > 0 ==> t in table && table[t].state.DurableRecovering?
    {
      StatusIff(w, t);
    }
    forall t | t in table
      ensures table[t].state.Live? ==> Listed(w, t, 1)
      ensures table[t].state.DurableReady? ==> Quiet(w, t) && t in w.activity
      ensures table[t].state.DurableRecovering? ==> Quiet(w, t) && t !in w.activity && w.assist > 0
    {
      StatusIff(w, t);
    }
  }

  lemma OfflineHasNone(w: World)
    requires Best(w, Snapshot(w)).Offline?
    ensures forall t | t in Snapshot(w) :: Snapshot(w)[t].activity.None?
  {
    forall t | t in Snapshot(w)
      ensures Snapshot(w)[t].activity.None?
    {
      StatusIff(w, t);
      assert !Snapshot(w)[t].state.Live? && !Snapshot(w)[t].state.DurableReady?;
    }
  }

  /** The overall state: live with a connection or a peer, else ready with something received on a
      shown topic, else recovering with helpers and some topic shown or subscribed, else offline. */
  lemma OverallIff(w: World)
    ensures var peers := w.connected || exists t :: Listed(w, t, 1);
            var received := exists t :: Quiet(w, t) && t in w.activity;
            var topics := (exists t :: Quiet(w, t)) || exists s | s in w.subscribed :: Normalized(s).Some?;
            && (Overall(w).Live? <==> peers)
            && (Overall(w).DurableReady? <==> !peers && received)
            && (Overall(w).DurableRecovering? <==> !peers && !received && w.assist > 0 && topics)
  {
    SomeTopicIff(w);
    if Best(w, Snapshot(w)).Offline? {
      OfflineHasNone(w);
    }
  }

  predicate HasSubscription(w: World) {
    exists i | 0 <= i < |w.subscribed| :: Normalized(w.subscribed[i]).Some?
  }

  /** `combine_delivery_states`. */
  function Combined(a: Delivery, b: Delivery): (d: Delivery) {
    if a == Live || b == Live then Live
    else if a == DurableReady || b == DurableReady then DurableReady
    else if a == DurableRecovering || b == DurableRecovering then DurableRecovering
    else Offline
  }

  // ------------------------------------------------------------------ the delta

  datatype Key = All | Summary | Topic(topic: string) | CommunityNode(url: string)

  function Dirty(keys: set<Key>): (r: set<string>) {
    set k | k in keys && k.Topic? && Normalized(k.topic).Some? :: Normalized(k.topic).value
  }

  predicate IsFull(changed: Option<set<Key>>) { changed.None? || All in changed.value }

  datatype Delta = Delta(full: bool, table: Table, removed: set<string>)

  function DeltaOf(t: Table, changed: Option<set<Key>>): (d: Delta) {
    if IsFull(changed) then Delta(true, t, {})
    else
      var dirty := Dirty(changed.value);
      Delta(false, map k | k in t && k in dirty :: t[k], dirty - t.Keys)
  }

  /** `sync_status_delta`. The overall state comes out the same whatever keys are asked for. */
  method SyncStatusDelta(w: World, changed: Option<set<Key>>) returns (d: Delta, overall: Delivery)
    ensures d == DeltaOf(Snapshot(w), changed)
    ensures overall == Overall(w)
  {
    var m := Normalize(w.peers);
    var state := if w.connected then Live else Offline;
    var active := false;
    var table: Table := map[];
    var left := m.Keys;
    while left != {}
      invariant left <= m.Keys && table.Keys == m.Keys - left
      invariant forall k | k in table :: table[k] == StatusOf(w, m[k])
      invariant state == Best(w, table)
      invariant active <==> exists k | k in table :: table[k].activity.Some?
      decreases left
    {
      var t :| t in left;
      var s := StatusOf(w, m[t]);
      BestOneMore(w, table, t, s);
      state := Combined(state, s.state);
      active := active || s.activity.Some?;
      assert forall k | k in table :: table[t := s][k] == table[k];
      table, left := table[t := s], left - {t};
    }
    assert table == Snapshot(w);
    var subscribed := Subscribed(w);
    overall := if state == Offline && w.assist > 0 && subscribed
               then if active then DurableReady else DurableRecovering
               else state;
    if changed.None? || All in changed.value {
      d := Delta(true, table, {});
    } else {
      var dirty := DirtyTopics(changed.value);
      d := Delta(false, map k | k in table && k in dirty :: table[k], dirty - table.Keys);
    }
  }

  /** The shown names of the dirty topics. */
  method DirtyTopics(keys: set<Key>) returns (dirty: set<string>)
    ensures dirty == Dirty(keys)
  {
    dirty := {};
    var left := keys;
    while left != {}
      invariant left <= keys && dirty == Dirty(keys - left)
      decreases left
    {
      var k :| k in left;
      var done := keys - left;
      left := left - {k};
      assert keys - left == done + {k};
      if k.Topic? {
        var name := Normalized(k.topic);
        if name.Some? {
          dirty := dirty + {name.value};
        }
      }
    }
    assert keys - left == keys;
  }

  /** Whether any subscribed topic is shown. */
  method Subscribed(w: World) returns (b: bool)
    ensures b <==> HasSubscription(w)
  {
    for i := 0 to |w.subscribed|
      invariant forall j | 0 <= j < i :: Normalized(w.subscribed[j]).None?
    {
      if Normalized(w.subscribed[i]).Some? { return true; }
    }
    return false;
  }

  /** `normalize_topic_diagnostics`. */
  method Normalize(peers: seq<Peer>) returns (m: map<string, Peer>)
    ensures m == Merged(peers)
  {
    m := map[];
    for i := 0 to |peers|
      invariant m == Merged(peers[..i])
    {
      assert peers[..i + 1][..i] == peers[..i];
      var name := Normalized(peers[i].topic);
      if name.Some? {
        var t := name.value;
        if t !in m || m[t].peerCount < peers[i].peerCount {
          m := m[t := peers[i].(topic := t)];
        }
      }
    }
    assert peers[..|peers|] == peers;
  }

  lemma BestOneMore(w: World, t: Table, k: string, s: Status)
    requires k !in t
    ensures Best(w, t[k := s]) == Combined(Best(w, t), s.state)
  {
    forall d: Delivery
      ensures SomeTopic(t[k := s], d) <==> SomeTopic(t, d) || s.state == d
    {
      if SomeTopic(t, d) {
        var j :| j in t && t[j].state == d;
        assert t[k := s][j].state == d;
      }
      assert t[k := s][k] == s;
    }
  }

  // ------------------------------------------------------------------ a client that folds deltas

  function Fold(client: Table, d: Delta): (r: Table) {
    if d.full then d.table else (client - d.removed) + d.table
  }

  predicate Same(a: Table, b: Table, t: string) {
    (t in a <==> t in b) && (t in a && t in b ==> a[t] == b[t])
  }

  /** The keys cover every topic on which two tables differ. */
  predicate Covers(changed: Option<set<Key>>, before: Table, after: Table) {
    IsFull(changed) || forall t | t in before.Keys + after.Keys && !Same(before, after, t) :: t in Dirty(changed.value)
  }

  /** One fold brings a client's table up to date exactly when the dirty keys cover every topic
      whose status differs from it. */
  lemma FoldIff(client: Table, after: Table, changed: Option<set<Key>>)
    ensures Fold(client, DeltaOf(after, changed)) == after <==> Covers(changed, client, after)
  {
  }

  /** The client after each of a run of deltas; the first is a full snapshot. */
  function Client(worlds: seq<World>, keys: seq<Option<set<Key>>>): (t: Table)
    requires 0 < |worlds| == |keys|
  {
    var n := |worlds| - 1;
    var last := DeltaOf(Snapshot(worlds[n]), keys[n]);
    if n == 0 then Fold(map[], last) else Fold(Client(worlds[..n], keys[..n]), last)
  }

  /** Over any run that starts with a full snapshot and whose dirty sets cover what changed, the
      client's table is the full snapshot of the moment. */
  lemma {:induction false} ClientIsCurrent(worlds: seq<World>, keys: seq<Option<set<Key>>>)
    requires 0 < |worlds| == |keys| && IsFull(keys[0])
    requires forall i | 0 < i < |worlds| :: Covers(keys[i], Snapshot(worlds[i - 1]), Snapshot(worlds[i]))
    ensures Client(worlds, keys) == Snapshot(worlds[|worlds| - 1])
  {
    var n := |worlds| - 1;
    if n > 0 {
      ClientIsCurrent(worlds[..n], keys[..n]);
      FoldIff(Client(worlds[..n], keys[..n]), Snapshot(worlds[n]), keys[n]);
      assert Covers(keys[n], Snapshot(worlds[n - 1]), Snapshot(worlds[n]));
    }
  }

  /** The statuses hold the number of helper peers, so a change of that number alone must mark
      every offline topic: a delta for the summary key leaves the client behind. */
  lemma SummaryIsNotEnough()
    ensures var before := World(false, [Peer("t", 0, "", "")], 0, map[], []);
            var after := before.(assist := 1);
            Fold(Snapshot(before), DeltaOf(Snapshot(after), Some({Summary}))) != Snapshot(after)
  {
  }
}
