/** The invariant of the signal state machine, kept by every action, and what follows from it for
    whole runs. */
module SignalInvariant {
  import opened Signals

  ghost predicate Ascending(s: seq<nat>) {
    forall i, j :: 0 <= i < j < |s| ==> s[i] < s[j]
  }

  // ---- Lists ----

  lemma DistinctCons<T>(x: T, s: seq<T>)
    requires Distinct(s) && x !in s
    ensures Distinct([x] + s)
  {
  }

  lemma DistinctTail<T>(s: seq<T>)
    requires Distinct(s) && s != []
    ensures Distinct(s[1..]) && s[0] !in s[1..]
  {
  }

  lemma {:induction false} EraseOnce<T>(s: seq<T>, x: T)
    requires Distinct(s)
    ensures Distinct(Erase(s, x))
    ensures forall y :: y in Erase(s, x) <==> y in s && y != x
  {
    if s != [] {
      hide Distinct;
      DistinctTail(s);
      assert forall y :: y in s <==> y == s[0] || y in s[1..];
      if s[0] != x {
        EraseOnce(s[1..], x);
        DistinctCons(s[0], Erase(s[1..], x));
      }
    }
  }

  /** The nodes of a list, in bind order. */
  ghost predicate InBindOrder(nodes: seq<Node>) {
    forall i, j :: 0 <= i < j < |nodes| ==> nodes[i].id < nodes[j].id
  }

  ghost predicate Has(nodes: seq<Node>, c: ConnId) {
    exists i :: 0 <= i < |nodes| && nodes[i].id == c
  }

  lemma OrderTail(nodes: seq<Node>)
    requires InBindOrder(nodes) && nodes != []
    ensures InBindOrder(nodes[1..]) && forall n :: n in nodes[1..] ==> nodes[0].id < n.id
  {
  }

  lemma OrderCons(n: Node, nodes: seq<Node>)
    requires InBindOrder(nodes) && forall m :: m in nodes ==> n.id < m.id
    ensures InBindOrder([n] + nodes)
  {
  }

  lemma {:induction false} EraseNodeOnce(nodes: seq<Node>, c: ConnId)
    requires InBindOrder(nodes)
    ensures InBindOrder(EraseNode(nodes, c))
    ensures forall n :: n in EraseNode(nodes, c) <==> n in nodes && n.id != c
  {
    if nodes != [] {
      hide InBindOrder;
      OrderTail(nodes);
      assert forall n :: n in nodes <==> n == nodes[0] || n in nodes[1..];
      if nodes[0].id != c {
        EraseNodeOnce(nodes[1..], c);
        OrderCons(nodes[0], EraseNode(nodes[1..], c));
      }
    }
  }

  lemma {:induction false} KeepConnectedOrder(nodes: seq<Node>, conns: map<ConnId, Conn>)
    requires InBindOrder(nodes)
    ensures InBindOrder(KeepConnected(nodes, conns))
  {
    if nodes != [] {
      hide InBindOrder;
      OrderTail(nodes);
      KeepConnectedOrder(nodes[1..], conns);
      OrderCons(nodes[0], KeepConnected(nodes[1..], conns));
    }
  }

  // ---- The invariant ----

  /** Lists hold each connection once, in bind order, with its pointer set while it is connected. */
  ghost predicate ListOk(st: State, s: SigId) {
    s in st.sigs ==>
      && InBindOrder(st.sigs[s].nodes)
      && forall n :: n in st.sigs[s].nodes ==>
           n.id in st.conns && st.conns[n.id].home == s && (n.live <==> st.conns[n.id].signal.Some?)
  }

  /** A connected connection is in its signal's list, and tracked by all it was bound to. */
  ghost predicate ConnOk(st: State, c: ConnId) {
    c in st.conns ==>
      && var conn := st.conns[c];
      && c < st.next && conn.home in st.sigs && Distinct(conn.trackables)
      && (conn.signal.None? ==> conn.trackables == [])
      && (conn.signal.Some? ==> conn.signal.value == conn.home && conn.trackables == conn.bound)
      && (conn.signal.Some? ==> Node(c, true) in st.sigs[conn.home].nodes)
  }

  /** A connection and a trackable list each other, once, or not at all. */
  ghost predicate LinkOk(st: State, c: ConnId, t: TrackId) {
    (c in st.conns && t in st.conns[c].trackables) <==> (t in st.tracks && c in st.tracks[t])
  }

  ghost predicate TrackOk(st: State, t: TrackId) {
    t in st.tracks ==> Distinct(st.tracks[t])
  }

  function Emissions(stack: seq<Frame>, s: SigId): nat {
    if stack == [] then 0
    else Emissions(stack[..|stack| - 1], s) + if stack[|stack| - 1].sig == s then 1 else 0
  }

  /** The emission count is that of the frames, and outside emissions nothing is pending. */
  ghost predicate CountOk(st: State, s: SigId) {
    s in st.sigs ==>
      && var sig := st.sigs[s];
      && sig.emitting == Emissions(st.stack, s)
      && (sig.emitting == 0 ==> !sig.pending)
      && (sig.pending ==> sig.nodes != [])
      && (!sig.pending ==> forall n :: n in sig.nodes ==> n.live)
  }

  /** How far a frame has come: a node whose slot is being called counts as reached. */
  function Reached(f: Frame): nat {
    f.pos + if f.inCall then 1 else 0
  }

  /** An emission has called only slots it has reached, in bind order and each once, and all the
      reached ones that are still connected. */
  ghost predicate FrameOk(st: State, f: Frame) {
    && f.sig in st.sigs
    && var nodes := st.sigs[f.sig].nodes;
    && Reached(f) <= |nodes|
    && Ascending(f.called)
    && (forall c :: c in f.called ==> Has(nodes[..Reached(f)], c))
    && (forall i :: 0 <= i < Reached(f) && nodes[i].live ==> nodes[i].id in f.called)
    && (f.front ==> |f.called| == if f.inCall then 1 else 0)
  }

  ghost predicate Inv(st: State) {
    && (forall s :: ListOk(st, s))
    && (forall c :: ConnOk(st, c))
    && (forall c, t :: LinkOk(st, c, t))
    && (forall t :: TrackOk(st, t))
    && (forall s :: CountOk(st, s))
    && (forall k :: 0 <= k < |st.stack| ==> FrameOk(st, st.stack[k]))
    && (forall k :: 0 <= k < |st.stack| - 1 ==> st.stack[k].inCall)
  }

  // ---- Disconnecting ----

  /** What disconnecting c does to the rest of the state. */
  lemma DisconnectEffect(st: State, c: ConnId)
    requires Inv(st) && Connected(st, c)
    ensures var after := Disconnect(st, c);
            var s := st.conns[c].home;
            && s in st.sigs
            && after.conns == st.conns[c := st.conns[c].(signal := None, trackables := [])]
            && after.sigs == st.sigs[s := DropNode(st.sigs[s], c)]
            && after.stack == st.stack && after.next == st.next && after.tracks.Keys == st.tracks.Keys
            && forall t :: t in st.tracks ==> after.tracks[t] == if c in st.tracks[t] then Erase(st.tracks[t], c) else st.tracks[t]
  {
    assert ConnOk(st, c);
    forall t | t in st.tracks
      ensures Disconnect(st, c).tracks[t] == if c in st.tracks[t] then Erase(st.tracks[t], c) else st.tracks[t]
    {
      assert LinkOk(st, c, t);
    }
  }

  lemma ResetKeepsOrder(nodes: seq<Node>, c: ConnId)
    requires InBindOrder(nodes)
    ensures InBindOrder(ResetNode(nodes, c))
    ensures forall n :: n in ResetNode(nodes, c) ==> if n.id == c then !n.live else n in nodes
    ensures forall n :: n in nodes && n.id != c ==> n in ResetNode(nodes, c)
  {
    var r := ResetNode(nodes, c);
    forall n | n in nodes && n.id != c ensures n in r {
      var i :| 0 <= i < |nodes| && nodes[i] == n;
      assert r[i] == n;
    }
  }

  /** What a signal's list may lose with a connection. Outside emissions its node goes, and nothing else;
      during one no node goes or moves, only that one is emptied, and erasure is pending. */
  ghost predicate Forgets(before: Signal, after: Signal, c: ConnId) {
    && after.emitting == before.emitting
    && if before.emitting > 0 then
         && after.pending && |after.nodes| == |before.nodes| && SameIds(before.nodes, after.nodes)
         && forall i :: 0 <= i < |before.nodes| ==>
              after.nodes[i].live == (before.nodes[i].live && before.nodes[i].id != c)
       else
         && after.pending == before.pending && InBindOrder(after.nodes)
         && forall n :: n in after.nodes <==> n in before.nodes && n.id != c
  }

  lemma DropNodeForgets(s: Signal, c: ConnId)
    requires InBindOrder(s.nodes)
    ensures Forgets(s, DropNode(s, c), c)
  {
    if s.emitting == 0 {
      EraseNodeOnce(s.nodes, c);
    }
  }

  lemma DropNodeLists(st: State, c: ConnId, s: SigId)
    requires ListOk(st, s) && CountOk(st, s) && s in st.sigs && Node(c, true) in st.sigs[s].nodes
    ensures var sig := DropNode(st.sigs[s], c);
            && InBindOrder(sig.nodes) && sig.emitting == st.sigs[s].emitting
            && (forall n :: n in sig.nodes ==> if n.id == c then !n.live && sig.emitting > 0 else n in st.sigs[s].nodes)
            && (forall n :: n in st.sigs[s].nodes && n.id != c ==> n in sig.nodes)
            && (sig.emitting == 0 ==> !sig.pending) && (sig.pending ==> sig.nodes != [])
            && (!sig.pending ==> forall n :: n in sig.nodes ==> n.live)
  {
    hide InBindOrder, ResetNode, EraseNode;
    EraseNodeOnce(st.sigs[s].nodes, c);
    ResetKeepsOrder(st.sigs[s].nodes, c);
  }

  lemma DisconnectLists(st: State, c: ConnId, s: SigId)
    requires Inv(st) && Connected(st, c)
    ensures ListOk(Disconnect(st, c), s) && CountOk(Disconnect(st, c), s)
  {
    hide InBindOrder, Disconnect, DropNode;
    DisconnectEffect(st, c);
    assert ListOk(st, s) && CountOk(st, s) && ConnOk(st, c);
    if s == st.conns[c].home {
      DropNodeLists(st, c, s);
    }
  }

  lemma DisconnectConns(st: State, c: ConnId, d: ConnId)
    requires Inv(st) && Connected(st, c)
    ensures ConnOk(Disconnect(st, c), d)
  {
    hide InBindOrder, Disconnect, DropNode;
    DisconnectEffect(st, c);
    var s := st.conns[c].home;
    assert ConnOk(st, c) && ConnOk(st, d) && ListOk(st, s) && CountOk(st, s);
    DropNodeLists(st, c, s);
  }

  lemma DisconnectTracks(st: State, c: ConnId, d: ConnId, t: TrackId)
    requires Inv(st) && Connected(st, c)
    ensures LinkOk(Disconnect(st, c), d, t) && TrackOk(Disconnect(st, c), t)
  {
    DisconnectEffect(st, c);
    assert LinkOk(st, d, t) && LinkOk(st, c, t) && TrackOk(st, t);
    if t in st.tracks {
      EraseOnce(st.tracks[t], c);
    }
  }

  lemma DisconnectFrames(st: State, c: ConnId, k: nat)
    requires Inv(st) && Connected(st, c) && k < |st.stack|
    ensures FrameOk(Disconnect(st, c), st.stack[k])
  {
    DisconnectEffect(st, c);
    var f := st.stack[k];
    assert FrameOk(st, f) && ConnOk(st, c) && CountOk(st, f.sig);
    EmissionsPositive(st.stack, k);
    var before, after := st.sigs[f.sig].nodes, Disconnect(st, c).sigs[f.sig].nodes;
    hide Disconnect, Inv, ConnOk, CountOk, Ascending;
    forall x | x in f.called ensures Has(after[..Reached(f)], x) {
      var i :| 0 <= i < Reached(f) && before[..Reached(f)][i].id == x;
      assert after[..Reached(f)][i].id == x;
    }
  }

  lemma {:induction false} EmissionsPositive(stack: seq<Frame>, k: nat)
    requires k < |stack|
    ensures Emissions(stack, stack[k].sig) > 0
  {
    if k < |stack| - 1 {
      EmissionsPositive(stack[..|stack| - 1], k);
    }
  }

  lemma DisconnectKeepsInv(st: State, c: ConnId)
    requires Inv(st)
    ensures Inv(Disconnect(st, c)) && OnlyDisconnects(st, Disconnect(st, c), [c])
  {
    hide OnlyDisconnects;
    DisconnectOnly(st, c);
    if Connected(st, c) {
      var after := Disconnect(st, c);
      assert after.stack == st.stack;
      forall s ensures ListOk(after, s) && CountOk(after, s) { DisconnectLists(st, c, s); }
      forall d ensures ConnOk(after, d) { DisconnectConns(st, c, d); }
      forall d, t ensures LinkOk(after, d, t) { DisconnectTracks(st, c, d, t); }
      forall t ensures TrackOk(after, t) { DisconnectTracks(st, c, c, t); }
      forall k | 0 <= k < |st.stack| ensures FrameOk(after, st.stack[k]) { DisconnectFrames(st, c, k); }
    }
  }

  /** What no action undoes: a connection keeps its signal and the trackables it was bound to, and
      once disconnected it stays so. */
  ghost predicate Later(st: State, after: State) {
    && st.sigs.Keys <= after.sigs.Keys && st.conns.Keys <= after.conns.Keys
    && forall c :: c in st.conns ==>
         && after.conns[c].home == st.conns[c].home && after.conns[c].bound == st.conns[c].bound
         && (st.conns[c].signal.None? ==> after.conns[c].signal.None?)
  }

  /** Disconnecting leaves the emissions, the counts and the other connections alone. */
  ghost predicate OnlyDisconnects(st: State, after: State, cs: seq<ConnId>) {
    && after.stack == st.stack && after.next == st.next && after.conns.Keys == st.conns.Keys
    && after.sigs.Keys == st.sigs.Keys && after.tracks.Keys == st.tracks.Keys
    && (forall s :: s in st.sigs ==> after.sigs[s].emitting == st.sigs[s].emitting)
    && (forall s :: s in st.sigs && st.sigs[s].emitting > 0 ==> SameIds(st.sigs[s].nodes, after.sigs[s].nodes))
    && (forall c :: c in st.conns ==>
          && after.conns[c].home == st.conns[c].home && after.conns[c].bound == st.conns[c].bound
          && after.conns[c].signal == if c in cs then None else st.conns[c].signal)
  }

  ghost predicate SameIds(a: seq<Node>, b: seq<Node>) {
    |a| <= |b| && forall i :: 0 <= i < |a| ==> a[i].id == b[i].id
  }

  lemma DisconnectOnly(st: State, c: ConnId)
    requires Inv(st)
    ensures OnlyDisconnects(st, Disconnect(st, c), [c])
  {
    if Connected(st, c) {
      DisconnectEffect(st, c);
    }
  }

  lemma {:induction false} DisconnectEachKeepsInv(st: State, cs: seq<ConnId>)
    requires Inv(st)
    ensures Inv(DisconnectEach(st, cs)) && OnlyDisconnects(st, DisconnectEach(st, cs), cs)
    decreases |cs|
  {
    hide Inv, Disconnect;
    if cs != [] {
      DisconnectKeepsInv(st, cs[0]);
      DisconnectOnly(st, cs[0]);
      DisconnectEachKeepsInv(Disconnect(st, cs[0]), cs[1..]);
      assert forall c :: c in cs <==> c == cs[0] || c in cs[1..];
    }
  }

  // ---- disconnect_all_slots ----

  lemma MarkPending(st: State, s: SigId)
    requires Inv(st) && s in st.sigs && st.sigs[s].nodes != []
    ensures Inv(st.(sigs := st.sigs[s := st.sigs[s].(pending := st.sigs[s].emitting > 0)]))
  {
    var marked := st.(sigs := st.sigs[s := st.sigs[s].(pending := st.sigs[s].emitting > 0)]);
    assert CountOk(st, s);
    forall s' ensures ListOk(marked, s') && CountOk(marked, s') { assert ListOk(st, s') && CountOk(st, s'); }
    forall c ensures ConnOk(marked, c) { assert ConnOk(st, c); }
    forall c, t ensures LinkOk(marked, c, t) { assert LinkOk(st, c, t); }
    forall t ensures TrackOk(marked, t) { assert TrackOk(st, t); }
    forall k | 0 <= k < |st.stack| ensures FrameOk(marked, st.stack[k]) { assert FrameOk(st, st.stack[k]); }
  }

  lemma IdsOfNodes(nodes: seq<Node>, n: Node)
    requires n in nodes
    ensures n.id in Ids(nodes)
  {
    var i :| 0 <= i < |nodes| && nodes[i] == n;
    assert Ids(nodes)[i] == n.id;
  }

  /** All of a signal's slots are disconnected, and outside its emissions its list is empty. */
  lemma DisconnectAllKeepsInv(st: State, s: SigId)
    requires Inv(st) && s in st.sigs
    ensures var after := DisconnectAll(st, s);
            && Inv(after) && OnlyDisconnects(st, after, Ids(st.sigs[s].nodes))
            && (forall c :: c in after.conns && after.conns[c].home == s ==> after.conns[c].signal.None?)
            && (st.sigs[s].emitting == 0 ==> after.sigs[s].nodes == [])
  {
    hide Inv, ListOk, ConnOk, DisconnectEach, TrackOk, LinkOk, CountOk, FrameOk;
    var after := DisconnectAll(st, s);
    if st.sigs[s].nodes != [] {
      MarkPending(st, s);
      DisconnectEachKeepsInv(st.(sigs := st.sigs[s := st.sigs[s].(pending := st.sigs[s].emitting > 0)]), Ids(st.sigs[s].nodes));
    }
    forall c | c in after.conns && after.conns[c].home == s ensures after.conns[c].signal.None? {
      if after.conns[c].signal.Some? {
        ConnectedIsListed(st, c);
        IdsOfNodes(st.sigs[s].nodes, Node(c, true));
      }
    }
    if st.sigs[s].emitting == 0 && after.sigs[s].nodes != [] {
      IdleNodesConnected(after, s, after.sigs[s].nodes[0]);
    }
  }

  lemma ConnectedIsListed(st: State, c: ConnId)
    requires Inv(st) && Connected(st, c)
    ensures st.conns[c].home in st.sigs && Node(c, true) in st.sigs[st.conns[c].home].nodes
  {
    assert ConnOk(st, c);
  }

  /** Outside its emissions a signal's list holds connected slots only. */
  lemma IdleNodesConnected(st: State, s: SigId, n: Node)
    requires Inv(st) && s in st.sigs && st.sigs[s].emitting == 0 && n in st.sigs[s].nodes
    ensures n.live && Connected(st, n.id) && st.conns[n.id].home == s
  {
    assert ListOk(st, s) && CountOk(st, s);
  }

  // ---- Trackables ----

  lemma LinkedMeansConnected(st: State, c: ConnId, t: TrackId)
    requires Inv(st) && t in st.tracks && c in st.tracks[t]
    ensures Connected(st, c) && t in st.conns[c].bound
  {
    assert LinkOk(st, c, t) && ConnOk(st, c);
  }

  lemma BoundMeansLinked(st: State, c: ConnId, t: TrackId)
    requires Inv(st) && Connected(st, c) && t in st.conns[c].bound
    ensures t in st.tracks && c in st.tracks[t]
  {
    assert LinkOk(st, c, t) && ConnOk(st, c);
  }

  lemma DestroyKeepsInv(st: State, t: TrackId)
    requires Inv(st) && t in st.tracks
    ensures Inv(Destroy(st, t)) && OnlyDisconnects(st, DisconnectEach(st, st.tracks[t]), st.tracks[t])
    ensures DisconnectEach(st, st.tracks[t]).tracks[t] == []
  {
    var mid := DisconnectEach(st, st.tracks[t]);
    DisconnectEachKeepsInv(st, st.tracks[t]);
    if mid.tracks[t] != [] {
      LinkedMeansConnected(mid, mid.tracks[t][0], t);
      BoundMeansLinked(st, mid.tracks[t][0], t);
    }
    var after := Destroy(st, t);
    forall s ensures ListOk(after, s) && CountOk(after, s) { assert ListOk(mid, s) && CountOk(mid, s); }
    forall c ensures ConnOk(after, c) { assert ConnOk(mid, c); }
    forall c, t' ensures LinkOk(after, c, t') { assert LinkOk(mid, c, t'); }
    forall t' ensures TrackOk(after, t') { assert TrackOk(mid, t'); }
    forall k | 0 <= k < |mid.stack| ensures FrameOk(after, mid.stack[k]) { assert FrameOk(mid, mid.stack[k]); }
  }

  // ---- Binding ----

  /** A new connection, last in the signal's list, and linked with each trackable among the arguments;
      everything else is as it was. */
  ghost predicate BindsOne(st: State, after: State, s: SigId, ts: seq<TrackId>) {
    var c := st.next;
    && s in st.sigs && c !in st.conns && after.next == c + 1 && after.stack == st.stack
    && after.sigs == st.sigs[s := st.sigs[s].(nodes := st.sigs[s].nodes + [Node(c, true)])]
    && Connected(after, c) && after.conns[c].signal == Some(s) && after.conns == st.conns[c := after.conns[c]]
    && Distinct(after.conns[c].trackables) && (forall t :: t in after.conns[c].trackables <==> t in ts)
    && after.tracks.Keys == st.tracks.Keys
    && forall t :: t in st.tracks ==> after.tracks[t] == if t in ts then st.tracks[t] + [c] else st.tracks[t]
  }

  lemma BindBindsOne(st: State, s: SigId, ts: seq<TrackId>)
    requires Inv(st) && s in st.sigs && forall t :: t in ts ==> t in st.tracks
    ensures BindsOne(st, Bind(st, s, ts), s, ts)
  {
    assert ConnOk(st, st.next);
  }

  lemma BindKeepsInv(st: State, s: SigId, ts: seq<TrackId>)
    requires Inv(st) && s in st.sigs && forall t :: t in ts ==> t in st.tracks
    ensures Inv(Bind(st, s, ts)) && BindsOne(st, Bind(st, s, ts), s, ts)
  {
    hide BindsOne;
    BindBindsOne(st, s, ts);
    var after := Bind(st, s, ts);
    var c := st.next;
    assert ConnOk(st, c);
    forall s' ensures ListOk(after, s') && CountOk(after, s') { BindLists(st, s, ts, s'); }
    forall d ensures ConnOk(after, d) { assert ConnOk(st, d); }
    forall d, t ensures LinkOk(after, d, t) { assert LinkOk(st, d, t) && LinkOk(st, c, t); }
    forall t ensures TrackOk(after, t) {
      assert TrackOk(st, t) && LinkOk(st, c, t);
    }
    forall k | 0 <= k < |st.stack| ensures FrameOk(after, st.stack[k]) { BindFrame(st, s, ts, st.stack[k]); }
  }

  lemma BindLists(st: State, s: SigId, ts: seq<TrackId>, s': SigId)
    requires Inv(st) && s in st.sigs && forall t :: t in ts ==> t in st.tracks
    ensures ListOk(Bind(st, s, ts), s') && CountOk(Bind(st, s, ts), s')
  {
    assert ListOk(st, s') && CountOk(st, s') && ConnOk(st, st.next);
    if s' in st.sigs {
      forall n | n in st.sigs[s'].nodes ensures n.id < st.next {
        assert ConnOk(st, n.id);
      }
    }
  }

  lemma BindFrame(st: State, s: SigId, ts: seq<TrackId>, f: Frame)
    requires s in st.sigs && (forall t :: t in ts ==> t in st.tracks) && FrameOk(st, f)
    ensures FrameOk(Bind(st, s, ts), f)
  {
    var before, after := st.sigs[f.sig].nodes, Bind(st, s, ts).sigs[f.sig].nodes;
    assert after[..Reached(f)] == before[..Reached(f)];
    assert forall i :: 0 <= i < Reached(f) ==> after[i] == before[i];
  }

  // ---- Emitting ----

  lemma BeginKeepsInv(st: State, s: SigId, front: bool)
    requires Inv(st) && s in st.sigs && ClientRuns(st)
    ensures Inv(BeginEmit(st, s, front))
  {
    hide ListOk, CountOk, ConnOk, FrameOk;
    var after := BeginEmit(st, s, front);
    forall s' ensures ListOk(after, s') && CountOk(after, s') { BeginSignal(st, s, front, s'); }
    forall c ensures ConnOk(after, c) { BeginConn(st, s, front, c); }
    forall c, t ensures LinkOk(after, c, t) { assert LinkOk(st, c, t); }
    forall t ensures TrackOk(after, t) { assert TrackOk(st, t); }
    forall k | 0 <= k < |after.stack| ensures FrameOk(after, after.stack[k]) {
      if k < |st.stack| { assert FrameOk(st, st.stack[k]); }
      BeginFrame(st, s, front, k);
    }
  }

  lemma BeginSignal(st: State, s: SigId, front: bool, s': SigId)
    requires s in st.sigs && ListOk(st, s') && CountOk(st, s')
    ensures ListOk(BeginEmit(st, s, front), s') && CountOk(BeginEmit(st, s, front), s')
  {
    var after := BeginEmit(st, s, front);
    assert after.stack[..|after.stack| - 1] == st.stack;
  }

  lemma BeginConn(st: State, s: SigId, front: bool, c: ConnId)
    requires s in st.sigs && ConnOk(st, c)
    ensures ConnOk(BeginEmit(st, s, front), c)
  {
  }

  lemma BeginFrame(st: State, s: SigId, front: bool, k: nat)
    requires s in st.sigs && k <= |st.stack| && (k < |st.stack| ==> FrameOk(st, st.stack[k]))
    ensures FrameOk(BeginEmit(st, s, front), BeginEmit(st, s, front).stack[k])
  {
  }

  lemma ListAndCount(st: State, s: SigId)
    requires Inv(st)
    ensures ListOk(st, s) && CountOk(st, s)
  {
  }

  lemma EndSignal(st: State, s: SigId)
    requires Inv(st) && st.stack != [] && Top(st).sig in st.sigs && st.sigs[Top(st).sig].emitting > 0
    ensures ListOk(EndEmit(st), s) && CountOk(EndEmit(st), s)
  {
    hide Inv, InBindOrder;
    ListAndCount(st, s);
    if s in st.sigs {
      KeepConnectedOrder(st.sigs[s].nodes, st.conns);
    }
  }

  lemma EndFrame(st: State, k: nat)
    requires Inv(st) && st.stack != [] && Top(st).sig in st.sigs && st.sigs[Top(st).sig].emitting > 0
    requires k < |st.stack| - 1
    ensures FrameOk(EndEmit(st), st.stack[k])
  {
    var s := Top(st).sig;
    assert FrameOk(st, st.stack[k]) && CountOk(st, s);
    if st.stack[k].sig == s {
      EmissionsPositive(st.stack[..|st.stack| - 1], k);
    }
  }

  lemma EndKeepsInv(st: State)
    requires Inv(st) && st.stack != [] && Top(st).sig in st.sigs && st.sigs[Top(st).sig].emitting > 0
    ensures Inv(EndEmit(st))
  {
    hide ClearPending, ListOk, CountOk, FrameOk;
    var after := EndEmit(st);
    forall s ensures ListOk(after, s) && CountOk(after, s) { EndSignal(st, s); }
    forall c ensures ConnOk(after, c) { EndConn(st, c); }
    forall c, t ensures LinkOk(after, c, t) { assert LinkOk(st, c, t); }
    forall t ensures TrackOk(after, t) { assert TrackOk(st, t); }
    forall k | 0 <= k < |after.stack| ensures FrameOk(after, after.stack[k]) { EndFrame(st, k); }
  }

  lemma EndConn(st: State, c: ConnId)
    requires Inv(st) && st.stack != [] && Top(st).sig in st.sigs && st.sigs[Top(st).sig].emitting > 0
    ensures ConnOk(EndEmit(st), c)
  {
    assert ConnOk(st, c);
  }

  lemma ChangeTop(st: State, f: Frame)
    requires Inv(st) && st.stack != [] && f.sig == Top(st).sig && FrameOk(st, f)
    ensures Inv(SetTop(st, f))
  {
    hide FrameOk;
    var after := SetTop(st, f);
    var last := |st.stack| - 1;
    assert after.stack[..last] == st.stack[..last];
    forall s ensures ListOk(after, s) && CountOk(after, s) { assert ListOk(st, s) && CountOk(st, s); }
    forall c ensures ConnOk(after, c) { assert ConnOk(st, c); }
    forall c, t ensures LinkOk(after, c, t) { assert LinkOk(st, c, t); }
    forall t ensures TrackOk(after, t) { assert TrackOk(st, t); }
    forall k | 0 <= k < |after.stack| ensures FrameOk(after, after.stack[k]) {
      if k < last { SameSignalsSameFrame(st, after, st.stack[k]); } else { SameSignalsSameFrame(st, after, f); }
    }
  }

  lemma SameSignalsSameFrame(st: State, after: State, f: Frame)
    requires FrameOk(st, f) && after.sigs == st.sigs
    ensures FrameOk(after, f)
  {
  }

  /** The loop moves on past a slot that is not connected, or one that has just been called. */
  lemma MoveOn(st: State, f: Frame)
    requires FrameOk(st, f) && f.pos < |st.sigs[f.sig].nodes|
    requires (f.inCall && !f.front) || (!f.inCall && !st.sigs[f.sig].nodes[f.pos].live)
    ensures FrameOk(st, f.(pos := f.pos + 1, inCall := false))
  {
    var nodes := st.sigs[f.sig].nodes;
    var g := f.(pos := f.pos + 1, inCall := false);
    forall c | c in f.called ensures Has(nodes[..Reached(g)], c) {
      var i :| 0 <= i < Reached(f) && nodes[..Reached(f)][i].id == c;
      assert nodes[..Reached(g)][i].id == c;
    }
  }

  lemma AscendingNext(s: seq<nat>, x: nat)
    requires Ascending(s) && forall d :: d in s ==> d < x
    ensures Ascending(s + [x])
  {
    forall i, j | 0 <= i < j < |s + [x]| ensures (s + [x])[i] < (s + [x])[j] {
      assert s[i] in s;
    }
  }

  /** A slot is called: it had not been called before, and it comes after all that were. */
  lemma CallFrame(st: State, f: Frame)
    requires FrameOk(st, f) && ListOk(st, f.sig) && !f.inCall && f.pos < |st.sigs[f.sig].nodes|
    ensures var c := st.sigs[f.sig].nodes[f.pos].id;
            c !in f.called && FrameOk(st, f.(inCall := true, called := f.called + [c]))
  {
    var nodes := st.sigs[f.sig].nodes;
    var c := nodes[f.pos].id;
    var g := f.(inCall := true, called := f.called + [c]);
    forall d | d in f.called ensures d < c && Has(nodes[..Reached(g)], d) {
      var i :| 0 <= i < Reached(f) && nodes[..Reached(f)][i].id == d;
      assert nodes[..Reached(g)][i].id == d;
    }
    assert nodes[..Reached(g)][f.pos].id == c;
    AscendingNext(f.called, c);
  }

  lemma AdvanceKeepsInv(st: State)
    requires Inv(st) && Enabled(st, DoAdvance)
    ensures Inv(Advance(st))
  {
    hide FrameOk;
    var f := Top(st);
    var nodes := st.sigs[f.sig].nodes;
    assert FrameOk(st, f) && ListOk(st, f.sig);
    if f.pos >= |nodes| {
      EndKeepsInv(st);
    } else if nodes[f.pos].live && Connected(st, nodes[f.pos].id) {
      CallFrame(st, f);
      ChangeTop(st, f.(inCall := true, called := f.called + [nodes[f.pos].id]));
    } else {
      MoveOn(st, f);
      ChangeTop(st, f.(pos := f.pos + 1));
    }
  }

  lemma ReturnKeepsInv(st: State)
    requires Inv(st) && Enabled(st, DoReturn)
    ensures Inv(Return(st))
  {
    var f := Top(st);
    assert FrameOk(st, f);
    if f.front {
      EndKeepsInv(st);
    } else {
      MoveOn(st, f);
      ChangeTop(st, f.(pos := f.pos + 1, inCall := false));
    }
  }
}
