/** Signals and slots of p2engine/fssignal.hpp and src/fssignal.cpp as a state machine: slots may
    bind, disconnect, destroy trackables and emit again while emissions walk the same list. */
module Signals {
  type SigId = nat
  type ConnId = nat
  type TrackId = nat

  datatype Option<T> = None | Some(value: T)

  /** connection_base. Its place in its signal's list is the node of its own id. bound are the
      trackables the slot was bound to, which the program does not record. */
  datatype Conn = Conn(signal: Option<SigId>, trackables: seq<TrackId>, home: SigId, bound: seq<TrackId>)

  /** A list node: the connection it was made for, and whether its pointer is still set. */
  datatype Node = Node(id: ConnId, live: bool)

  /** signal_base_impl. */
  datatype Signal = Signal(nodes: seq<Node>, emitting: nat, pending: bool)

  /** An emission in progress: its iterator, whether it is inside a slot, and the slots called. */
  datatype Frame = Frame(sig: SigId, pos: nat, front: bool, inCall: bool, called: seq<ConnId>)

  datatype State = State(
    sigs: map<SigId, Signal>,
    conns: map<ConnId, Conn>,
    tracks: map<TrackId, seq<ConnId>>,
    stack: seq<Frame>,
    next: ConnId)

  predicate Connected(st: State, c: ConnId) {
    c in st.conns && st.conns[c].signal.Some?
  }

  // ---- Lists ----

  function Ids(nodes: seq<Node>): (ids: seq<ConnId>)
    ensures |ids| == |nodes| && forall i :: 0 <= i < |nodes| ==> ids[i] == nodes[i].id
  {
    if nodes == [] then [] else [nodes[0].id] + Ids(nodes[1..])
  }

  predicate Distinct<T(==)>(s: seq<T>) {
    forall i, j :: 0 <= i < j < |s| ==> s[i] != s[j]
  }

  /** list::erase of the one element equal to x. */
  function Erase<T(==)>(s: seq<T>, x: T): (r: seq<T>)
    ensures forall y :: y in r ==> y in s
    ensures |r| <= |s|
  {
    if s == [] then [] else if s[0] == x then s[1..] else [s[0]] + Erase(s[1..], x)
  }

  /** list::erase of the node of a connection. */
  function EraseNode(nodes: seq<Node>, c: ConnId): (r: seq<Node>)
    ensures forall n :: n in r ==> n in nodes
    ensures |r| <= |nodes|
  {
    if nodes == [] then [] else if nodes[0].id == c then nodes[1..] else [nodes[0]] + EraseNode(nodes[1..], c)
  }

  /** The pointer in the node of a connection reset. */
  function ResetNode(nodes: seq<Node>, c: ConnId): (r: seq<Node>)
    ensures |r| == |nodes|
    ensures forall i :: 0 <= i < |r| ==> r[i] == if nodes[i].id == c then Node(c, false) else nodes[i]
  {
    seq(|nodes|, i requires 0 <= i < |nodes| => if nodes[i].id == c then Node(c, false) else nodes[i])
  }

  /** clear_pending_erase's loop: the nodes that still hold a connected connection. */
  function KeepConnected(nodes: seq<Node>, conns: map<ConnId, Conn>): (r: seq<Node>)
    ensures forall n :: n in r <==> n in nodes && n.live && n.id in conns && conns[n.id].signal.Some?
    ensures |r| <= |nodes|
  {
    if nodes == [] then [] else
      var n := nodes[0];
      (if n.live && n.id in conns && conns[n.id].signal.Some? then [n] else []) + KeepConnected(nodes[1..], conns)
  }

  // ---- Operations ----

  /** disconnect_without_callback_connection: erased at once, or only reset during an emission. */
  function DropNode(s: Signal, c: ConnId): Signal {
    if s.emitting > 0 then s.(nodes := ResetNode(s.nodes, c), pending := true)
    else s.(nodes := EraseNode(s.nodes, c))
  }

  function Untrack(tracks: map<TrackId, seq<ConnId>>, ts: seq<TrackId>, c: ConnId): (r: map<TrackId, seq<ConnId>>)
    ensures r.Keys == tracks.Keys
  {
    map t | t in tracks :: if t in ts then Erase(tracks[t], c) else tracks[t]
  }

  /** connection_base::disconnect. */
  function Disconnect(st: State, c: ConnId): State {
    if !Connected(st, c) then st else
      var conn := st.conns[c];
      st.(conns := st.conns[c := conn.(signal := None, trackables := [])],
          tracks := Untrack(st.tracks, conn.trackables, c),
          sigs := if conn.signal.value in st.sigs
                  then st.sigs[conn.signal.value := DropNode(st.sigs[conn.signal.value], c)] else st.sigs)
  }

  function DisconnectEach(st: State, cs: seq<ConnId>): State
    decreases |cs|
  {
    if cs == [] then st else DisconnectEach(Disconnect(st, cs[0]), cs[1..])
  }

  /** disconnect_all_slots. */
  function DisconnectAll(st: State, s: SigId): State
    requires s in st.sigs
  {
    var sig := st.sigs[s];
    if sig.nodes == [] then st
    else DisconnectEach(st.(sigs := st.sigs[s := sig.(pending := sig.emitting > 0)]), Ids(sig.nodes))
  }

  // ---- Popping a slot ----

  /** The node at the front or at the back of a list, and the list without it. */
  function End(nodes: seq<Node>, front: bool): Node
    requires nodes != []
  {
    if front then nodes[0] else nodes[|nodes| - 1]
  }

  function Shorter(nodes: seq<Node>, front: bool): (r: seq<Node>)
    requires nodes != []
    ensures |r| == |nodes| - 1
  {
    if front then nodes[1..] else nodes[..|nodes| - 1]
  }

  /** The first connected slot from the front or from the back. */
  function Outermost(st: State, nodes: seq<Node>, front: bool): Option<ConnId>
    decreases |nodes|
  {
    if nodes == [] then None
    else
      var n := End(nodes, front);
      if n.live && Connected(st, n.id) then Some(n.id) else Outermost(st, Shorter(nodes, front), front)
  }

  /** pop_front of the list, which must not be empty. */
  function PopNode(st: State, s: SigId, front: bool): Option<State> {
    if s !in st.sigs || st.sigs[s].nodes == [] then None
    else Some(st.(sigs := st.sigs[s := st.sigs[s].(nodes := Shorter(st.sigs[s].nodes, front))]))
  }

  /** pop_front_slot and pop_back_slot; None where an empty list is popped. Outside emissions the list is
      popped after the slot has been disconnected. */
  function Pop(st: State, s: SigId, front: bool): Option<State>
    requires s in st.sigs
    decreases |st.sigs[s].nodes|
  {
    var sig := st.sigs[s];
    if sig.nodes == [] then Some(st)
    else if sig.emitting > 0 then
      match Outermost(st, sig.nodes, front)
      case None => Some(st)
      case Some(c) =>
        var after := Disconnect(st, c);
        Some(after.(sigs := after.sigs[s := after.sigs[s].(pending := true)]))
    else
      var n := End(sig.nodes, front);
      if n.live && Connected(st, n.id) then PopNode(Disconnect(st, n.id), s, front)
      else Pop(PopNode(st, s, front).value, s, front)
  }

  /** The distinct trackables among a slot's arguments, in order: a second track is refused. */
  function TrackOnce(ts: seq<TrackId>): (r: seq<TrackId>)
    ensures Distinct(r) && forall t :: t in r <==> t in ts
  {
    if ts == [] then [] else
      var init := TrackOnce(ts[..|ts| - 1]);
      if ts[|ts| - 1] in init then init else init + [ts[|ts| - 1]]
  }

  /** bind: a new connection at the end of the list, tracked by its trackable arguments. */
  function Bind(st: State, s: SigId, ts: seq<TrackId>): State
    requires s in st.sigs && forall t :: t in ts ==> t in st.tracks
  {
    var c := st.next;
    var once := TrackOnce(ts);
    State(
      st.sigs[s := st.sigs[s].(nodes := st.sigs[s].nodes + [Node(c, true)])],
      st.conns[c := Conn(Some(s), once, s, once)],
      map t | t in st.tracks :: if t in once then st.tracks[t] + [c] else st.tracks[t],
      st.stack, c + 1)
  }

  /** The trackable destructor: every connection it lists is disconnected, then it is gone. */
  function Destroy(st: State, t: TrackId): State
    requires t in st.tracks
  {
    var after := DisconnectEach(st, st.tracks[t]);
    after.(tracks := after.tracks - {t})
  }

  /** Start of _emit. */
  function BeginEmit(st: State, s: SigId, front: bool): State
    requires s in st.sigs
  {
    st.(sigs := st.sigs[s := st.sigs[s].(emitting := st.sigs[s].emitting + 1)],
        stack := st.stack + [Frame(s, 0, front, false, [])])
  }

  /** clear_pending_erase. */
  function ClearPending(sig: Signal, conns: map<ConnId, Conn>): Signal {
    if sig.nodes == [] || !sig.pending then sig else sig.(nodes := KeepConnected(sig.nodes, conns), pending := false)
  }

  /** End of _emit. */
  function EndEmit(st: State): State
    requires st.stack != [] && Top(st).sig in st.sigs && st.sigs[Top(st).sig].emitting > 0
  {
    var s := Top(st).sig;
    var sig := st.sigs[s].(emitting := st.sigs[s].emitting - 1);
    st.(sigs := st.sigs[s := if sig.emitting == 0 then ClearPending(sig, st.conns) else sig], stack := st.stack[..|st.stack| - 1])
  }

  function Top(st: State): Frame
    requires st.stack != []
  {
    st.stack[|st.stack| - 1]
  }

  function SetTop(st: State, f: Frame): State
    requires st.stack != []
  {
    st.(stack := st.stack[|st.stack| - 1 := f])
  }

  /** One step of the loop in _emit, outside a slot. */
  function Advance(st: State): State
    requires st.stack != [] && Top(st).sig in st.sigs && st.sigs[Top(st).sig].emitting > 0
  {
    var f := Top(st);
    var nodes := st.sigs[f.sig].nodes;
    if f.pos >= |nodes| then EndEmit(st)
    else if nodes[f.pos].live && Connected(st, nodes[f.pos].id) then
      SetTop(st, f.(inCall := true, called := f.called + [nodes[f.pos].id]))
    else SetTop(st, f.(pos := f.pos + 1))
  }

  /** The slot being called returns. */
  function Return(st: State): State
    requires st.stack != [] && Top(st).sig in st.sigs && st.sigs[Top(st).sig].emitting > 0
  {
    var f := Top(st);
    if f.front then EndEmit(st) else SetTop(st, f.(pos := f.pos + 1, inCall := false))
  }

  // ---- Runs ----

  datatype Action =
    | DoNewSignal(s: SigId)
    | DoNewTrackable(t: TrackId)
    | DoBind(s: SigId, ts: seq<TrackId>)
    | DoDisconnect(c: ConnId)
    | DoDisconnectAll(s: SigId)
    | DoPop(s: SigId, front: bool)
    | DoDestroy(t: TrackId)
    | DoBeginEmit(s: SigId, front: bool)
    | DoAdvance
    | DoReturn

  /** Client code runs outside all emissions or inside the innermost slot. */
  predicate ClientRuns(st: State) {
    st.stack == [] || Top(st).inCall
  }

  predicate Enabled(st: State, a: Action) {
    match a
    case DoNewSignal(s) => ClientRuns(st) && s !in st.sigs
    case DoNewTrackable(t) => ClientRuns(st) && t !in st.tracks && forall c :: c in st.conns ==> t !in st.conns[c].bound
    case DoBind(s, ts) => ClientRuns(st) && s in st.sigs && forall t :: t in ts ==> t in st.tracks
    case DoDisconnect(c) => ClientRuns(st)
    case DoDisconnectAll(s) => ClientRuns(st) && s in st.sigs
    case DoPop(s, _) => ClientRuns(st) && s in st.sigs && (st.sigs[s].emitting > 0 || st.sigs[s].nodes == [])
    case DoDestroy(t) => ClientRuns(st) && t in st.tracks
    case DoBeginEmit(s, _) => ClientRuns(st) && s in st.sigs
    case DoAdvance => !ClientRuns(st) && Top(st).sig in st.sigs && st.sigs[Top(st).sig].emitting > 0
    case DoReturn => st.stack != [] && Top(st).inCall && Top(st).sig in st.sigs && st.sigs[Top(st).sig].emitting > 0
  }

  function Apply(st: State, a: Action): State
    requires Enabled(st, a)
  {
    match a
    case DoNewSignal(s) => st.(sigs := st.sigs[s := Signal([], 0, false)])
    case DoNewTrackable(t) => st.(tracks := st.tracks[t := []])
    case DoBind(s, ts) => Bind(st, s, ts)
    case DoDisconnect(c) => Disconnect(st, c)
    case DoDisconnectAll(s) => DisconnectAll(st, s)
    case DoPop(s, front) => Pop(st, s, front).value
    case DoDestroy(t) => Destroy(st, t)
    case DoBeginEmit(s, front) => BeginEmit(st, s, front)
    case DoAdvance => Advance(st)
    case DoReturn => Return(st)
  }

  const INITIAL := State(map[], map[], map[], [], 0)

  /** Every action of the run is enabled when its turn comes. */
  predicate Legal(st: State, run: seq<Action>)
    decreases |run|
  {
    run == [] || (Enabled(st, run[0]) && Legal(Apply(st, run[0]), run[1..]))
  }

  function Execute(st: State, run: seq<Action>): State
    requires Legal(st, run)
    decreases |run|
  {
    if run == [] then st else Execute(Apply(st, run[0]), run[1..])
  }
}
