/** Whole runs of signals: what every reachable state satisfies, what an emission calls, and that
    no list node goes away under an emission. */
module SignalRuns {
  import opened Signals
  import opened SignalInvariant
  import opened SignalPops

  lemma ApplyKeepsInv(st: State, a: Action)
    requires Inv(st) && Enabled(st, a)
    ensures Inv(Apply(st, a))
  {
    match a {
      case DoNewSignal(s) => NewSignalKeepsInv(st, s);
      case DoNewTrackable(t) => NewTrackableKeepsInv(st, t);
      case DoBind(s, ts) => BindKeepsInv(st, s, ts);
      case DoDisconnect(c) => DisconnectKeepsInv(st, c);
      case DoDisconnectAll(s) => DisconnectAllKeepsInv(st, s);
      case DoPop(s, front) => PopKeepsInv(st, s, front);
      case DoDestroy(t) => DestroyKeepsInv(st, t);
      case DoBeginEmit(s, front) => BeginKeepsInv(st, s, front);
      case DoAdvance => AdvanceKeepsInv(st);
      case DoReturn => ReturnKeepsInv(st);
    }
  }

  lemma {:induction false} NoFramesNoEmissions(st: State, stack: seq<Frame>, s: SigId)
    requires forall k :: 0 <= k < |stack| ==> stack[k].sig in st.sigs
    requires s !in st.sigs
    ensures Emissions(stack, s) == 0
  {
    if stack != [] {
      NoFramesNoEmissions(st, stack[..|stack| - 1], s);
    }
  }

  lemma NewSignalKeepsInv(st: State, s: SigId)
    requires Inv(st) && s !in st.sigs
    ensures Inv(st.(sigs := st.sigs[s := Signal([], 0, false)]))
  {
    var after := st.(sigs := st.sigs[s := Signal([], 0, false)]);
    forall k | 0 <= k < |st.stack| ensures FrameOk(after, st.stack[k]) { assert FrameOk(st, st.stack[k]); }
    NoFramesNoEmissions(st, st.stack, s);
    forall s' ensures ListOk(after, s') && CountOk(after, s') { assert ListOk(st, s') && CountOk(st, s'); }
    forall c ensures ConnOk(after, c) { assert ConnOk(st, c); }
    forall c, t ensures LinkOk(after, c, t) { assert LinkOk(st, c, t); }
    forall t ensures TrackOk(after, t) { assert TrackOk(st, t); }
  }

  lemma NewTrackableKeepsInv(st: State, t: TrackId)
    requires Inv(st) && t !in st.tracks && forall c :: c in st.conns ==> t !in st.conns[c].bound
    ensures Inv(st.(tracks := st.tracks[t := []]))
  {
    var after := st.(tracks := st.tracks[t := []]);
    forall k | 0 <= k < |st.stack| ensures FrameOk(after, st.stack[k]) { assert FrameOk(st, st.stack[k]); }
    forall s' ensures ListOk(after, s') && CountOk(after, s') { assert ListOk(st, s') && CountOk(st, s'); }
    forall c ensures ConnOk(after, c) { assert ConnOk(st, c); }
    forall c, t' ensures LinkOk(after, c, t') { assert LinkOk(st, c, t') && ConnOk(st, c); }
    forall t' ensures TrackOk(after, t') { assert TrackOk(st, t'); }
  }

  /** Every state of every run satisfies the invariant. */
  lemma {:induction false} RunsKeepInv(st: State, run: seq<Action>)
    requires Inv(st) && Legal(st, run)
    ensures Inv(Execute(st, run))
    decreases |run|
  {
    hide Inv, Apply, Enabled;
    if run != [] {
      ApplyKeepsInv(st, run[0]);
      RunsKeepInv(Apply(st, run[0]), run[1..]);
    }
  }

  lemma InitialInv()
    ensures Inv(INITIAL)
  {
  }

  /** The states client code can bring about. */
  ghost predicate Reachable(st: State) {
    exists run :: Legal(INITIAL, run) && Execute(INITIAL, run) == st
  }

  lemma ReachableInv(st: State)
    requires Reachable(st)
    ensures Inv(st)
  {
    InitialInv();
    var run :| Legal(INITIAL, run) && Execute(INITIAL, run) == st;
    RunsKeepInv(INITIAL, run);
  }

  // ---- What an emission calls ----

  /** The slot that the next step of the innermost emission calls. */
  function Calls(st: State): Option<ConnId>
    requires Enabled(st, DoAdvance)
  {
    var f := Top(st);
    var nodes := st.sigs[f.sig].nodes;
    if f.pos < |nodes| && nodes[f.pos].live && Connected(st, nodes[f.pos].id) then Some(nodes[f.pos].id) else None
  }

  /** A slot that is called is connected to the emitting signal, has not been called before by this
      emission, comes after all that have, and every trackable it was bound to is alive. */
  lemma CallIsSafe(st: State)
    requires Reachable(st) && Enabled(st, DoAdvance) && Calls(st).Some?
    ensures var f, c := Top(st), Calls(st).value;
            && Top(Advance(st)).called == f.called + [c] && Top(Advance(st)).inCall
            && c !in f.called && (forall d :: d in f.called ==> d < c)
            && Connected(st, c) && st.conns[c].home == f.sig
            && (forall t :: t in st.conns[c].bound ==> t in st.tracks)
  {
    ReachableInv(st);
    var f := Top(st);
    var n := st.sigs[f.sig].nodes[f.pos];
    assert FrameOk(st, f) && ListOk(st, f.sig) && ConnOk(st, n.id);
    CallFrame(st, f);
    forall t | t in st.conns[n.id].bound ensures t in st.tracks { BoundMeansLinked(st, n.id, t); }
    assert Ascending(f.called + [n.id]);
    forall d | d in f.called ensures d < n.id {
      var i :| 0 <= i < |f.called| && f.called[i] == d;
      assert (f.called + [n.id])[i] < (f.called + [n.id])[|f.called|];
    }
  }

  /** When an emission has walked the whole list it has called every slot that is connected by then,
      in bind order and each once: also those bound while it ran. */
  lemma EmissionCallsAll(st: State, c: ConnId)
    requires Reachable(st) && Enabled(st, DoAdvance) && Top(st).pos >= |st.sigs[Top(st).sig].nodes|
    ensures Ascending(Top(st).called)
    ensures Connected(st, c) && st.conns[c].home == Top(st).sig ==> c in Top(st).called
  {
    ReachableInv(st);
    var f := Top(st);
    assert FrameOk(st, f) && ConnOk(st, c);
    if Connected(st, c) && st.conns[c].home == f.sig {
      var i :| 0 <= i < |st.sigs[f.sig].nodes| && st.sigs[f.sig].nodes[i] == Node(c, true);
      assert i < Reached(f);
    }
  }

  /** An emission that is to call one slot has called exactly one when that slot returns, and every
      slot of the list before it is disconnected by then. */
  lemma FrontCallsOne(st: State, c: ConnId)
    requires Reachable(st) && Enabled(st, DoReturn) && Top(st).front
    ensures |Top(st).called| == 1 && Reached(Top(st)) <= |st.sigs[Top(st).sig].nodes|
    ensures Connected(st, c) && st.conns[c].home == Top(st).sig && c < Top(st).called[0] ==>
      !Has(st.sigs[Top(st).sig].nodes[..Reached(Top(st))], c)
  {
    ReachableInv(st);
    var f := Top(st);
    assert FrameOk(st, f) && ListOk(st, f.sig) && ConnOk(st, c);
    if Connected(st, c) && st.conns[c].home == f.sig && Has(st.sigs[f.sig].nodes[..Reached(f)], c) {
      var nodes := st.sigs[f.sig].nodes;
      var i :| 0 <= i < Reached(f) && nodes[..Reached(f)][i].id == c;
      assert nodes[i] in nodes && nodes[i].live;
    }
  }

  // ---- From one call to the next ----

  /** The loop of _emit from where it stands to its next call of a slot, or to its end. */
  function Walk(st: State): State
    requires Enabled(st, DoAdvance)
    decreases |st.sigs[Top(st).sig].nodes| - Top(st).pos
  {
    var f := Top(st);
    if f.pos < |st.sigs[f.sig].nodes| && Calls(st) == None then Walk(Advance(st)) else Advance(st)
  }

  /** The slot that the loop calls next, if it does not end before. */
  function NextCall(st: State): Option<ConnId>
    requires Enabled(st, DoAdvance)
    decreases |st.sigs[Top(st).sig].nodes| - Top(st).pos
  {
    var f := Top(st);
    if f.pos < |st.sigs[f.sig].nodes| && Calls(st) == None then NextCall(Advance(st)) else Calls(st)
  }

  lemma WalkStep(st: State)
    requires Enabled(st, DoAdvance)
    ensures var f := Top(st);
            if f.pos < |st.sigs[f.sig].nodes| && Calls(st) == None
            then Enabled(Advance(st), DoAdvance) && Walk(st) == Walk(Advance(st)) && NextCall(st) == NextCall(Advance(st))
            else Walk(st) == Advance(st) && NextCall(st) == Calls(st)
  {
  }

  lemma {:induction false} WalkKeepsInv(st: State)
    requires Inv(st) && Enabled(st, DoAdvance)
    ensures Inv(Walk(st))
    decreases |st.sigs[Top(st).sig].nodes| - Top(st).pos
  {
    hide Inv;
    WalkStep(st);
    AdvanceKeepsInv(st);
    if Top(st).pos < |st.sigs[Top(st).sig].nodes| && Calls(st) == None {
      WalkKeepsInv(Advance(st));
    }
  }

  /** The node of the innermost emission's list at which its loop calls a slot. */
  predicate CallsAt(st: State, i: nat)
    requires Enabled(st, DoAdvance)
  {
    var nodes := st.sigs[Top(st).sig].nodes;
    i < |nodes| && nodes[i].live && Connected(st, nodes[i].id)
  }

  /** The walk stops at the first connected slot from where it stands, and ends the emission exactly
      if there is none: it passes over disconnected slots only. */
  lemma {:induction false} WalkFindsFirst(st: State) returns (i: nat)
    requires Enabled(st, DoAdvance)
    ensures forall k: nat :: Top(st).pos <= k < i ==> !CallsAt(st, k)
    ensures NextCall(st) == None ==> forall k: nat :: Top(st).pos <= k ==> !CallsAt(st, k)
    ensures NextCall(st).Some? ==>
      && Top(st).pos <= i && CallsAt(st, i) && NextCall(st).value == st.sigs[Top(st).sig].nodes[i].id
      && Walk(st) == SetTop(st, Top(st).(pos := i, inCall := true, called := Top(st).called + [NextCall(st).value]))
    ensures NextCall(st) == None ==>
      i >= |st.sigs[Top(st).sig].nodes| && Walk(st) == EndEmit(SetTop(st, Top(st).(pos := i)))
    decreases |st.sigs[Top(st).sig].nodes| - Top(st).pos
  {
    hide EndEmit, Inv;
    WalkStep(st);
    i := Top(st).pos;
    if i < |st.sigs[Top(st).sig].nodes| && Calls(st) == None {
      i := WalkFindsFirst(Advance(st));
      SameCalls(st);
      if NextCall(st).Some? {
        ResetTop(st, Top(st).(pos := i, inCall := true, called := Top(st).called + [NextCall(st).value]));
      } else {
        ResetTop(st, Top(st).(pos := i));
      }
    } else {
      assert st.stack[|st.stack| - 1 := Top(st)] == st.stack;
    }
  }

  lemma SameCalls(st: State)
    requires Enabled(st, DoAdvance) && Calls(st) == None && Top(st).pos < |st.sigs[Top(st).sig].nodes|
    ensures !CallsAt(st, Top(st).pos) && Enabled(Advance(st), DoAdvance) && Top(Advance(st)) == Top(st).(pos := Top(st).pos + 1)
    ensures forall k: nat :: CallsAt(Advance(st), k) == CallsAt(st, k)
  {
  }

  lemma ResetTop(st: State, g: Frame)
    requires st.stack != []
    ensures SetTop(SetTop(st, Top(st).(pos := Top(st).pos + 1)), g) == SetTop(st, g)
  {
    var f := Top(st).(pos := Top(st).pos + 1);
    assert st.stack[|st.stack| - 1 := f][|st.stack| - 1 := g] == st.stack[|st.stack| - 1 := g];
  }

  /** The walk is a run of single steps, so what it reaches is reachable. */
  lemma {:induction false} WalkIsRun(st: State) returns (run: seq<Action>)
    requires Enabled(st, DoAdvance)
    ensures Legal(st, run) && Execute(st, run) == Walk(st) && forall a :: a in run ==> a == DoAdvance
    decreases |st.sigs[Top(st).sig].nodes| - Top(st).pos
  {
    hide EndEmit;
    WalkStep(st);
    run := [];
    if Top(st).pos < |st.sigs[Top(st).sig].nodes| && Calls(st) == None {
      run := WalkIsRun(Advance(st));
    } else {
      assert Legal(Advance(st), []) && Execute(Advance(st), []) == Advance(st);
    }
    var all := [DoAdvance] + run;
    assert all[1..] == run && all[0] == DoAdvance && Apply(st, DoAdvance) == Advance(st);
    run := all;
  }

  /** Outside all emissions every list holds connected slots only, and no erasure is pending. */
  lemma QuietIsClean(st: State, s: SigId)
    requires Reachable(st) && st.stack == [] && s in st.sigs
    ensures st.sigs[s].emitting == 0 && !st.sigs[s].pending
    ensures forall n :: n in st.sigs[s].nodes ==> n.live && Connected(st, n.id) && st.conns[n.id].home == s
  {
    ReachableInv(st);
    assert CountOk(st, s) && ListOk(st, s);
  }

  /** signal_base_impl::size. */
  function Size(st: State, nodes: seq<Node>): (n: nat)
    ensures n <= |nodes|
  {
    if nodes == [] then 0
    else (if nodes[0].live && Connected(st, nodes[0].id) then 1 else 0) + Size(st, nodes[1..])
  }

  lemma {:induction false} AllConnectedSize(st: State, nodes: seq<Node>)
    requires forall n :: n in nodes ==> n.live && Connected(st, n.id)
    ensures Size(st, nodes) == |nodes|
  {
    if nodes != [] {
      AllConnectedSize(st, nodes[1..]);
    }
  }

  /** The assertions in clear_pending_erase hold whenever it runs: with an empty list nothing is
      pending, and with nothing pending the list holds connected slots only. */
  lemma ClearPendingAsserts(st: State, s: SigId)
    requires Reachable(st) && s in st.sigs
    ensures st.sigs[s].nodes == [] ==> !st.sigs[s].pending
    ensures !st.sigs[s].pending ==> Size(st, st.sigs[s].nodes) == |st.sigs[s].nodes|
  {
    ReachableInv(st);
    assert CountOk(st, s) && ListOk(st, s);
    if !st.sigs[s].pending {
      AllConnectedSize(st, st.sigs[s].nodes);
    }
  }

  /** Whatever is still connected is bound to live trackables only, so destroying a trackable
      disconnects every slot bound to it for good. */
  lemma DeadTrackablesAreNotCalled(st: State, c: ConnId, t: TrackId)
    requires Reachable(st) && c in st.conns && t in st.conns[c].bound && t !in st.tracks
    ensures !Connected(st, c)
  {
    ReachableInv(st);
    assert ConnOk(st, c) && LinkOk(st, c, t);
  }

  // ---- Lists under emissions ----

  ghost predicate Emitting(st: State, s: SigId) {
    s in st.sigs && st.sigs[s].emitting > 0
  }

  /** While a signal is emitting, no action removes or reorders its nodes: it only appends. */
  lemma NodesStay(st: State, a: Action, s: SigId)
    requires Inv(st) && Enabled(st, a) && Emitting(st, s) && Emitting(Apply(st, a), s)
    ensures SameIds(st.sigs[s].nodes, Apply(st, a).sigs[s].nodes)
  {
    hide Inv, Disconnect, DisconnectEach, Pop;
    match a {
      case DoDisconnect(c) => DisconnectOnly(st, c);
      case DoDisconnectAll(s') => DisconnectAllKeepsInv(st, s');
      case DoPop(s', front) => PopOnly(st, s', front);
      case DoDestroy(t) => DestroyKeepsInv(st, t);
      case _ =>
    }
  }

  /** Every state the run passes through, first and last included, emits s. */
  predicate EmittingThroughout(st: State, run: seq<Action>, s: SigId)
    requires Legal(st, run)
    decreases |run|
  {
    s in st.sigs && st.sigs[s].emitting > 0 &&
    (run != [] ==> EmittingThroughout(Apply(st, run[0]), run[1..], s))
  }

  /** So over any stretch of a run during which a signal is emitting, iterators into its list
      stay valid and keep their place. */
  lemma {:induction false} NodesStayThroughout(st: State, run: seq<Action>, s: SigId)
    requires Inv(st) && Legal(st, run) && EmittingThroughout(st, run, s)
    ensures s in Execute(st, run).sigs && SameIds(st.sigs[s].nodes, Execute(st, run).sigs[s].nodes)
    decreases |run|
  {
    hide Inv, Apply, Enabled;
    if run != [] {
      NodesStay(st, run[0], s);
      ApplyKeepsInv(st, run[0]);
      NodesStayThroughout(Apply(st, run[0]), run[1..], s);
    }
  }

  // ---- Emissions from their start ----

  /** Every state the run passes through, first and last included, has an emission at depth `k`. */
  predicate Lasts(st: State, run: seq<Action>, k: nat)
    requires Legal(st, run)
    decreases |run|
  {
    |st.stack| > k && (run != [] ==> Lasts(Apply(st, run[0]), run[1..], k))
  }

  /** The emission at depth `k` is for this signal and of this kind, and those around it are as they were. */
  ghost predicate EmissionAt(st: State, around: seq<Frame>, s: SigId, front: bool) {
    |st.stack| > |around| && st.stack[..|around|] == around
    && st.stack[|around|].sig == s && st.stack[|around|].front == front
  }

  lemma EmissionStays(st: State, a: Action, around: seq<Frame>, s: SigId, front: bool)
    requires Inv(st) && Enabled(st, a) && EmissionAt(st, around, s, front) && |Apply(st, a).stack| > |around|
    ensures EmissionAt(Apply(st, a), around, s, front)
  {
    hide Inv, Disconnect, DisconnectEach, Pop, ClearPending;
    match a {
      case DoDisconnect(c) => DisconnectOnly(st, c);
      case DoDisconnectAll(s') => DisconnectAllKeepsInv(st, s');
      case DoPop(s', front') => PopOnly(st, s', front');
      case DoDestroy(t) => DestroyKeepsInv(st, t);
      case _ =>
    }
  }

  lemma {:induction false} EmissionLasts(st: State, run: seq<Action>, around: seq<Frame>, s: SigId, front: bool)
    requires Inv(st) && EmissionAt(st, around, s, front) && Legal(st, run) && Lasts(st, run, |around|)
    ensures Inv(Execute(st, run)) && EmissionAt(Execute(st, run), around, s, front)
    decreases |run|
  {
    hide Inv, Apply, Enabled, EmissionAt;
    if run != [] {
      LastsOn(st, run, |around|);
      EmissionStays(st, run[0], around, s, front);
      ApplyKeepsInv(st, run[0]);
      EmissionLasts(Apply(st, run[0]), run[1..], around, s, front);
    }
  }

  lemma LastsOn(st: State, run: seq<Action>, k: nat)
    requires Legal(st, run) && run != [] && Lasts(st, run, k)
    ensures Lasts(Apply(st, run[0]), run[1..], k) && |Apply(st, run[0]).stack| > k
  {
    hide Apply, Enabled;
  }

  /** As long as an emission has not ended, whatever runs in its slots, it is for the signal and of the
      kind it was begun with. One to the first slot has called one slot at most. */
  lemma EmissionFromStart(st: State, s: SigId, front: bool, run: seq<Action>)
    requires Reachable(st) && Enabled(st, DoBeginEmit(s, front))
    requires Legal(Apply(st, DoBeginEmit(s, front)), run)
    requires Lasts(Apply(st, DoBeginEmit(s, front)), run, |st.stack|)
    ensures var now := Execute(Apply(st, DoBeginEmit(s, front)), run);
            && Inv(now) && EmissionAt(now, st.stack, s, front)
            && (front ==> |now.stack[|st.stack|].called| <= 1)
  {
    var begun := Apply(st, DoBeginEmit(s, front));
    ReachableInv(st);
    ApplyKeepsInv(st, DoBeginEmit(s, front));
    assert begun.stack[..|st.stack|] == st.stack;
    hide Inv, Apply, Enabled;
    EmissionLasts(begun, run, st.stack, s, front);
    FrameHere(Execute(begun, run), |st.stack|);
  }

  lemma FrameHere(st: State, k: nat)
    requires Inv(st) && k < |st.stack|
    ensures FrameOk(st, st.stack[k])
  {
  }

  /** An action ends the innermost emission only when it has walked its list, or when the one slot of an
      emission to the first slot returns, and then it does. */
  lemma EmissionEnds(st: State, s: SigId, front: bool, run: seq<Action>, a: Action)
    requires Reachable(st) && Enabled(st, DoBeginEmit(s, front))
    requires Legal(Apply(st, DoBeginEmit(s, front)), run)
    requires Lasts(Apply(st, DoBeginEmit(s, front)), run, |st.stack|)
    requires var now := Execute(Apply(st, DoBeginEmit(s, front)), run);
             |now.stack| == |st.stack| + 1 && Enabled(now, a)
    ensures var now := Execute(Apply(st, DoBeginEmit(s, front)), run);
            var f := now.stack[|st.stack|];
            && f.sig in now.sigs
            && (|Apply(now, a).stack| == |st.stack| <==>
                  (a == DoReturn && front) || (a == DoAdvance && f.pos >= |now.sigs[f.sig].nodes|))
            && (|Apply(now, a).stack| == |st.stack| ==> Apply(now, a).stack == st.stack)
            && (a == DoReturn && front ==> |f.called| == 1)
  {
    EmissionFromStart(st, s, front, run);
    var now := Execute(Apply(st, DoBeginEmit(s, front)), run);
    hide Execute, Legal, Lasts, Reachable;
    EndsHere(now, st.stack, s, front, a);
  }

  lemma EndsHere(now: State, around: seq<Frame>, s: SigId, front: bool, a: Action)
    requires Inv(now) && EmissionAt(now, around, s, front) && |now.stack| == |around| + 1 && Enabled(now, a)
    ensures var f := now.stack[|around|];
            && f.sig in now.sigs
            && (|Apply(now, a).stack| == |around| <==>
                  (a == DoReturn && front) || (a == DoAdvance && f.pos >= |now.sigs[f.sig].nodes|))
            && (|Apply(now, a).stack| == |around| ==> Apply(now, a).stack == around)
            && (a == DoReturn && front ==> |f.called| == 1)
  {
    FrameHere(now, |around|);
    hide Inv, Disconnect, DisconnectEach, Pop, ClearPending;
    match a {
      case DoDisconnect(c) => DisconnectOnly(now, c);
      case DoDisconnectAll(s') => DisconnectAllKeepsInv(now, s');
      case DoPop(s', front') => PopOnly(now, s', front');
      case DoDestroy(t) => DestroyKeepsInv(now, t);
      case _ =>
    }
  }

  // ---- Pops outside emissions ----

  const FIRST_SLOT := [DoNewSignal(0), DoBind(0, [])]
  const SECOND_SLOT := FIRST_SLOT + [DoBind(0, [])]

  lemma ThenOne(st: State, run: seq<Action>, a: Action)
    requires Legal(st, run) && Enabled(Execute(st, run), a)
    ensures Legal(st, run + [a]) && Execute(st, run + [a]) == Apply(Execute(st, run), a)
    decreases |run|
  {
    if run == [] {
      assert [a][1..] == [];
    } else {
      assert (run + [a])[1..] == run[1..] + [a];
      ThenOne(Apply(st, run[0]), run[1..], a);
    }
  }

  lemma FirstSlot()
    ensures Legal(INITIAL, FIRST_SLOT)
    ensures var st := Execute(INITIAL, FIRST_SLOT);
            st.stack == [] && st.next == 1 && st.sigs == map[0 := Signal([Node(0, true)], 0, false)]
  {
    hide Legal, Execute, Apply, Enabled;
    var none: seq<Action> := [];
    NoRun(INITIAL);
    InitialBinds();
    ThenOne(INITIAL, none, DoNewSignal(0));
    assert none + [DoNewSignal(0)] == [DoNewSignal(0)];
    ThenOne(INITIAL, [DoNewSignal(0)], DoBind(0, []));
    assert FIRST_SLOT == [DoNewSignal(0)] + [DoBind(0, [])];
  }

  lemma NoRun(st: State)
    ensures Legal(st, []) && Execute(st, []) == st
  {
  }

  lemma InitialBinds()
    ensures Enabled(INITIAL, DoNewSignal(0)) && Enabled(Apply(INITIAL, DoNewSignal(0)), DoBind(0, []))
    ensures var st := Apply(Apply(INITIAL, DoNewSignal(0)), DoBind(0, []));
            st.stack == [] && st.next == 1 && st.sigs == map[0 := Signal([Node(0, true)], 0, false)]
  {
    var empty, st := Apply(INITIAL, DoNewSignal(0)), Apply(Apply(INITIAL, DoNewSignal(0)), DoBind(0, []));
    assert empty.sigs[0].nodes == [];
    assert st.sigs[0] == Signal([Node(0, true)], 0, false);
  }

  lemma SecondSlot()
    ensures Legal(INITIAL, SECOND_SLOT)
    ensures var st := Execute(INITIAL, SECOND_SLOT);
            st.stack == [] && st.sigs == map[0 := Signal([Node(0, true), Node(1, true)], 0, false)]
  {
    FirstSlot();
    hide Legal, Execute;
    ThenOne(INITIAL, FIRST_SLOT, DoBind(0, []));
    assert Execute(INITIAL, SECOND_SLOT).sigs[0] == Signal([Node(0, true), Node(1, true)], 0, false);
  }

  /** A slot is popped outside emissions. If it is the only one, an empty list is popped; if there is
      another, that one is no longer in the list, yet counts as connected. */
  lemma PopLosesASlot()
    ensures Legal(INITIAL, FIRST_SLOT) && 0 in Execute(INITIAL, FIRST_SLOT).sigs && Pop(Execute(INITIAL, FIRST_SLOT), 0, true) == None
    ensures Legal(INITIAL, SECOND_SLOT) && 0 in Execute(INITIAL, SECOND_SLOT).sigs
    ensures var after := Pop(Execute(INITIAL, SECOND_SLOT), 0, true);
            after.Some? && 0 in after.value.sigs && after.value.sigs[0].nodes == [] && Connected(after.value, 1)
  {
    hide *;
    FirstSlot();
    SecondSlot();
    InitialInv();
    RunsKeepInv(INITIAL, FIRST_SLOT);
    RunsKeepInv(INITIAL, SECOND_SLOT);
    PopKeepsInvIff(Execute(INITIAL, FIRST_SLOT), 0, true);
    PopOfTwo(Execute(INITIAL, SECOND_SLOT));
  }

  lemma PopOfTwo(st: State)
    requires Inv(st) && st.sigs == map[0 := Signal([Node(0, true), Node(1, true)], 0, false)]
    ensures var after := Pop(st, 0, true);
            after.Some? && 0 in after.value.sigs && after.value.sigs[0].nodes == [] && Connected(after.value, 1)
  {
    IdlePop(st, 0, true);
    SecondIsLost(st, 0, true);
    hide Pop, Disconnect, Inv;
  }

  // ---- Two slots, called in both ways ----

  /** The state with two slots, in an emission. */
  ghost predicate TwoSlots(st: State, emitting: nat, f: seq<Frame>) {
    && st.sigs == map[0 := Signal([Node(0, true), Node(1, true)], emitting, false)]
    && st.stack == f && Connected(st, 0) && Connected(st, 1)
  }

  lemma TwoSlotsReady()
    ensures Legal(INITIAL, SECOND_SLOT) && TwoSlots(Execute(INITIAL, SECOND_SLOT), 0, [])
  {
    SecondSlot();
    InitialInv();
    RunsKeepInv(INITIAL, SECOND_SLOT);
    var st := Execute(INITIAL, SECOND_SLOT);
    hide Legal, Execute, Inv;
    TwoConnected(st);
  }

  lemma TwoConnected(st: State)
    requires Inv(st) && st.sigs == map[0 := Signal([Node(0, true), Node(1, true)], 0, false)]
    ensures Connected(st, 0) && Connected(st, 1)
  {
    IdleNodesConnected(st, 0, Node(0, true));
    IdleNodesConnected(st, 0, Node(1, true));
  }

  lemma TwoSlotsBegin(st: State, front: bool)
    requires TwoSlots(st, 0, [])
    ensures Enabled(st, DoBeginEmit(0, front)) && TwoSlots(Apply(st, DoBeginEmit(0, front)), 1, [Frame(0, 0, front, false, [])])
  {
  }

  lemma TwoSlotsAdvance(st: State, f: Frame)
    requires TwoSlots(st, 1, [f]) && f.sig == 0 && !f.inCall
    ensures Enabled(st, DoAdvance)
    ensures f.pos < 2 ==> TwoSlots(Apply(st, DoAdvance), 1, [f.(inCall := true, called := f.called + [f.pos])])
    ensures f.pos >= 2 ==> TwoSlots(Apply(st, DoAdvance), 0, [])
  {
  }

  lemma TwoSlotsReturn(st: State, f: Frame)
    requires TwoSlots(st, 1, [f]) && f.sig == 0 && f.inCall
    ensures Enabled(st, DoReturn)
    ensures f.front ==> TwoSlots(Apply(st, DoReturn), 0, [])
    ensures !f.front ==> TwoSlots(Apply(st, DoReturn), 1, [f.(pos := f.pos + 1, inCall := false)])
  {
  }

  /** With two slots bound, an emission to the first slot calls slot 0 and ends when it returns. */
  lemma FirstSlotOnly()
    ensures var run := SECOND_SLOT + [DoBeginEmit(0, true)] + [DoAdvance];
            && Legal(INITIAL, run) && Execute(INITIAL, run).stack == [Frame(0, 0, true, true, [0])]
            && Legal(INITIAL, run + [DoReturn]) && Execute(INITIAL, run + [DoReturn]).stack == []
  {
    hide Legal, Execute, Enabled, Apply;
    TwoSlotsReady();
    var st := Execute(INITIAL, SECOND_SLOT);
    TwoSlotsBegin(st, true);
    ThenOne(INITIAL, SECOND_SLOT, DoBeginEmit(0, true));
    var begun := SECOND_SLOT + [DoBeginEmit(0, true)];
    var none: seq<ConnId> := [];
    assert none + [0] == [0];
    TwoSlotsAdvance(Execute(INITIAL, begun), Frame(0, 0, true, false, none));
    ThenOne(INITIAL, begun, DoAdvance);
    TwoSlotsReturn(Execute(INITIAL, begun + [DoAdvance]), Frame(0, 0, true, true, [0]));
    ThenOne(INITIAL, begun + [DoAdvance], DoReturn);
  }

  /** An emission to all calls slot 0 and then slot 1, and ends behind the list. */
  lemma BothSlots()
    ensures var run := SECOND_SLOT + [DoBeginEmit(0, false)] + [DoAdvance] + [DoReturn] + [DoAdvance] + [DoReturn];
            && Legal(INITIAL, run) && Execute(INITIAL, run).stack == [Frame(0, 2, false, false, [0, 1])]
            && Legal(INITIAL, run + [DoAdvance]) && Execute(INITIAL, run + [DoAdvance]).stack == []
  {
    hide Legal, Execute, Enabled, Apply;
    TwoSlotsReady();
    var r0 := SECOND_SLOT + [DoBeginEmit(0, false)];
    TwoSlotsBegin(Execute(INITIAL, SECOND_SLOT), false);
    ThenOne(INITIAL, SECOND_SLOT, DoBeginEmit(0, false));
    var none: seq<ConnId> := [];
    assert none + [0] == [0];
    TwoSlotsAdvance(Execute(INITIAL, r0), Frame(0, 0, false, false, none));
    ThenOne(INITIAL, r0, DoAdvance);
    TwoSlotsReturn(Execute(INITIAL, r0 + [DoAdvance]), Frame(0, 0, false, true, [0]));
    ThenOne(INITIAL, r0 + [DoAdvance], DoReturn);
    var r1 := r0 + [DoAdvance] + [DoReturn];
    TwoSlotsAdvance(Execute(INITIAL, r1), Frame(0, 1, false, false, [0]));
    ThenOne(INITIAL, r1, DoAdvance);
    assert [0] + [1] == [0, 1];
    TwoSlotsReturn(Execute(INITIAL, r1 + [DoAdvance]), Frame(0, 1, false, true, [0, 1]));
    ThenOne(INITIAL, r1 + [DoAdvance], DoReturn);
    TwoSlotsAdvance(Execute(INITIAL, r1 + [DoAdvance] + [DoReturn]), Frame(0, 2, false, false, [0, 1]));
    ThenOne(INITIAL, r1 + [DoAdvance] + [DoReturn], DoAdvance);
  }

  // ---- Disconnection is for good ----

  lemma ApplyLater(st: State, a: Action)
    requires Inv(st) && Enabled(st, a)
    ensures Later(st, Apply(st, a))
  {
    hide Inv, Disconnect, DisconnectEach, DisconnectAll, Pop, Bind;
    match a {
      case DoBind(s, ts) => BindLater(st, s, ts);
      case DoDisconnect(c) => DisconnectOnly(st, c);
      case DoDisconnectAll(s) => DisconnectAllKeepsInv(st, s);
      case DoPop(s', front) => PopOnly(st, s', front);
      case DoDestroy(t) => DestroyKeepsInv(st, t);
      case _ =>
    }
  }

  lemma BindLater(st: State, s: SigId, ts: seq<TrackId>)
    requires Inv(st) && s in st.sigs && forall t :: t in ts ==> t in st.tracks
    ensures Later(st, Bind(st, s, ts))
  {
    assert ConnOk(st, st.next);
  }

  lemma {:induction false} RunsLater(st: State, run: seq<Action>)
    requires Inv(st) && Legal(st, run)
    ensures Later(st, Execute(st, run))
    decreases |run|
  {
    hide Inv, Apply, Enabled;
    if run != [] {
      ApplyLater(st, run[0]);
      ApplyKeepsInv(st, run[0]);
      RunsLater(Apply(st, run[0]), run[1..]);
    }
  }

  /** A slot that is disconnected is never called again by any emission of the rest of the run. */
  lemma DisconnectedIsNeverCalled(st: State, run: seq<Action>, c: ConnId)
    requires Reachable(st) && c in st.conns && !Connected(st, c) && Legal(st, run)
    ensures !Connected(Execute(st, run), c)
    ensures Enabled(Execute(st, run), DoAdvance) ==> Calls(Execute(st, run)) != Some(c)
  {
    ReachableInv(st);
    RunsLater(st, run);
  }
}
