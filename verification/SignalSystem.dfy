/** The operations of src/fssignal.cpp and p2engine/fssignal.hpp as they run: fields reassigned in
    place, loops over the lists. Each is proved equal to its action of the module Signals. */
module SignalSystem {
  import opened Signals
  import opened SignalInvariant
  import opened SignalPops
  import opened SignalRuns

  class System {
    var sigs: map<SigId, Signal>
    var conns: map<ConnId, Conn>
    var tracks: map<TrackId, seq<ConnId>>
    var stack: seq<Frame>
    var next: ConnId

    ghost function St(): State
      reads this
    {
      State(sigs, conns, tracks, stack, next)
    }

    constructor ()
      ensures St() == INITIAL && Inv(St())
    {
      sigs, conns, tracks, stack, next := map[], map[], map[], [], 0;
      new;
      InitialInv();
    }

    /** connection_base::disconnect. */
    method DisconnectConn(c: ConnId)
      requires Inv(St())
      modifies this
      ensures St() == Disconnect(old(St()), c) && Inv(St())
    {
      hide Inv, OnlyDisconnects, DropNode, ListOk, LinkOk, TrackOk, CountOk, FrameOk, InBindOrder, Forgets;
      DisconnectKeepsInv(St(), c);
      if c !in conns || conns[c].signal.None? {
        return;
      }
      ghost var st := St();
      ConnectedConn(st, c);
      DisconnectEffect(st, c);
      var sig, ts := conns[c].signal.value, conns[c].trackables;
      conns := conns[c := conns[c].(signal := None)];
      for i := 0 to |ts|
        invariant tracks == Untrack(st.tracks, ts[..i], c)
        invariant sigs == st.sigs && stack == st.stack && next == st.next
        invariant conns == st.conns[c := st.conns[c].(signal := None)]
      {
        ConnTracked(st, c, ts[i]);
        UntrackNext(st.tracks, ts, i, c);
        tracks := tracks[ts[i] := Erase(tracks[ts[i]], c)];
      }
      assert ts[..|ts|] == ts;
      conns := conns[c := conns[c].(trackables := [])];
      DisconnectWithoutCallback(sig, c);
    }

    /** signal_base_impl::disconnect_without_callback_connection. */
    method DisconnectWithoutCallback(sig: SigId, c: ConnId)
      requires sig in sigs && InBindOrder(sigs[sig].nodes)
      modifies this`sigs
      ensures sigs == old(sigs)[sig := DropNode(old(sigs)[sig], c)]
      ensures Forgets(old(sigs)[sig], sigs[sig], c)
    {
      DropNodeForgets(sigs[sig], c);
      hide Forgets, InBindOrder;
      var s := sigs[sig];
      if s.emitting > 0 {
        s := s.(nodes := ResetNode(s.nodes, c));
        s := s.(pending := true);
      } else {
        s := s.(nodes := EraseNode(s.nodes, c));
      }
      sigs := sigs[sig := s];
    }

    /** signal_base_impl::disconnect_all_slots. */
    method DisconnectAllSlots(s: SigId)
      requires Inv(St()) && s in sigs
      modifies this
      ensures St() == DisconnectAll(old(St()), s) && Inv(St())
    {
      DisconnectAllKeepsInv(St(), s);
      if sigs[s].nodes == [] {
        return;
      }
      hide Inv, Disconnect, ListOk, LinkOk, TrackOk, CountOk, FrameOk, ConnOk;
      MarkPending(St(), s);
      ghost var ids := Ids(sigs[s].nodes);
      if sigs[s].emitting == 0 {
        sigs := sigs[s := sigs[s].(pending := false)];
        ghost var marked := St();
        while sigs[s].nodes != []
          invariant Inv(St()) && s in sigs && sigs[s].emitting == 0
          invariant DisconnectEach(St(), Ids(sigs[s].nodes)) == DisconnectEach(marked, ids)
          decreases |sigs[s].nodes|
        {
          var conn := sigs[s].nodes[0];
          IdleNodesConnected(St(), s, conn);
          if !conn.live || conn.id !in conns || conns[conn.id].signal.None? {
            assert false;
          } else {
            FrontErased(St(), s);
            DisconnectConn(conn.id);
          }
        }
      } else {
        sigs := sigs[s := sigs[s].(pending := true)];
        ghost var marked := St();
        var n := |sigs[s].nodes|;
        assert ids[0..] == ids;
        for i := 0 to n
          invariant Inv(St()) && s in sigs && |sigs[s].nodes| == n && Ids(sigs[s].nodes) == ids && sigs[s].emitting > 0
          invariant DisconnectEach(St(), ids[i..]) == DisconnectEach(marked, ids)
        {
          var conn := sigs[s].nodes[i];
          assert ids[i] == conn.id && ids[i..][1..] == ids[i + 1..];
          ListedConn(St(), s, i);
          ResetIds(St(), s, conn.id);
          if conn.live && conn.id in conns && conns[conn.id].signal.Some? {
            DisconnectConn(conn.id);
          } else {
            NotConnectedStays(St(), conn.id);
          }
        }
      }
    }

    /** The loops of pop_front_slot and pop_back_slot outside emissions. */
    method PopIdle(s: SigId, front: bool) returns (defined: bool)
      requires Inv(St()) && s in sigs && sigs[s].emitting == 0 && sigs[s].nodes != []
      modifies this
      ensures defined == Pop(old(St()), s, front).Some? && (defined ==> St() == Pop(old(St()), s, front).value)
    {
      hide Inv, Disconnect, Pop, Forgets, InBindOrder;
      ghost var st := St();
      IdlePop(st, s, front);
      defined := true;
      var popped := false;
      while !popped && sigs[s].nodes != []
        invariant s in sigs && if popped then PopNode(Disconnect(st, End(st.sigs[s].nodes, front).id), s, front)
                                              == if defined then Some(St()) else Signals.None
                               else St() == st && defined
        decreases !popped
      {
        var conn := End(sigs[s].nodes, front);
        if conn.live && conn.id in conns && conns[conn.id].signal.Some? {
          DisconnectConn(conn.id);
          if sigs[s].nodes == [] {
            defined := false;
          } else {
            sigs := sigs[s := sigs[s].(nodes := Shorter(sigs[s].nodes, front))];
          }
          popped := true;
        } else {
          assert false;
        }
      }
    }

    /** signal_base_impl::pop_front_slot. It is not defined where an empty list is popped. */
    method PopFrontSlot(s: SigId) returns (defined: bool)
      requires Inv(St()) && s in sigs
      modifies this
      ensures defined == Pop(old(St()), s, true).Some? && (defined ==> St() == Pop(old(St()), s, true).value)
    {
      defined := true;
      if sigs[s].nodes == [] {
        return;
      }
      ghost var st, all := St(), sigs[s].nodes;
      hide Inv, Disconnect, Pop, Outermost, Forgets, InBindOrder;
      if sigs[s].emitting > 0 {
        PopIsDisconnect(st, s, true);
        var n := |sigs[s].nodes|;
        assert all[0..] == all;
        for i := 0 to n
          invariant St() == st && Outermost(st, all[i..], true) == Outermost(st, all, true)
        {
          var conn := sigs[s].nodes[i];
          OutermostFront(st, all, i);
          if conn.live && conn.id in conns && conns[conn.id].signal.Some? {
            PopPends(st, s, conn.id, true);
            DisconnectConn(conn.id);
            sigs := sigs[s := sigs[s].(pending := true)];
            break;
          }
        }
      } else {
        defined := PopIdle(s, true);
      }
    }

    /** signal_base_impl::pop_back_slot: the same from the other end. */
    method PopBackSlot(s: SigId) returns (defined: bool)
      requires Inv(St()) && s in sigs
      modifies this
      ensures defined == Pop(old(St()), s, false).Some? && (defined ==> St() == Pop(old(St()), s, false).value)
    {
      defined := true;
      if sigs[s].nodes == [] {
        return;
      }
      ghost var st, all := St(), sigs[s].nodes;
      hide Inv, Disconnect, Pop, Outermost, Forgets, InBindOrder;
      if sigs[s].emitting > 0 {
        PopIsDisconnect(st, s, false);
        var i := |sigs[s].nodes|;
        assert all[..i] == all;
        while i > 0
          invariant 0 <= i <= |all| && St() == st && Outermost(st, all[..i], false) == Outermost(st, all, false)
        {
          i := i - 1;
          var conn := sigs[s].nodes[i];
          OutermostBack(st, all, i);
          if conn.live && conn.id in conns && conns[conn.id].signal.Some? {
            PopPends(st, s, conn.id, false);
            sigs := sigs[s := sigs[s].(pending := true)];
            DisconnectConn(conn.id);
            break;
          }
        }
      } else {
        defined := PopIdle(s, false);
      }
    }

    /** signal_base_impl::clear_pending_erase. */
    method ClearPendingErase(s: SigId)
      requires s in sigs
      modifies this`sigs
      ensures sigs == old(sigs)[s := ClearPending(old(sigs)[s], conns)]
    {
      if sigs[s].nodes == [] || !sigs[s].pending {
        return;
      }
      hide KeepConnected;
      ghost var all, k := sigs[s].nodes, 0;
      KeepNone(all, conns);
      var nodes, itr := sigs[s].nodes, 0;
      while itr < |nodes|
        invariant 0 <= itr <= |nodes| && k <= |all| && sigs == old(sigs)
        invariant nodes[..itr] == KeepConnected(all[..k], conns) && nodes[itr..] == all[k..]
        decreases |all| - k
      {
        KeepNext(all, k, conns);
        StepOver(nodes, itr, all, k);
        if !nodes[itr].live || nodes[itr].id !in conns || conns[nodes[itr].id].signal.None? {
          nodes := nodes[..itr] + nodes[itr + 1..];
        } else {
          itr := itr + 1;
        }
        k := k + 1;
      }
      assert all[..k] == all && nodes[..itr] == nodes;
      sigs := sigs[s := sigs[s].(nodes := nodes)];
      sigs := sigs[s := sigs[s].(pending := false)];
    }

    /** signal_base::bind, with the trackables among the slot's arguments. */
    method BindSlot(s: SigId, ts: seq<TrackId>) returns (c: ConnId)
      requires Inv(St()) && s in sigs && forall t :: t in ts ==> t in tracks
      modifies this
      ensures c == old(next) && St() == Bind(old(St()), s, ts) && Inv(St()) && BindsOne(old(St()), St(), s, ts)
    {
      hide Inv, TrackOnce, Tracked, BindsOne;
      BindKeepsInv(St(), s, ts);
      ghost var st := St();
      c := next;
      next := next + 1;
      conns := conns[c := Conn(Some(s), [], s, TrackOnce(ts))];
      sigs := sigs[s := sigs[s].(nodes := sigs[s].nodes + [Node(c, true)])];
      TrackAll(ts, c);
      BindIsTracked(st, s, ts);
    }

    /** The check of each argument of bind. */
    method TrackAll(ts: seq<TrackId>, c: ConnId)
      requires c in conns && conns[c].trackables == [] && forall t :: t in ts ==> t in tracks
      modifies this`tracks, this`conns
      ensures conns == old(conns)[c := old(conns)[c].(trackables := TrackOnce(ts))]
      ensures tracks == Tracked(old(tracks), TrackOnce(ts), c)
    {
      hide TrackOnce, Tracked;
      TrackNone(tracks, ts, c);
      for i := 0 to |ts|
        invariant conns == old(conns)[c := old(conns)[c].(trackables := TrackOnce(ts[..i]))]
        invariant tracks == Tracked(old(tracks), TrackOnce(ts[..i]), c)
      {
        TrackStep(old(tracks), ts, i, c);
        Track(ts[i], c);
      }
      assert ts[..|ts|] == ts;
    }

    /** trackable::track with connection_base::track: refused if the trackable is there already. */
    method Track(t: TrackId, c: ConnId)
      requires t in tracks && c in conns
      modifies this`tracks, this`conns
      ensures conns == old(conns)[c := old(conns)[c].(trackables := Pushed(old(conns)[c].trackables, t))]
      ensures tracks == if t in old(conns)[c].trackables then old(tracks) else old(tracks)[t := old(tracks)[t] + [c]]
    {
      var ts := conns[c].trackables;
      for itr := 0 to |ts|
        invariant t !in ts[..itr]
      {
        if ts[itr] == t { return; }
      }
      assert ts[..|ts|] == ts;
      conns := conns[c := conns[c].(trackables := ts + [t])];
      tracks := tracks[t := tracks[t] + [c]];
    }

    /** trackable::~trackable. The loop ends because each round takes one connection off the list. */
    method DestroyTrackable(t: TrackId)
      requires Inv(St()) && t in tracks
      modifies this
      ensures St() == Destroy(old(St()), t) && Inv(St())
    {
      DestroyKeepsInv(St(), t);
      hide Inv, Disconnect, ListOk, LinkOk, TrackOk, CountOk, FrameOk, ConnOk;
      ghost var st := St();
      while tracks[t] != []
        invariant Inv(St()) && t in tracks
        invariant DisconnectEach(St(), tracks[t]) == DisconnectEach(st, st.tracks[t])
        decreases |tracks[t]|
      {
        FirstUntracked(St(), t);
        DisconnectConn(tracks[t][0]);
      }
      tracks := tracks - {t};
    }

    /** The start of _emit. */
    method StartEmit(s: SigId, front: bool)
      requires Inv(St()) && s in sigs && ClientRuns(St())
      modifies this
      ensures St() == BeginEmit(old(St()), s, front) && Inv(St())
    {
      BeginKeepsInv(St(), s, front);
      sigs := sigs[s := sigs[s].(emitting := sigs[s].emitting + 1)];
      stack := stack + [Frame(s, 0, front, false, [])];
    }

    /** The loop of _emit up to the next call of a slot or its end; calls is the slot called. */
    method Continue() returns (calls: Option<ConnId>)
      requires Inv(St()) && Enabled(St(), DoAdvance)
      modifies this
      ensures St() == Walk(old(St())) && Inv(St())
      ensures calls == NextCall(old(St()))
    {
      WalkKeepsInv(St());
      hide *;
      ghost var st := St();
      var s := stack[|stack| - 1].sig;
      while true
        invariant St() == st.(stack := stack) && Loops(st, St())
        invariant s == stack[|stack| - 1].sig
        decreases |sigs[s].nodes| - stack[|stack| - 1].pos
      {
        LoopHere(st, St());
        var f := stack[|stack| - 1];
        if f.pos >= |sigs[s].nodes| {
          LoopEnds(st, St(), f, sigs[s].nodes);
          FinishEmit();
          return Signals.None;
        }
        var n := sigs[s].nodes[f.pos];
        if n.live && n.id in conns && conns[n.id].signal.Some? {
          LoopCalls(st, St(), f, sigs[s].nodes);
          stack := stack[|stack| - 1 := f.(inCall := true, called := f.called + [n.id])];
          return Signals.Some(n.id);
        }
        LoopPasses(st, St(), f, sigs[s].nodes);
        stack := stack[|stack| - 1 := f.(pos := f.pos + 1)];
      }
    }

    /** The loop of _emit after a slot has returned: on to the next node, or out of the loop. */
    method SlotReturned()
      requires Inv(St()) && Enabled(St(), DoReturn)
      modifies this
      ensures St() == Return(old(St())) && Inv(St())
    {
      ReturnKeepsInv(St());
      hide Inv, EndEmit;
      var f := stack[|stack| - 1];
      if f.front {
        FinishEmit();
      } else {
        stack := stack[|stack| - 1 := f.(pos := f.pos + 1, inCall := false)];
      }
    }

    /** The end of _emit. */
    method FinishEmit()
      requires stack != [] && stack[|stack| - 1].sig in sigs && sigs[stack[|stack| - 1].sig].emitting > 0
      modifies this
      ensures St() == EndEmit(old(St()))
    {
      var s := stack[|stack| - 1].sig;
      sigs := sigs[s := sigs[s].(emitting := sigs[s].emitting - 1)];
      stack := stack[..|stack| - 1];
      if sigs[s].emitting == 0 {
        ClearPendingErase(s);
      }
    }
  }

  // ---- What the loops keep ----

  function Pushed(ts: seq<TrackId>, t: TrackId): seq<TrackId> {
    if t in ts then ts else ts + [t]
  }

  function Tracked(tracks: map<TrackId, seq<ConnId>>, ts: seq<TrackId>, c: ConnId): map<TrackId, seq<ConnId>> {
    map t | t in tracks :: if t in ts then tracks[t] + [c] else tracks[t]
  }

  lemma TrackNone(tracks: map<TrackId, seq<ConnId>>, ts: seq<TrackId>, c: ConnId)
    ensures TrackOnce(ts[..0]) == [] && Tracked(tracks, [], c) == tracks
  {
  }

  lemma TrackStep(tracks: map<TrackId, seq<ConnId>>, ts: seq<TrackId>, i: nat, c: ConnId)
    requires i < |ts| && ts[i] in tracks
    ensures TrackOnce(ts[..i + 1]) == Pushed(TrackOnce(ts[..i]), ts[i])
    ensures ts[i] in Tracked(tracks, TrackOnce(ts[..i]), c)
    ensures Tracked(tracks, TrackOnce(ts[..i + 1]), c) ==
      var before := Tracked(tracks, TrackOnce(ts[..i]), c);
      if ts[i] in TrackOnce(ts[..i]) then before else before[ts[i] := before[ts[i]] + [c]]
  {
    assert ts[..i + 1][..i] == ts[..i];
  }

  lemma BindIsTracked(st: State, s: SigId, ts: seq<TrackId>)
    requires s in st.sigs && forall t :: t in ts ==> t in st.tracks
    ensures Bind(st, s, ts) == State(
      st.sigs[s := st.sigs[s].(nodes := st.sigs[s].nodes + [Node(st.next, true)])],
      st.conns[st.next := Conn(Some(s), TrackOnce(ts), s, TrackOnce(ts))],
      Tracked(st.tracks, TrackOnce(ts), st.next), st.stack, st.next + 1)
  {
  }

  lemma ConnectedConn(st: State, c: ConnId)
    requires Inv(st) && Connected(st, c)
    ensures st.conns[c].signal.value in st.sigs && Distinct(st.conns[c].trackables)
    ensures InBindOrder(st.sigs[st.conns[c].signal.value].nodes)
  {
    assert ConnOk(st, c) && ListOk(st, st.conns[c].home);
  }

  lemma ConnTracked(st: State, c: ConnId, t: TrackId)
    requires Inv(st) && c in st.conns && t in st.conns[c].trackables
    ensures t in st.tracks
  {
    assert LinkOk(st, c, t);
  }

  lemma UntrackNext(tracks: map<TrackId, seq<ConnId>>, ts: seq<TrackId>, i: nat, c: ConnId)
    requires i < |ts| && Distinct(ts) && ts[i] in tracks
    ensures Untrack(tracks, ts[..i + 1], c) == Untrack(tracks, ts[..i], c)[ts[i] := Erase(Untrack(tracks, ts[..i], c)[ts[i]], c)]
  {
    hide Erase;
    assert ts[..i + 1] == ts[..i] + [ts[i]];
    assert ts[i] !in ts[..i];
  }

  /** Disconnecting the first slot of an idle list removes its first node. */
  lemma FrontErased(st: State, s: SigId)
    requires Inv(st) && s in st.sigs && st.sigs[s].emitting == 0 && st.sigs[s].nodes != []
    ensures var nodes := st.sigs[s].nodes;
            && s in Disconnect(st, nodes[0].id).sigs
            && Disconnect(st, nodes[0].id).sigs[s] == st.sigs[s].(nodes := nodes[1..])
            && DisconnectEach(st, Ids(nodes)) == DisconnectEach(Disconnect(st, nodes[0].id), Ids(nodes[1..]))
  {
    hide Inv;
    var nodes := st.sigs[s].nodes;
    IdleNodesConnected(st, s, nodes[0]);
    DisconnectEffect(st, nodes[0].id);
    assert Ids(nodes)[1..] == Ids(nodes[1..]);
  }

  lemma ListedConn(st: State, s: SigId, i: nat)
    requires Inv(st) && s in st.sigs && i < |st.sigs[s].nodes|
    ensures var n := st.sigs[s].nodes[i]; n.id in st.conns && (n.live <==> st.conns[n.id].signal.Some?)
  {
    assert ListOk(st, s);
  }

  lemma ResetIds(st: State, s: SigId, c: ConnId)
    requires Inv(st) && s in st.sigs && st.sigs[s].emitting > 0
    ensures s in Disconnect(st, c).sigs && Disconnect(st, c).sigs[s].emitting > 0
    ensures |Disconnect(st, c).sigs[s].nodes| == |st.sigs[s].nodes|
    ensures Ids(Disconnect(st, c).sigs[s].nodes) == Ids(st.sigs[s].nodes)
  {
    if Connected(st, c) {
      DisconnectEffect(st, c);
    }
  }

  lemma NotConnectedStays(st: State, c: ConnId)
    requires !Connected(st, c)
    ensures Disconnect(st, c) == st
  {
  }

  lemma KeepFirst(nodes: seq<Node>, conns: map<ConnId, Conn>)
    ensures nodes == [] ==> KeepConnected(nodes, conns) == []
    ensures nodes != [] ==>
      KeepConnected(nodes, conns) == (if Kept(nodes[0], conns) then [nodes[0]] else []) + KeepConnected(nodes[1..], conns)
  {
  }

  predicate Kept(n: Node, conns: map<ConnId, Conn>) {
    n.live && n.id in conns && conns[n.id].signal.Some?
  }

  lemma {:induction false} KeepAppend(nodes: seq<Node>, n: Node, conns: map<ConnId, Conn>)
    ensures KeepConnected(nodes + [n], conns) == KeepConnected(nodes, conns) + if Kept(n, conns) then [n] else []
  {
    hide KeepConnected, Kept;
    KeepFirst(nodes, conns);
    KeepFirst(nodes + [n], conns);
    if nodes == [] {
      KeepFirst([], conns);
      assert (nodes + [n])[1..] == [];
    } else {
      KeepAppend(nodes[1..], n, conns);
      assert (nodes + [n])[1..] == nodes[1..] + [n];
    }
  }

  lemma KeepNone(all: seq<Node>, conns: map<ConnId, Conn>)
    ensures KeepConnected(all[..0], conns) == []
  {
  }

  /** The node under the iterator is erased, or the iterator moves past it. */
  lemma StepOver(nodes: seq<Node>, itr: nat, all: seq<Node>, k: nat)
    requires itr < |nodes| && k <= |all| && nodes[itr..] == all[k..]
    ensures k < |all| && nodes[itr] == all[k]
    ensures nodes[..itr + 1] == nodes[..itr] + [all[k]] && nodes[itr + 1..] == all[k + 1..]
    ensures var r := nodes[..itr] + nodes[itr + 1..]; r[..itr] == nodes[..itr] && r[itr..] == all[k + 1..]
  {
    assert nodes[itr..][0] == all[k..][0];
    assert nodes[itr + 1..] == nodes[itr..][1..] && all[k + 1..] == all[k..][1..];
  }

  lemma KeepNext(all: seq<Node>, k: nat, conns: map<ConnId, Conn>)
    requires k < |all|
    ensures KeepConnected(all[..k + 1], conns) == KeepConnected(all[..k], conns)
      + if all[k].live && all[k].id in conns && conns[all[k].id].signal.Some? then [all[k]] else []
  {
    assert all[..k + 1] == all[..k] + [all[k]];
    KeepAppend(all[..k], all[k], conns);
  }

  /** The loop of _emit has come from st to now without calling a slot. */
  predicate Loops(st: State, now: State) {
    && Enabled(st, DoAdvance) && Enabled(now, DoAdvance)
    && Top(now).sig in now.sigs && now.sigs[Top(now).sig].emitting > 0
    && Walk(now) == Walk(st) && NextCall(now) == NextCall(st)
  }

  /** The innermost emission and the list it walks. */
  predicate Innermost(now: State, f: Frame, nodes: seq<Node>) {
    now.stack != [] && f == now.stack[|now.stack| - 1] && f.sig in now.sigs && nodes == now.sigs[f.sig].nodes
  }

  lemma LoopHere(st: State, now: State)
    requires Loops(st, now)
    ensures now.stack != []
    ensures var f := now.stack[|now.stack| - 1];
            f.sig in now.sigs && now.sigs[f.sig].emitting > 0 && Innermost(now, f, now.sigs[f.sig].nodes)
  {
  }

  lemma LoopEnds(st: State, now: State, f: Frame, nodes: seq<Node>)
    requires Loops(st, now) && Innermost(now, f, nodes) && f.pos >= |nodes|
    ensures Walk(st) == EndEmit(now) && NextCall(st) == Signals.None
  {
    hide EndEmit;
    WalkStep(now);
  }

  lemma LoopCalls(st: State, now: State, f: Frame, nodes: seq<Node>)
    requires Loops(st, now) && Innermost(now, f, nodes) && f.pos < |nodes|
    requires var n := nodes[f.pos]; n.live && n.id in now.conns && now.conns[n.id].signal.Some?
    ensures var id := nodes[f.pos].id;
            && Walk(st) == now.(stack := now.stack[|now.stack| - 1 := f.(inCall := true, called := f.called + [id])])
            && NextCall(st) == Signals.Some(id)
  {
    hide EndEmit;
    WalkStep(now);
  }

  lemma LoopPasses(st: State, now: State, f: Frame, nodes: seq<Node>)
    requires Loops(st, now) && Innermost(now, f, nodes) && f.pos < |nodes|
    requires var n := nodes[f.pos]; !(n.live && n.id in now.conns && now.conns[n.id].signal.Some?)
    ensures Loops(st, now.(stack := now.stack[|now.stack| - 1 := f.(pos := f.pos + 1)]))
  {
    hide EndEmit;
    WalkStep(now);
  }

  lemma FirstUntracked(st: State, t: TrackId)
    requires Inv(st) && t in st.tracks && st.tracks[t] != []
    ensures var c := st.tracks[t][0];
            && t in Disconnect(st, c).tracks && Disconnect(st, c).tracks[t] == st.tracks[t][1..]
            && DisconnectEach(st, st.tracks[t]) == DisconnectEach(Disconnect(st, c), st.tracks[t][1..])
  {
    var c := st.tracks[t][0];
    LinkedMeansConnected(st, c, t);
    DisconnectEffect(st, c);
  }
}
