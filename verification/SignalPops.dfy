/** pop_front_slot and pop_back_slot: during an emission they disconnect one slot, and outside one they
    pop the list once too often. */
module SignalPops {
  import opened Signals
  import opened SignalInvariant

  /** A slot of the signal that is still connected. */
  predicate Bound(st: State, s: SigId, c: ConnId) {
    Connected(st, c) && st.conns[c].home == s
  }

  lemma {:induction false} OutermostIsListed(st: State, nodes: seq<Node>, front: bool)
    ensures Outermost(st, nodes, front) == None ==> forall n :: n in nodes ==> !(n.live && Connected(st, n.id))
    ensures Outermost(st, nodes, front).Some? ==>
      var c := Outermost(st, nodes, front).value; Connected(st, c) && Node(c, true) in nodes
    decreases |nodes|
  {
    if nodes != [] {
      OutermostIsListed(st, Shorter(nodes, front), front);
      assert nodes == if front then [End(nodes, front)] + Shorter(nodes, front) else Shorter(nodes, front) + [End(nodes, front)];
    }
  }

  /** One node of the search from the front, and from the back. */
  lemma OutermostFront(st: State, nodes: seq<Node>, i: nat)
    requires i < |nodes|
    ensures Outermost(st, nodes[i..], true)
            == if nodes[i].live && Connected(st, nodes[i].id) then Some(nodes[i].id) else Outermost(st, nodes[i + 1..], true)
    ensures Outermost(st, nodes[|nodes|..], true) == None
  {
    assert nodes[i..][1..] == nodes[i + 1..];
  }

  lemma OutermostBack(st: State, nodes: seq<Node>, i: nat)
    requires i < |nodes|
    ensures Outermost(st, nodes[..i + 1], false)
            == if nodes[i].live && Connected(st, nodes[i].id) then Some(nodes[i].id) else Outermost(st, nodes[..i], false)
    ensures Outermost(st, nodes[..0], false) == None
  {
    assert nodes[..i + 1][..i] == nodes[..i];
  }

  /** In bind order the outermost connected slot is the oldest or the newest. */
  lemma {:induction false} OutermostIsExtreme(st: State, nodes: seq<Node>, front: bool, d: ConnId)
    requires InBindOrder(nodes) && Node(d, true) in nodes && Connected(st, d)
    ensures Outermost(st, nodes, front).Some?
    ensures if front then Outermost(st, nodes, front).value <= d else d <= Outermost(st, nodes, front).value
    decreases |nodes|
  {
    var n, rest := End(nodes, front), Shorter(nodes, front);
    if !(n.live && Connected(st, n.id)) {
      assert Node(d, true) in rest;
      assert InBindOrder(rest);
      OutermostIsExtreme(st, rest, front, d);
    }
  }

  /** During an emission a pop is one disconnect. */
  lemma PopIsDisconnect(st: State, s: SigId, front: bool)
    requires Inv(st) && s in st.sigs && (st.sigs[s].emitting > 0 || st.sigs[s].nodes == [])
    ensures Pop(st, s, front) == Some(match Outermost(st, st.sigs[s].nodes, front) case None => st case Some(c) => Disconnect(st, c))
  {
    var c := Outermost(st, st.sigs[s].nodes, front);
    OutermostIsListed(st, st.sigs[s].nodes, front);
    if c.Some? {
      ListedHome(st, s, c.value);
      DisconnectPends(st, s, c.value);
      hide Disconnect, Inv;
    }
  }

  lemma DisconnectPends(st: State, s: SigId, c: ConnId)
    requires Inv(st) && Bound(st, s, c) && s in st.sigs && st.sigs[s].emitting > 0
    ensures var after := Disconnect(st, c);
            s in after.sigs && after.(sigs := after.sigs[s := after.sigs[s].(pending := true)]) == after
  {
    DisconnectEffect(st, c);
    var sigs := Disconnect(st, c).sigs;
    assert sigs[s].pending && sigs[s].(pending := true) == sigs[s];
    assert sigs[s := sigs[s]] == sigs;
  }

  /** The pending mark may be set before or after the disconnect. */
  lemma PopPends(st: State, s: SigId, c: ConnId, front: bool)
    requires Inv(st) && s in st.sigs && st.sigs[s].emitting > 0 && Outermost(st, st.sigs[s].nodes, front) == Some(c)
    ensures var marked, after := st.(sigs := st.sigs[s := st.sigs[s].(pending := true)]), Disconnect(st, c);
            && s in after.sigs && after.(sigs := after.sigs[s := after.sigs[s].(pending := true)]) == after
            && Inv(marked) && Disconnect(marked, c) == after
  {
    OutermostIsListed(st, st.sigs[s].nodes, front);
    ListedHome(st, s, c);
    DisconnectPends(st, s, c);
    MarkPending(st, s);
    var marked, after := st.(sigs := st.sigs[s := st.sigs[s].(pending := true)]), Disconnect(st, c);
    assert Disconnect(marked, c).sigs == after.sigs;
  }

  lemma ListedHome(st: State, s: SigId, c: ConnId)
    requires Inv(st) && s in st.sigs && Node(c, true) in st.sigs[s].nodes
    ensures Bound(st, s, c)
  {
    assert ListOk(st, s);
  }

  lemma PopKeepsInv(st: State, s: SigId, front: bool)
    requires Inv(st) && s in st.sigs && (st.sigs[s].emitting > 0 || st.sigs[s].nodes == [])
    ensures Pop(st, s, front).Some? && Inv(Pop(st, s, front).value)
  {
    hide Inv, Disconnect, Pop;
    PopIsDisconnect(st, s, front);
    var c := Outermost(st, st.sigs[s].nodes, front);
    if c.Some? {
      DisconnectKeepsInv(st, c.value);
    }
  }

  lemma PopOnly(st: State, s: SigId, front: bool)
    requires Inv(st) && s in st.sigs && (st.sigs[s].emitting > 0 || st.sigs[s].nodes == [])
    ensures Pop(st, s, front).Some?
    ensures OnlyDisconnects(st, Pop(st, s, front).value,
                            match Outermost(st, st.sigs[s].nodes, front) case None => [] case Some(c) => [c])
  {
    hide Inv, Disconnect, Pop;
    PopIsDisconnect(st, s, front);
    var c := Outermost(st, st.sigs[s].nodes, front);
    if c.Some? {
      DisconnectOnly(st, c.value);
    }
  }

  /** During an emission a pop disconnects the oldest or the newest slot that is connected, and no other;
      with none it changes nothing. */
  lemma PopDisconnectsOne(st: State, s: SigId, front: bool)
    requires Inv(st) && s in st.sigs && st.sigs[s].emitting > 0
    ensures Pop(st, s, front).Some?
    ensures (forall d :: !Bound(st, s, d)) ==> Pop(st, s, front).value == st
    ensures forall d0 :: Bound(st, s, d0) ==>
      exists c :: Bound(st, s, c) && (forall d :: Bound(st, s, d) ==> if front then c <= d else d <= c)
        && forall d :: Connected(Pop(st, s, front).value, d) <==> Connected(st, d) && d != c
  {
    var nodes := st.sigs[s].nodes;
    PopIsDisconnect(st, s, front);
    PopOnly(st, s, front);
    OutermostIsListed(st, nodes, front);
    hide Inv, Disconnect, Pop, Outermost;
    InOrderHere(st, s);
    forall d: ConnId | Bound(st, s, d)
      ensures Outermost(st, nodes, front).Some?
      ensures if front then Outermost(st, nodes, front).value <= d else d <= Outermost(st, nodes, front).value
    {
      ConnectedIsListed(st, d);
      OutermostIsExtreme(st, nodes, front, d);
    }
    if Outermost(st, nodes, front).Some? {
      var c := Outermost(st, nodes, front).value;
      ListedHome(st, s, c);
      assert forall d :: Connected(Pop(st, s, front).value, d) <==> Connected(st, d) && d != c;
    }
  }

  lemma InOrderHere(st: State, s: SigId)
    requires Inv(st) && s in st.sigs
    ensures InBindOrder(st.sigs[s].nodes)
  {
    assert ListOk(st, s);
  }

  /** A pop keeps the invariant during an emission and on an empty list, and nowhere else: outside
      emissions the list is popped again behind the slot that was disconnected. */
  lemma PopKeepsInvIff(st: State, s: SigId, front: bool)
    requires Inv(st) && s in st.sigs
    ensures Pop(st, s, front).Some? && Inv(Pop(st, s, front).value)
            <==> st.sigs[s].emitting > 0 || st.sigs[s].nodes == []
    ensures st.sigs[s].emitting == 0 ==> (Pop(st, s, front) == None <==> |st.sigs[s].nodes| == 1)
  {
    if st.sigs[s].emitting > 0 || st.sigs[s].nodes == [] {
      PopKeepsInv(st, s, front);
    } else {
      IdlePop(st, s, front);
      if |st.sigs[s].nodes| > 1 {
        SecondIsLost(st, s, front);
      }
    }
  }

  /** Outside emissions the node of the slot at that end leaves the list, and then the next one. */
  lemma IdlePop(st: State, s: SigId, front: bool)
    requires Inv(st) && s in st.sigs && st.sigs[s].emitting == 0 && st.sigs[s].nodes != []
    ensures var nodes := st.sigs[s].nodes;
            var n := End(nodes, front);
            && n.live && Connected(st, n.id) && Pop(st, s, front) == PopNode(Disconnect(st, n.id), s, front)
            && s in Disconnect(st, n.id).sigs && Disconnect(st, n.id).sigs[s] == st.sigs[s].(nodes := Shorter(nodes, front))
  {
    var nodes := st.sigs[s].nodes;
    var n := End(nodes, front);
    IdleNodesConnected(st, s, n);
    DisconnectEffect(st, n.id);
    InOrderHere(st, s);
    EndErased(nodes, front);
  }

  lemma {:induction false} EndErased(nodes: seq<Node>, front: bool)
    requires InBindOrder(nodes) && nodes != []
    ensures EraseNode(nodes, End(nodes, front).id) == Shorter(nodes, front)
  {
    if !front && |nodes| > 1 {
      EndErased(nodes[1..], front);
      assert nodes[..|nodes| - 1] == [nodes[0]] + nodes[1..][..|nodes| - 2];
    }
  }

  /** The slot next to it stays connected without a node. */
  lemma SecondIsLost(st: State, s: SigId, front: bool)
    requires Inv(st) && s in st.sigs && st.sigs[s].emitting == 0 && |st.sigs[s].nodes| > 1
    ensures Pop(st, s, front).Some? && !Inv(Pop(st, s, front).value)
    ensures var c := End(Shorter(st.sigs[s].nodes, front), front).id;
            Connected(Pop(st, s, front).value, c) && s in Pop(st, s, front).value.sigs && !Has(Pop(st, s, front).value.sigs[s].nodes, c)
  {
    var nodes := st.sigs[s].nodes;
    var n, rest := End(nodes, front), Shorter(nodes, front);
    var c := End(rest, front);
    IdlePop(st, s, front);
    IdleNodesConnected(st, s, c);
    InOrderHere(st, s);
    DisconnectOnly(st, n.id);
    var after := Pop(st, s, front).value;
    hide Pop, Disconnect;
    assert after.sigs[s].nodes == Shorter(rest, front);
    assert !Has(after.sigs[s].nodes, c.id);
    assert c.id != n.id;
    assert Connected(after, c.id) && after.conns[c.id].home == s;
    if Inv(after) {
      BoundHasNode(after, s, c.id);
    }
  }

  lemma BoundHasNode(st: State, s: SigId, c: ConnId)
    requires Inv(st) && Bound(st, s, c)
    ensures s in st.sigs && Has(st.sigs[s].nodes, c)
  {
    ConnectedIsListed(st, c);
  }
}
