/** The operation queue as the program links it: every operation has a next pointer, a map leads from
    descriptors to the first operation of each chain, and two more pointers lead to the cancelled and
    the complete list. Operations are numbered from 1 on and 0 is the null pointer; the next pointers
    are one map. Callbacks do not call the queue. */
module OperationQueue {
  import opened OpQueue

  /** The links from `head` lead through `s` and end there. */
  ghost predicate Linked(next: map<Id, Id>, head: Id, s: seq<Id>) {
    && head == (if s == [] then 0 else s[0])
    && Distinct(s)
    && forall i :: 0 <= i < |s| ==> LinkOk(next, s, i)
  }

  ghost predicate LinkOk(next: map<Id, Id>, s: seq<Id>, i: nat)
    requires i < |s|
  {
    s[i] != 0 && s[i] in next && next[s[i]] == if i + 1 < |s| then s[i + 1] else 0
  }

  /** The links as they are in memory. */
  datatype Links = Links(next: map<Id, Id>, descriptor: map<Id, Descriptor>, operations: map<Descriptor, Id>,
                         cancelled: Id, complete: Id)

  ghost predicate ChainLinked(l: Links, q: Queue, d: Descriptor) {
    && d in l.operations && d in q.ops && q.ops[d] != [] && Linked(l.next, l.operations[d], q.ops[d])
    && forall a :: a in q.ops[d] ==>
         a in l.descriptor && l.descriptor[a] == d && a !in q.cancelled && a !in q.complete
  }

  /** The links spell out the queue `q`, and no operation is on two lists. */
  ghost predicate Spells(l: Links, q: Queue) {
    && l.operations.Keys == q.ops.Keys
    && (forall d :: d in q.ops ==> ChainLinked(l, q, d))
    && Linked(l.next, l.cancelled, q.cancelled) && Linked(l.next, l.complete, q.complete)
    && (forall a :: a in q.cancelled ==> a !in q.complete)
    && (forall a :: a in q.cancelled || a in q.complete ==> a in l.descriptor)
  }

  /** The same while an operation of `d` is being performed: its entry leads through `c`, which may be
      empty, and `q` is the queue without that chain. */
  ghost predicate SpellsWith(l: Links, q: Queue, d: Descriptor, c: seq<Id>) {
    && d in l.operations && d !in q.ops && Spells(l.(operations := l.operations - {d}), q)
    && Linked(l.next, l.operations[d], c)
    && forall a :: a in c ==> a in l.descriptor && l.descriptor[a] == d && a !in q.cancelled && a !in q.complete
  }

  // ---- Links that stay and links that change ----

  lemma LinkedHas(next: map<Id, Id>, head: Id, s: seq<Id>)
    requires Linked(next, head, s)
    ensures forall a :: a in s ==> a in next && a != 0
  {
    forall a | a in s ensures a in next && a != 0 {
      var i :| 0 <= i < |s| && s[i] == a;
      assert LinkOk(next, s, i);
    }
  }

  /** Links outside a list do not matter to it. */
  lemma LinkedStays(next: map<Id, Id>, next': map<Id, Id>, head: Id, s: seq<Id>)
    requires Linked(next, head, s) && forall a :: a in s && a in next ==> a in next' && next'[a] == next[a]
    ensures Linked(next', head, s)
  {
    forall i | 0 <= i < |s| ensures LinkOk(next', s, i) {
      assert LinkOk(next, s, i);
      assert s[i] in s;
    }
  }

  /** The first operation is taken off a list. */
  lemma LinkedTail(next: map<Id, Id>, head: Id, s: seq<Id>)
    requires Linked(next, head, s) && s != []
    ensures head in next && Linked(next, next[head], s[1..]) && s == [head] + s[1..]
  {
    assert LinkOk(next, s, 0);
    DistinctParts([s[0]], s[1..]);
    assert s == [s[0]] + s[1..];
    forall i | 0 <= i < |s[1..]| ensures LinkOk(next, s[1..], i) {
      assert LinkOk(next, s, i + 1);
    }
  }

  /** An operation is put in front of a list. */
  lemma LinkedCons(next: map<Id, Id>, a: Id, head: Id, s: seq<Id>)
    requires Linked(next, head, s) && a != 0 && a !in s
    ensures Linked(next[a := head], a, [a] + s)
  {
    LinkedStays(next, next[a := head], head, s);
    DistinctParts([a], s);
    var t := [a] + s;
    var next' := next[a := head];
    forall i | 0 <= i < |t| ensures LinkOk(next', t, i) {
      if i > 0 {
        assert LinkOk(next', s, i - 1);
      }
    }
  }

  /** The last link of a list is made to lead to another list. */
  lemma LinkedJoin(next: map<Id, Id>, head: Id, s: seq<Id>, then0: Id, t: seq<Id>)
    requires Linked(next, head, s) && s != [] && Linked(next, then0, t) && forall a :: a in s ==> a !in t
    ensures Linked(next[s[|s| - 1] := then0], head, s + t)
  {
    var last := s[|s| - 1];
    assert last in s;
    DistinctParts(s, t);
    var u, next' := s + t, next[last := then0];
    forall i | 0 <= i < |u| ensures LinkOk(next', u, i) {
      if i < |s| {
        assert LinkOk(next, s, i);
        assert s[i] == last <==> i == |s| - 1;
      } else {
        assert LinkOk(next, t, i - |s|);
        assert t[i - |s|] in t;
      }
    }
  }

  /** A list without operations is the null pointer. */
  lemma NullIsEmpty(next: map<Id, Id>, head: Id, s: seq<Id>)
    requires Linked(next, head, s)
    ensures head == 0 <==> s == []
  {
    if s != [] {
      assert LinkOk(next, s, 0);
    }
  }

  /** Chains of other descriptors stay when the links of one chain, or of new operations, change. */
  lemma OtherChainStays(l: Links, l': Links, q: Queue, q': Queue, d: Descriptor)
    requires ChainLinked(l, q, d) && d in l'.operations && l'.operations[d] == l.operations[d]
    requires d in q'.ops && q'.ops[d] == q.ops[d]
    requires forall a :: a in q.ops[d] ==>
               && (a in l.next ==> a in l'.next && l'.next[a] == l.next[a])
               && a in l'.descriptor && l'.descriptor[a] == d && a !in q'.cancelled && a !in q'.complete
    ensures ChainLinked(l', q', d)
  {
    LinkedStays(l.next, l'.next, l.operations[d], q.ops[d]);
  }

  // ---- What the operations do to the links ----

  /** A chain is looked at by itself. */
  lemma Open(l: Links, q: Queue, d: Descriptor)
    requires Spells(l, q) && d in q.ops
    ensures SpellsWith(l, q.(ops := q.ops - {d}), d, q.ops[d]) && q.ops[d] != []
  {
    assert ChainLinked(l, q, d);
    var l', q' := l.(operations := l.operations - {d}), q.(ops := q.ops - {d});
    forall e | e in q'.ops ensures ChainLinked(l', q', e) {
      assert ChainLinked(l, q, e);
    }
  }

  /** A chain with operations is an entry. */
  lemma Close(l: Links, q: Queue, d: Descriptor, c: seq<Id>)
    requires SpellsWith(l, q, d, c) && c != []
    ensures Spells(l, q.(ops := q.ops[d := c]))
  {
    var q' := q.(ops := q.ops[d := c]);
    var open := l.(operations := l.operations - {d});
    forall e | e in q'.ops ensures ChainLinked(l, q', e) {
      if e != d {
        assert ChainLinked(open, q, e);
      }
    }
  }

  /** Changing the links of operations that are on no list, or one list for another, keeps all the
      other chains. */
  lemma ChainsStay(l: Links, l': Links, q: Queue, q': Queue)
    requires Spells(l, q) && l'.operations == l.operations && q'.ops == q.ops
    requires forall d, a :: d in q.ops && a in q.ops[d] ==>
               && (a in l.next ==> a in l'.next && l'.next[a] == l.next[a])
               && (a in l.descriptor ==> a in l'.descriptor && l'.descriptor[a] == l.descriptor[a])
               && a !in q'.cancelled && a !in q'.complete
    ensures forall d :: d in q'.ops ==> ChainLinked(l', q', d)
  {
    forall d | d in q'.ops ensures ChainLinked(l', q', d) {
      assert ChainLinked(l, q, d);
      OtherChainStays(l, l', q, q', d);
    }
  }

  /** The first operation of a chain goes to the complete list. */
  lemma MoveToComplete(l: Links, q: Queue, d: Descriptor, c: seq<Id>)
    requires SpellsWith(l, q, d, c) && c != []
    ensures var a := l.operations[d];
            a in l.next && a == c[0] &&
            SpellsWith(l.(operations := l.operations[d := l.next[a]], next := l.next[a := l.complete], complete := a),
                       q.(complete := [a] + q.complete), d, c[1..])
  {
    LinkedTail(l.next, l.operations[d], c);
    var a := l.operations[d];
    assert a in c;
    LinkedHas(l.next, a, c);
    DistinctParts([a], c[1..]);
    var l' := l.(operations := l.operations[d := l.next[a]], next := l.next[a := l.complete], complete := a);
    var q' := q.(complete := [a] + q.complete);
    var open, open' := l.(operations := l.operations - {d}), l'.(operations := l'.operations - {d});
    assert open'.operations == open.operations;
    LinkedCons(l.next, a, l.complete, q.complete);
    LinkedStays(l.next, l'.next, l.cancelled, q.cancelled);
    LinkedStays(l.next, l'.next, l.next[a], c[1..]);
    forall e, b | e in q.ops && b in q.ops[e] ensures b != a && b !in q'.complete {
      assert ChainLinked(open, q, e);
    }
    ChainsStay(open, open', q, q');
    assert forall b :: b in q'.complete <==> b == a || b in q.complete;
  }

  /** The first cancelled operation goes to the complete list. */
  lemma CancelledToComplete(l: Links, q: Queue)
    requires Spells(l, q) && q.cancelled != []
    ensures var a := l.cancelled;
            a in l.next && a == q.cancelled[0] &&
            Spells(l.(cancelled := l.next[a], next := l.next[a := l.complete], complete := a),
                   q.(cancelled := q.cancelled[1..], complete := [a] + q.complete))
  {
    LinkedTail(l.next, l.cancelled, q.cancelled);
    var a := l.cancelled;
    assert a in q.cancelled;
    LinkedHas(l.next, a, q.cancelled);
    DistinctParts([a], q.cancelled[1..]);
    var l' := l.(cancelled := l.next[a], next := l.next[a := l.complete], complete := a);
    var q' := q.(cancelled := q.cancelled[1..], complete := [a] + q.complete);
    LinkedCons(l.next, a, l.complete, q.complete);
    LinkedStays(l.next, l'.next, l.next[a], q'.cancelled);
    forall e, b | e in q.ops && b in q.ops[e] ensures b != a && b !in q'.complete && b !in q'.cancelled {
      assert ChainLinked(l, q, e);
    }
    ChainsStay(l, l', q, q');
  }

  /** The first complete operation leaves. */
  lemma CompleteLeaves(l: Links, q: Queue)
    requires Spells(l, q) && q.complete != []
    ensures var a := l.complete;
            a in l.next && a == q.complete[0] &&
            Spells(l.(complete := l.next[a], next := l.next[a := 0]), q.(complete := q.complete[1..]))
  {
    LinkedTail(l.next, l.complete, q.complete);
    var a := l.complete;
    assert a in q.complete;
    DistinctParts([a], q.complete[1..]);
    var l' := l.(complete := l.next[a], next := l.next[a := 0]);
    var q' := q.(complete := q.complete[1..]);
    LinkedStays(l.next, l'.next, l.next[a], q'.complete);
    LinkedStays(l.next, l'.next, l.cancelled, q.cancelled);
    forall e, b | e in q.ops && b in q.ops[e] ensures b != a && b !in q'.complete {
      assert ChainLinked(l, q, e);
    }
    ChainsStay(l, l', q, q');
  }

  /** The chain of a descriptor, linked to what was cancelled before, is the cancelled list. */
  lemma ChainIsLinked(l: Links, q: Queue, d: Descriptor)
    requires Spells(l, q) && d in q.ops
    ensures ChainLinked(l, q, d)
  {
  }

  lemma ChainToCancelled(l: Links, q: Queue, d: Descriptor)
    requires Spells(l, q) && d in q.ops
    ensures q.ops[d] != []
    ensures var last := q.ops[d][|q.ops[d]| - 1];
            Spells(l.(next := l.next[last := l.cancelled], cancelled := l.operations[d], operations := l.operations - {d}),
                   OpQueue.Cancel(q, d))
  {
    assert ChainLinked(l, q, d);
    var c := q.ops[d];
    var last := c[|c| - 1];
    assert last in c;
    LinkedHas(l.next, l.operations[d], c);
    var l' := l.(next := l.next[last := l.cancelled], cancelled := l.operations[d], operations := l.operations - {d});
    var q' := OpQueue.Cancel(q, d);
    LinkedJoin(l.next, l.operations[d], c, l.cancelled, q.cancelled);
    LinkedStays(l.next, l'.next, l.complete, q.complete);
    forall e | e in q'.ops ensures ChainLinked(l', q', e) {
      assert ChainLinked(l, q, e);
      OtherChainStays(l, l', q, q', e);
    }
  }

  /** A new operation is linked behind the last one of its chain. */
  lemma NewIsLast(l: Links, q: Queue, d: Descriptor, id: Id)
    requires Spells(l, q) && d in q.ops && id != 0 && id !in l.descriptor
    ensures q.ops[d] != []
    ensures var last := q.ops[d][|q.ops[d]| - 1];
            Spells(l.(next := l.next[id := 0][last := id], descriptor := l.descriptor[id := d]), OpQueue.Enqueue(q, d, id))
  {
    assert ChainLinked(l, q, d);
    var c := q.ops[d];
    var last := c[|c| - 1];
    assert last in c;
    var with := l.(next := l.next[id := 0], descriptor := l.descriptor[id := d]);
    var l' := with.(next := with.next[last := id]);
    var q' := OpQueue.Enqueue(q, d, id);
    LinkedStays(l.next, with.next, l.operations[d], c);
    assert LinkOk(with.next, [id], 0);
    LinkedJoin(with.next, l.operations[d], c, id, [id]);
    LinkedStays(l.next, l'.next, l.complete, q.complete);
    LinkedStays(l.next, l'.next, l.cancelled, q.cancelled);
    forall e | e in q'.ops ensures ChainLinked(l', q', e) {
      assert e != d ==> ChainLinked(l, q, e);
      if e != d {
        OtherChainStays(l, l', q, q', e);
      }
    }
  }

  /** A new operation is the only one of its descriptor. */
  lemma NewIsOnly(l: Links, q: Queue, d: Descriptor, id: Id)
    requires Spells(l, q) && d !in q.ops && id != 0 && id !in l.descriptor
    ensures Spells(l.(next := l.next[id := 0], descriptor := l.descriptor[id := d], operations := l.operations[d := id]),
                   OpQueue.Enqueue(q, d, id))
  {
    var l' := l.(next := l.next[id := 0], descriptor := l.descriptor[id := d], operations := l.operations[d := id]);
    var q' := OpQueue.Enqueue(q, d, id);
    assert LinkOk(l'.next, [id], 0);
    assert q'.ops[d] == [id];
    LinkedStays(l.next, l'.next, l.complete, q.complete);
    LinkedStays(l.next, l'.next, l.cancelled, q.cancelled);
    forall e | e in q'.ops ensures ChainLinked(l', q', e) {
      if e != d {
        assert ChainLinked(l, q, e);
        OtherChainStays(l, l', q, q', e);
      }
    }
  }

  /** Only the last operation of a list has no next one. */
  lemma LastLink(next: map<Id, Id>, head: Id, s: seq<Id>, i: nat)
    requires Linked(next, head, s) && i < |s|
    ensures s[i] in next && (next[s[i]] == 0 <==> i + 1 == |s|) && (i + 1 < |s| ==> next[s[i]] == s[i + 1])
  {
    assert LinkOk(next, s, i);
    if i + 1 < |s| {
      assert LinkOk(next, s, i + 1);
    }
  }

  // ---- The queue ----

  class OperationQueue {
    var next: map<Id, Id>
    var descriptor: map<Id, Descriptor>
    var operations: map<Descriptor, Id>
    var cancelled: Id
    var complete: Id
    ghost var q: Queue

    ghost function Now(): Links
      reads this
    {
      Links(next, descriptor, operations, cancelled, complete)
    }

    ghost predicate Valid()
      reads this
    {
      Spells(Now(), q)
    }

    constructor ()
      ensures Valid() && q == Queue(map[], [], [])
    {
      next, descriptor, operations, cancelled, complete := map[], map[], map[], 0, 0;
      q := Queue(map[], [], []);
    }

    /** The loops that look for the last operation of a chain. */
    method LastOf(head: Id, ghost s: seq<Id>) returns (last: Id)
      requires s != [] && Linked(next, head, s)
      ensures last == s[|s| - 1]
    {
      last := head;
      ghost var i := 0;
      LastLink(next, head, s, 0);
      while next[last] != 0
        invariant 0 <= i < |s| && last == s[i] && last in next
        invariant next[last] == 0 <==> i + 1 == |s|
        invariant i + 1 < |s| ==> next[last] == s[i + 1]
        decreases |s| - i
      {
        last := next[last];
        i := i + 1;
        LastLink(next, head, s, i);
      }
    }

    /** enqueue_operation: true if the operation is the only one of its descriptor. */
    method Enqueue(d: Descriptor, id: Id) returns (only: bool)
      requires Valid() && id != 0 && id !in descriptor
      modifies this
      ensures Valid() && q == OpQueue.Enqueue(old(q), d, id) && only == (d !in old(q).ops)
      ensures descriptor == old(descriptor)[id := d]
    {
      hide Spells, Linked, Distinct;
      ghost var l := Now();
      SpellsKeys(l, q);
      next := next[id := 0];
      descriptor := descriptor[id := d];
      q := OpQueue.Enqueue(q, d, id);
      if d !in operations {
        operations := operations[d := id];
        NewIsOnly(l, old(q), d, id);
        return true;
      }
      NewIsLast(l, old(q), d, id);
      ChainOfOld(l, Now().next, old(q), d, id);
      var current := LastOf(operations[d], old(q).ops[d]);
      next := next[current := id];
      return false;
    }

    /** cancel_operations: true if there was something to cancel. */
    method Cancel(d: Descriptor) returns (any: bool)
      requires Valid()
      modifies this
      ensures Valid() && q == OpQueue.Cancel(old(q), d) && any == (d in old(q).ops) && descriptor == old(descriptor)
    {
      hide Spells, Linked, Distinct;
      SpellsKeys(Now(), q);
      if d !in operations {
        return false;
      }
      ChainToCancelled(Now(), q, d);
      ChainIsLinked(Now(), q, d);
      var last := LastOf(operations[d], q.ops[d]);
      next := next[last := cancelled];
      cancelled := operations[d];
      operations := operations - {d};
      q := OpQueue.Cancel(q, d);
      return true;
    }

    /** The first operation of a chain is moved to the complete list before it is performed. */
    method TakeFirst(d: Descriptor, ghost bare: Queue, ghost c: seq<Id>) returns (thisOp: Id)
      requires SpellsWith(Now(), bare, d, c) && c != []
      modifies `operations, `next, `complete
      ensures thisOp == c[0] && Taken(old(Now()), Now(), d, thisOp)
      ensures SpellsWith(Now(), bare.(complete := [thisOp] + bare.complete), d, c[1..])
    {
      MoveToComplete(Now(), bare, d, c);
      thisOp := operations[d];
      operations := operations[d := next[thisOp]];
      next := next[thisOp := complete];
      complete := thisOp;
    }

    /** An operation that is not done is put back in front of its chain: everything is as before. */
    method PutBack(d: Descriptor, thisOp: Id, ghost before: Links)
      requires Taken(before, Now(), d, thisOp)
      modifies `operations, `next, `complete
      ensures Now() == before
    {
      complete := next[thisOp];
      next := next[thisOp := operations[d]];
      operations := operations[d := thisOp];
      assert next == before.next && operations == before.operations;
    }

    /** perform_operation, where `done` is what the operation's callback answers: true if more
        operations are waiting. */
    method Perform(d: Descriptor, done: bool) returns (more: bool)
      requires Valid()
      modifies this
      ensures Valid() && q == OpQueue.Perform(old(q), d, done) && descriptor == old(descriptor)
      ensures more == (d in q.ops)
    {
      hide Spells, SpellsWith, Linked;
      SpellsKeys(Now(), q);
      if d !in operations {
        return false;
      }
      ghost var l, chain, bare := Now(), q.ops[d], q.(ops := q.ops - {d});
      Open(Now(), q, d);
      var thisOp := TakeFirst(d, bare, chain);
      if done {
        ghost var moved := bare.(complete := [thisOp] + bare.complete);
        EntryIsNull(Now(), moved, d, chain[1..]);
        q := OpQueue.Perform(q, d, true);
        if operations[d] != 0 {
          Close(Now(), moved, d, chain[1..]);
          assert q == moved.(ops := moved.ops[d := chain[1..]]);
          return true;
        }
        operations := operations - {d};
        assert q == moved;
        return false;
      } else {
        PutBack(d, thisOp, l);
        return true;
      }
    }

    /** perform_all_operations, where `done` are the operations whose callback answers true. */
    method PerformAll(d: Descriptor, done: set<Id>)
      requires Valid()
      modifies this
      ensures Valid() && descriptor == old(descriptor)
      ensures q == OpQueue.PerformAll(old(q), d, Finishing(Chain(old(q), d), done))
    {
      hide Spells, SpellsWith, Linked, Reversed;
      SpellsKeys(Now(), q);
      ghost var k: nat, chain := 0, Chain(q, d);
      if d !in operations {
        NothingToPerform(q, d);
        return;
      }
      ghost var bare := q.(ops := q.ops - {d});
      Open(Now(), q, d);
      NoneReversed(chain, bare);
      EntryIsNull(Now(), AfterSome(bare, chain, 0), d, chain[0..]);
      while operations[d] != 0
        invariant k <= Finishing(chain, done) && descriptor == old(descriptor) && q == old(q) && d in operations
        invariant SpellsWith(Now(), AfterSome(bare, chain, k), d, chain[k..])
        invariant operations[d] == 0 <==> chain[k..] == []
        decreases |chain| - k
      {
        ghost var l := Now();
        var thisOp := TakeFirst(d, AfterSome(bare, chain, k), chain[k..]);
        if thisOp !in done {
          PutBack(d, thisOp, l);
          Close(l, AfterSome(bare, chain, k), d, chain[k..]);
          WhatIsLeft(q, chain, d, k);
          q := OpQueue.PerformAll(q, d, k);
          return;
        }
        OneMoreReversed(chain, k, bare.complete);
        assert chain[k..][1..] == chain[k + 1..];
        k := k + 1;
        EntryIsNull(Now(), AfterSome(bare, chain, k), d, chain[k..]);
      }
      CloseEmpty(Now(), AfterSome(bare, chain, k), d, chain[k..]);
      WhatIsLeft(q, chain, d, k);
      operations := operations - {d};
      q := OpQueue.PerformAll(q, d, k);
    }

    /** perform_cancellations. */
    method PerformCancellations()
      requires Valid()
      modifies this
      ensures Valid() && q == OpQueue.PerformCancellations(old(q)) && descriptor == old(descriptor)
    {
      hide Spells, Linked, Reversed;
      ghost var all, done := q.cancelled, 0;
      NoneReversed(all, q);
      SpellsKeys(Now(), q);
      while cancelled != 0
        invariant done <= |all| && descriptor == old(descriptor)
        invariant q == old(q).(cancelled := all[done..], complete := Reversed(all[..done]) + old(q).complete)
        invariant Valid() && (cancelled == 0 <==> all[done..] == [])
        decreases |all| - done
      {
        CancelledToComplete(Now(), q);
        OneMoreReversed(all, done, old(q).complete);
        var thisOp := cancelled;
        cancelled := next[thisOp];
        next := next[thisOp := complete];
        complete := thisOp;
        assert all[done..][1..] == all[done + 1..];
        q := q.(cancelled := q.cancelled[1..], complete := [thisOp] + q.complete);
        done := done + 1;
        SpellsKeys(Now(), q);
      }
      assert all[..done] == all;
    }

    /** complete_operations: the operations leave in the order of the list, which their completion
        handlers see. */
    method CompleteOperations() returns (handlers: seq<Id>)
      requires Valid()
      modifies this
      ensures Valid() && q == old(q).(complete := []) && handlers == old(q).complete && descriptor == old(descriptor)
    {
      hide Spells, Linked;
      handlers := [];
      ghost var all := q.complete;
      CompleteIsNull(Now(), q);
      while complete != 0
        invariant Valid() && (complete == 0 <==> q.complete == []) && descriptor == old(descriptor)
        invariant q == old(q).(complete := q.complete) && handlers + q.complete == all
        decreases |q.complete|
      {
        CompleteLeaves(Now(), q);
        var nextOp := next[complete];
        next := next[complete := 0];
        handlers := handlers + [complete];
        complete := nextOp;
        FirstAndRest(handlers[..|handlers| - 1], q.complete);
        q := q.(complete := q.complete[1..]);
        CompleteIsNull(Now(), q);
      }
    }

    /** destroy_operations: the cancelled and the complete list go, and then the chains of the
        descriptors in whatever order the map has them. */
    method Destroy() returns (gone: seq<Id>, rest: seq<Id>)
      requires Valid()
      modifies this
      ensures Valid() && q == Queue(map[], [], []) && descriptor == old(descriptor)
      ensures gone == old(q).cancelled + old(q).complete
      ensures Distinct(rest) && forall a :: a in rest <==> a in descriptor && a in Chain(old(q), descriptor[a])
    {
      hide Spells, Linked, Distinct, Emptied;
      gone := [];
      ghost var was := q;
      SpellsKeys(Now(), q);
      while cancelled != 0
        invariant Valid() && (cancelled == 0 <==> q.cancelled == []) && descriptor == old(descriptor)
        invariant q == was.(cancelled := q.cancelled) && gone + q.cancelled == was.cancelled
        decreases |q.cancelled|
      {
        CancelledLeaves(Now(), q);
        var nextOp := next[cancelled];
        next := next[cancelled := 0];
        gone := gone + [cancelled];
        cancelled := nextOp;
        FirstAndRest(gone[..|gone| - 1], q.cancelled);
        q := q.(cancelled := q.cancelled[1..]);
        SpellsKeys(Now(), q);
      }
      var more := CompleteOperations();
      gone := gone + more;
      rest := [];
      NoneEmptied(descriptor, was, q);
      SpellsKeys(Now(), q);
      while operations.Keys != {}
        invariant Valid() && operations.Keys == q.ops.Keys && descriptor == old(descriptor)
        invariant q == Queue(q.ops, [], []) && q.ops.Keys <= was.ops.Keys
        invariant forall d :: d in q.ops ==> q.ops[d] == was.ops[d]
        invariant Distinct(rest) && Emptied(descriptor, was, q, rest)
        decreases |operations|
      {
        var d :| d in operations;
        rest := DestroyChain(d, rest, was);
        SpellsKeys(Now(), q);
      }
      AllEmptied(Now(), was, q, rest);
    }

    /** The chain of one descriptor is destroyed, and its entry erased before. */
    method DestroyChain(d: Descriptor, before: seq<Id>, ghost was: Queue) returns (rest: seq<Id>)
      requires Valid() && d in operations && d in q.ops && d in was.ops && was.ops[d] == q.ops[d]
      requires Distinct(before) && Emptied(descriptor, was, q, before)
      modifies this
      ensures Valid() && q == old(q).(ops := old(q).ops - {d}) && descriptor == old(descriptor)
      ensures operations == old(operations) - {d}
      ensures Distinct(rest) && Emptied(descriptor, was, q, rest)
    {
      hide Linked, Distinct, Emptied;
      ghost var chain, bare := q.ops[d], q.(ops := q.ops - {d});
      Open(Now(), q, d);
      ChainIsNew(Now(), was, q, d, before);
      var current := operations[d];
      operations := operations - {d};
      q := bare;
      rest := before;
      ghost var i := 0;
      assert chain[0..] == chain && before + chain[..0] == before;
      NullIsEmpty(next, current, chain);
      while current != 0
        invariant 0 <= i <= |chain| && Linked(next, current, chain[i..]) && (current == 0 <==> chain[i..] == [])
        invariant Spells(Now(), bare) && q == bare && descriptor == old(descriptor) && operations == old(operations) - {d}
        invariant rest == before + chain[..i]
        invariant forall a :: a in chain[i..] ==> a !in bare.cancelled && a !in bare.complete && a in descriptor && descriptor[a] == d
        decreases |chain| - i
      {
        OneLeaves(Now(), bare, d, current, chain[i..]);
        var nextOp := next[current];
        next := next[current := 0];
        rest := rest + [current];
        assert chain[i..][1..] == chain[i + 1..] && chain[..i + 1] == chain[..i] + [chain[i]];
        current := nextOp;
        i := i + 1;
        NullIsEmpty(next, current, chain[i..]);
      }
      assert chain[..i] == chain;
    }
  }

  /** The chains that are gone from `was` are exactly what `rest` holds. */
  ghost predicate Emptied(descriptor: map<Id, Descriptor>, was: Queue, q: Queue, rest: seq<Id>) {
    forall a :: a in rest <==> a in descriptor && descriptor[a] in was.ops && descriptor[a] !in q.ops && a in was.ops[descriptor[a]]
  }

  lemma NoneEmptied(descriptor: map<Id, Descriptor>, was: Queue, q: Queue)
    requires q.ops == was.ops
    ensures Distinct([]) && Emptied(descriptor, was, q, [])
  {
  }

  lemma AllEmptied(l: Links, was: Queue, q: Queue, rest: seq<Id>)
    requires Emptied(l.descriptor, was, q, rest) && q.ops.Keys == {}
    ensures q.ops == map[]
    ensures forall a :: a in rest <==> a in l.descriptor && a in Chain(was, l.descriptor[a])
  {
  }

  lemma ChainIsNew(l: Links, was: Queue, q: Queue, d: Descriptor, before: seq<Id>)
    requires Spells(l, q) && d in q.ops && d in was.ops && was.ops[d] == q.ops[d]
    requires Distinct(before) && Emptied(l.descriptor, was, q, before)
    ensures Distinct(before + q.ops[d]) && Emptied(l.descriptor, was, q.(ops := q.ops - {d}), before + q.ops[d])
  {
    assert ChainLinked(l, q, d);
    DistinctParts(before, q.ops[d]);
  }

  /** The first cancelled operation leaves. */
  lemma CancelledLeaves(l: Links, q: Queue)
    requires Spells(l, q) && q.cancelled != []
    ensures var a := l.cancelled;
            a in l.next && a == q.cancelled[0] &&
            Spells(l.(cancelled := l.next[a], next := l.next[a := 0]), q.(cancelled := q.cancelled[1..]))
  {
    LinkedTail(l.next, l.cancelled, q.cancelled);
    var a := l.cancelled;
    assert a in q.cancelled;
    DistinctParts([a], q.cancelled[1..]);
    var l' := l.(cancelled := l.next[a], next := l.next[a := 0]);
    var q' := q.(cancelled := q.cancelled[1..]);
    LinkedStays(l.next, l'.next, l.next[a], q'.cancelled);
    LinkedStays(l.next, l'.next, l.complete, q.complete);
    forall e, b | e in q.ops && b in q.ops[e] ensures b != a && b !in q'.cancelled {
      assert ChainLinked(l, q, e);
    }
    ChainsStay(l, l', q, q');
  }

  /** An operation of a chain that has no entry any more leaves. */
  lemma OneLeaves(l: Links, q: Queue, d: Descriptor, head: Id, c: seq<Id>)
    requires Spells(l, q) && d !in q.ops && Linked(l.next, head, c) && c != []
    requires forall a :: a in c ==> a !in q.cancelled && a !in q.complete && a in l.descriptor && l.descriptor[a] == d
    ensures head in l.next && head == c[0] && Linked(l.next[head := 0], l.next[head], c[1..])
    ensures Spells(l.(next := l.next[head := 0]), q)
  {
    LinkedTail(l.next, head, c);
    assert head in c;
    DistinctParts([head], c[1..]);
    var l' := l.(next := l.next[head := 0]);
    LinkedStays(l.next, l'.next, l.next[head], c[1..]);
    LinkedStays(l.next, l'.next, l.complete, q.complete);
    LinkedStays(l.next, l'.next, l.cancelled, q.cancelled);
    forall e, b | e in q.ops && b in q.ops[e] ensures b != head && b !in q.cancelled && b !in q.complete {
      assert ChainLinked(l, q, e);
    }
    ChainsStay(l, l', q, q);
  }

  lemma FirstAndRest(s: seq<Id>, t: seq<Id>)
    requires t != []
    ensures s + t == (s + [t[0]]) + t[1..]
  {
  }

  lemma CompleteIsNull(l: Links, q: Queue)
    requires Spells(l, q)
    ensures l.complete == 0 <==> q.complete == []
  {
    NullIsEmpty(l.next, l.complete, q.complete);
  }

  lemma SpellsKeys(l: Links, q: Queue)
    requires Spells(l, q)
    ensures l.operations.Keys == q.ops.Keys && (l.cancelled == 0 <==> q.cancelled == [])
    ensures forall d :: d in q.ops ==> q.ops[d] != []
  {
    NullIsEmpty(l.next, l.cancelled, q.cancelled);
    forall d | d in q.ops ensures q.ops[d] != [] {
      assert ChainLinked(l, q, d);
    }
  }

  lemma EntryIsNull(l: Links, q: Queue, d: Descriptor, c: seq<Id>)
    requires SpellsWith(l, q, d, c)
    ensures d in l.operations && d !in q.ops && (l.operations[d] == 0 <==> c == [])
  {
    NullIsEmpty(l.next, l.operations[d], c);
  }

  /** The links before and after an operation was moved to the complete list. */
  ghost predicate Taken(l: Links, l': Links, d: Descriptor, a: Id) {
    && d in l.operations && l.operations[d] == a && a in l.next
    && l' == l.(operations := l.operations[d := l.next[a]], next := l.next[a := l.complete], complete := a)
  }

  /** The queue without the chain at work, after the first `k` of it were performed. */
  ghost function AfterSome(bare: Queue, chain: seq<Id>, k: nat): Queue
    requires k <= |chain|
  {
    bare.(complete := Reversed(chain[..k]) + bare.complete)
  }

  lemma NoneReversed(chain: seq<Id>, bare: Queue)
    ensures AfterSome(bare, chain, 0) == bare && chain[0..] == chain
  {
    assert Reversed(chain[..0]) + bare.complete == bare.complete;
  }

  lemma CloseEmpty(l: Links, q: Queue, d: Descriptor, c: seq<Id>)
    requires SpellsWith(l, q, d, c)
    ensures Spells(l.(operations := l.operations - {d}), q)
  {
  }

  lemma WhatIsLeft(q: Queue, chain: seq<Id>, d: Descriptor, k: nat)
    requires d in q.ops && chain == q.ops[d] && k <= |chain|
    ensures var bare := q.(ops := q.ops - {d});
            OpQueue.PerformAll(q, d, k) == if chain[k..] == [] then AfterSome(bare, chain, k)
                                           else AfterSome(bare, chain, k).(ops := bare.ops[d := chain[k..]])
  {
    var bare := q.(ops := q.ops - {d});
    assert q.ops[d := chain[k..]] == bare.ops[d := chain[k..]];
  }

  lemma ChainOfOld(l: Links, next: map<Id, Id>, q: Queue, d: Descriptor, id: Id)
    requires Spells(l, q) && d in q.ops && id !in l.descriptor && next == l.next[id := 0]
    ensures q.ops[d] != [] && d in l.operations && Linked(next, l.operations[d], q.ops[d])
  {
    assert ChainLinked(l, q, d);
    LinkedStays(l.next, next, l.operations[d], q.ops[d]);
  }

  lemma NothingToPerform(q: Queue, d: Descriptor)
    requires d !in q.ops
    ensures OpQueue.PerformAll(q, d, 0) == q
  {
    assert q.ops - {d} == q.ops;
    assert [] + q.complete == q.complete;
  }

  lemma OneMoreReversed(s: seq<Id>, k: nat, rest: seq<Id>)
    requires k < |s|
    ensures [s[k]] + (Reversed(s[..k]) + rest) == Reversed(s[..k + 1]) + rest
  {
    ReversedOfSum(s[..k], [s[k]]);
    assert s[..k + 1] == s[..k] + [s[k]];
    assert Reversed([s[k]]) == [s[k]];
  }
}
