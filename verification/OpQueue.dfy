/** The operation queue as values: a chain of operations for each descriptor, the list of cancelled
    and the list of complete operations, and the histories that say what happened to each. */
module OpQueue {
  type Id = nat
  type Descriptor = nat

  /** What the queue holds. A descriptor without operations has no entry. */
  datatype Queue = Queue(ops: map<Descriptor, seq<Id>>, cancelled: seq<Id>, complete: seq<Id>)

  function Chain(q: Queue, d: Descriptor): seq<Id> {
    if d in q.ops then q.ops[d] else []
  }

  function WithChain(q: Queue, d: Descriptor, chain: seq<Id>): Queue {
    q.(ops := if chain == [] then q.ops - {d} else q.ops[d := chain])
  }

  function Reversed<T>(s: seq<T>): (r: seq<T>)
    ensures |r| == |s|
  {
    if s == [] then [] else Reversed(s[1..]) + [s[0]]
  }

  // ---- The operations ----

  function Enqueue(q: Queue, d: Descriptor, id: Id): Queue {
    q.(ops := q.ops[d := Chain(q, d) + [id]])
  }

  function Cancel(q: Queue, d: Descriptor): Queue {
    if d in q.ops then q.(ops := q.ops - {d}, cancelled := q.ops[d] + q.cancelled) else q
  }

  /** perform_operation, when the first operation of the descriptor says that it is done or not. */
  function Perform(q: Queue, d: Descriptor, done: bool): Queue {
    if d in q.ops && q.ops[d] != [] && done then
      WithChain(q, d, q.ops[d][1..]).(complete := [q.ops[d][0]] + q.complete)
    else q
  }

  /** How many operations of a chain are done, one after the other, when those in `done` answer so. */
  function Finishing(chain: seq<Id>, done: set<Id>): (k: nat)
    ensures k <= |chain| && forall i :: 0 <= i < k ==> chain[i] in done
    ensures k < |chain| ==> chain[k] !in done
  {
    if chain == [] || chain[0] !in done then 0 else 1 + Finishing(chain[1..], done)
  }

  /** perform_all_operations, when the first `k` say that they are done and the next one does not. */
  function PerformAll(q: Queue, d: Descriptor, k: nat): Queue
    requires k <= |Chain(q, d)|
  {
    WithChain(q, d, Chain(q, d)[k..]).(complete := Reversed(Chain(q, d)[..k]) + q.complete)
  }

  function PerformCancellations(q: Queue): Queue {
    q.(cancelled := [], complete := Reversed(q.cancelled) + q.complete)
  }

  // ---- Runs ----

  datatype Step =
    | EnqueueOp(d: Descriptor, id: Id)
    | CancelOps(d: Descriptor)
    | PerformOp(d: Descriptor, done: bool)
    | PerformAllOps(d: Descriptor, finished: set<Id>)
    | PerformCancels
    | CompleteAll
    | DestroyAll(rest: seq<Id>)

  /** The queue with its past: for which descriptor each operation was enqueued and in which order,
      what was cancelled or destroyed waiting, which operations were performed to the end, and in
      which order operations were completed or destroyed. */
  datatype State = State(q: Queue, owner: map<Id, Descriptor>, enqueued: map<Descriptor, seq<Id>>, dropped: set<Id>,
                         performed: map<Descriptor, seq<Id>>, gone: seq<Id>)

  function Log(m: map<Descriptor, seq<Id>>, d: Descriptor): seq<Id> {
    if d in m then m[d] else []
  }

  function Init(): State {
    State(Queue(map[], [], []), map[], map[], {}, map[], [])
  }

  /** An operation is in the chain of its descriptor. */
  predicate Waiting(s: State, a: Id) {
    a in s.owner && a in Chain(s.q, s.owner[a])
  }

  /** An operation object is enqueued once; destroying takes the chains in some order. */
  ghost predicate Legal(s: State, e: Step) {
    match e
    case EnqueueOp(d, id) => id !in s.owner
    case DestroyAll(rest) =>
      Distinct(rest) && forall a :: a in rest <==> Waiting(s, a)
    case _ => true
  }

  predicate Distinct(s: seq<Id>) {
    forall i, j :: 0 <= i < j < |s| ==> s[i] != s[j]
  }

  /** The first `k` operations of a descriptor are done. */
  function AfterAll(s: State, d: Descriptor, k: nat): State
    requires k <= |Chain(s.q, d)|
  {
    s.(q := PerformAll(s.q, d, k), performed := s.performed[d := Log(s.performed, d) + Chain(s.q, d)[..k]])
  }

  ghost function Apply(s: State, e: Step): State
    requires Legal(s, e)
  {
    match e
    case EnqueueOp(d, id) => s.(q := Enqueue(s.q, d, id), owner := s.owner[id := d],
                                  enqueued := s.enqueued[d := Log(s.enqueued, d) + [id]])
    case CancelOps(d) => s.(q := Cancel(s.q, d), dropped := s.dropped + (set a | a in Chain(s.q, d)))
    case PerformOp(d, done) =>
      if done && Chain(s.q, d) != [] then
        s.(q := Perform(s.q, d, done), performed := s.performed[d := Log(s.performed, d) + [Chain(s.q, d)[0]]])
      else s
    case PerformAllOps(d, done) => AfterAll(s, d, Finishing(Chain(s.q, d), done))
    case PerformCancels => s.(q := PerformCancellations(s.q))
    case CompleteAll => s.(q := s.q.(complete := []), gone := s.gone + s.q.complete)
    case DestroyAll(rest) =>
      s.(q := Queue(map[], [], []), gone := s.gone + s.q.cancelled + s.q.complete + rest,
         dropped := s.dropped + (set a | a in rest))
  }

  ghost function Run(s: State, steps: seq<Step>): State
    requires AllLegal(s, steps)
    decreases |steps|
  {
    if steps == [] then s else Run(Apply(s, steps[0]), steps[1..])
  }

  ghost predicate AllLegal(s: State, steps: seq<Step>)
    decreases |steps|
  {
    steps != [] ==> Legal(s, steps[0]) && AllLegal(Apply(s, steps[0]), steps[1..])
  }

  // ---- The invariant ----

  predicate ExactlyOne(a: bool, b: bool, c: bool, d: bool) {
    (a && !b && !c && !d) || (!a && b && !c && !d) || (!a && !b && c && !d) || (!a && !b && !c && d)
  }

  /** No operation is twice in a list, and every operation ever enqueued is in exactly one place: in
      the chain of its descriptor, cancelled, complete, or gone. */
  ghost predicate Conserved(s: State) {
    var q := s.q;
    && Distinct(q.cancelled) && Distinct(q.complete) && Distinct(s.gone)
    && (forall d :: d in q.ops ==> q.ops[d] != [])
    && (forall d :: Distinct(Chain(q, d)))
    && (forall d, a :: a in Chain(q, d) ==> a in s.owner && s.owner[a] == d)
    && (forall a :: a in q.cancelled || a in q.complete || a in s.gone ==> a in s.owner)
    && (forall a :: a in s.owner ==> ExactlyOne(Waiting(s, a), a in q.cancelled, a in q.complete, a in s.gone))
  }

  /** The members of a sequence that are not in a set. */
  function Kept(s: seq<Id>, dropped: set<Id>): seq<Id> {
    if s == [] then [] else (if s[0] in dropped then [] else [s[0]]) + Kept(s[1..], dropped)
  }

  /** For each descriptor: what was enqueued, less what was cancelled or destroyed, is what was
      performed, in that order, and then what is waiting. */
  ghost predicate InOrder(s: State) {
    && (forall d :: Distinct(Log(s.enqueued, d)))
    && (forall d, a :: a in Log(s.enqueued, d) <==> a in s.owner && s.owner[a] == d)
    && (forall d :: Kept(Log(s.enqueued, d), s.dropped) == Log(s.performed, d) + Chain(s.q, d))
  }

  lemma InitIsFine()
    ensures Conserved(Init()) && InOrder(Init())
  {
  }

  lemma {:induction false} ReversedHas(s: seq<Id>)
    ensures forall a :: a in Reversed(s) <==> a in s
    ensures Distinct(s) ==> Distinct(Reversed(s))
  {
    if s != [] {
      ReversedHas(s[1..]);
      assert s == [s[0]] + s[1..];
      if Distinct(s) {
        DistinctParts([s[0]], s[1..]);
        DistinctParts(Reversed(s[1..]), [s[0]]);
      }
    }
  }

  lemma DistinctParts(x: seq<Id>, y: seq<Id>)
    ensures Distinct(x + y) <==> Distinct(x) && Distinct(y) && forall a :: a in x ==> a !in y
  {
    var s := x + y;
    if Distinct(s) {
      forall a | a in x ensures a !in y {
        var i :| 0 <= i < |x| && x[i] == a;
        assert s[i] == a;
        forall j | 0 <= j < |y| ensures y[j] != a {
          assert s[|x| + j] == y[j];
        }
      }
      forall i, j | 0 <= i < j < |x| ensures x[i] != x[j] {
        assert s[i] == x[i] && s[j] == x[j];
      }
      forall i, j | 0 <= i < j < |y| ensures y[i] != y[j] {
        assert s[|x| + i] == y[i] && s[|x| + j] == y[j];
      }
    } else if Distinct(x) && Distinct(y) {
      var i, j :| 0 <= i < j < |s| && s[i] == s[j];
      assert i < |x| ==> s[i] in x;
      assert j >= |x| ==> s[j] in y;
    }
  }

  // ---- What stays in order ----

  lemma {:induction false} KeptOfSum(s: seq<Id>, t: seq<Id>, dropped: set<Id>)
    ensures Kept(s + t, dropped) == Kept(s, dropped) + Kept(t, dropped)
  {
    if s == [] {
      assert s + t == t;
    } else {
      KeptOfSum(s[1..], t, dropped);
      assert (s + t)[1..] == s[1..] + t;
      var first := if s[0] in dropped then [] else [s[0]];
      assert Kept(s + t, dropped) == first + Kept(s[1..] + t, dropped);
      assert first + (Kept(s[1..], dropped) + Kept(t, dropped)) == (first + Kept(s[1..], dropped)) + Kept(t, dropped);
    }
  }

  lemma {:induction false} KeptTwice(s: seq<Id>, dropped: set<Id>, more: set<Id>)
    ensures Kept(s, dropped + more) == Kept(Kept(s, dropped), more)
  {
    if s != [] {
      KeptTwice(s[1..], dropped, more);
      var first := if s[0] in dropped then [] else [s[0]];
      KeptOfSum(first, Kept(s[1..], dropped), more);
    }
  }

  lemma {:induction false} KeptAll(s: seq<Id>, dropped: set<Id>)
    requires forall a :: a in s ==> a !in dropped
    ensures Kept(s, dropped) == s
  {
    if s != [] {
      KeptAll(s[1..], dropped);
    }
  }

  lemma {:induction false} KeptNone(s: seq<Id>, dropped: set<Id>)
    requires forall a :: a in s ==> a in dropped
    ensures Kept(s, dropped) == []
  {
    if s != [] {
      KeptNone(s[1..], dropped);
    }
  }

  lemma {:induction false} KeptHas(s: seq<Id>, dropped: set<Id>)
    ensures forall a :: a in Kept(s, dropped) <==> a in s && a !in dropped
    ensures Distinct(s) ==> Distinct(Kept(s, dropped))
  {
    if s != [] {
      KeptHas(s[1..], dropped);
      assert s == [s[0]] + s[1..];
    }
  }

  /** Dropping the chain of a descriptor, and things that are not its own, leaves what was performed. */
  lemma DropChain(s: State, d: Descriptor, more: set<Id>)
    requires InOrder(s)
    requires forall a :: a in Log(s.enqueued, d) && a in more ==> a in Chain(s.q, d)
    requires forall a :: a in Chain(s.q, d) ==> a in more
    ensures Kept(Log(s.enqueued, d), s.dropped + more) == Log(s.performed, d)
  {
    var log, done, chain := Log(s.enqueued, d), Log(s.performed, d), Chain(s.q, d);
    KeptTwice(log, s.dropped, more);
    KeptHas(log, s.dropped);
    KeptOfSum(done, chain, more);
    KeptNone(chain, more);
    DistinctParts(done, chain);
    KeptHas(log, s.dropped);
    forall a | a in done ensures a !in more {
      assert a in done + chain;
    }
    KeptAll(done, more);
  }

  /** Dropping what was not enqueued for a descriptor leaves it as it is. */
  lemma DropOthers(s: State, d: Descriptor, more: set<Id>)
    requires InOrder(s) && forall a :: a in Log(s.enqueued, d) ==> a !in more
    ensures Kept(Log(s.enqueued, d), s.dropped + more) == Kept(Log(s.enqueued, d), s.dropped)
  {
    KeptTwice(Log(s.enqueued, d), s.dropped, more);
    KeptHas(Log(s.enqueued, d), s.dropped);
    KeptAll(Kept(Log(s.enqueued, d), s.dropped), more);
  }

  // ---- Every step keeps both ----

  /** The part of conservation that is about the chains. */
  ghost predicate ChainOk(s: State, d: Descriptor) {
    Distinct(Chain(s.q, d)) && (d in s.q.ops ==> s.q.ops[d] != [])
      && forall a :: a in Chain(s.q, d) ==> a in s.owner && s.owner[a] == d
  }

  lemma ChainsOk(s: State)
    requires Conserved(s)
    ensures forall d: Descriptor :: ChainOk(s, d)
  {
  }

  lemma ConservedIf(s: State)
    requires forall d: Descriptor :: ChainOk(s, d)
    requires Distinct(s.q.cancelled) && Distinct(s.q.complete) && Distinct(s.gone)
    requires forall a :: a in s.q.cancelled || a in s.q.complete || a in s.gone ==> a in s.owner
    requires forall a :: a in s.owner ==> ExactlyOne(Waiting(s, a), a in s.q.cancelled, a in s.q.complete, a in s.gone)
    ensures Conserved(s)
  {
    forall d | d in s.q.ops ensures s.q.ops[d] != [] {
      assert ChainOk(s, d);
    }
    forall d: Descriptor ensures Distinct(Chain(s.q, d)) && forall a :: a in Chain(s.q, d) ==> a in s.owner && s.owner[a] == d {
      assert ChainOk(s, d);
    }
  }

  lemma EnqueueConserves(s: State, d: Descriptor, id: Id)
    requires Conserved(s) && id !in s.owner
    ensures Conserved(Apply(s, EnqueueOp(d, id)))
  {
    ChainsOk(s);
    DistinctParts(Chain(s.q, d), [id]);
    var r := Apply(s, EnqueueOp(d, id));
    forall e: Descriptor ensures ChainOk(r, e) {
      assert ChainOk(s, e);
    }
    forall a | a in r.owner
      ensures ExactlyOne(Waiting(r, a), a in r.q.cancelled, a in r.q.complete, a in r.gone)
    {
      assert a != id ==> Waiting(r, a) == Waiting(s, a);
    }
    ConservedIf(r);
  }

  lemma CancelConserves(s: State, d: Descriptor)
    requires Conserved(s)
    ensures Conserved(Apply(s, CancelOps(d)))
  {
    ChainsOk(s);
    DistinctParts(Chain(s.q, d), s.q.cancelled);
    assert ChainOk(s, d);
    var r := Apply(s, CancelOps(d));
    forall e: Descriptor ensures ChainOk(r, e) {
      assert ChainOk(s, e);
    }
    forall a | a in r.owner
      ensures ExactlyOne(Waiting(r, a), a in r.q.cancelled, a in r.q.complete, a in r.gone)
    {
      assert Waiting(r, a) == (Waiting(s, a) && s.owner[a] != d);
    }
    ConservedIf(r);
  }

  lemma PerformAllChains(s: State, d: Descriptor, k: nat)
    requires (forall e: Descriptor :: ChainOk(s, e)) && k <= |Chain(s.q, d)|
    ensures forall e: Descriptor :: ChainOk(AfterAll(s, d, k), e)
  {
    var chain := Chain(s.q, d);
    assert ChainOk(s, d);
    assert chain == chain[..k] + chain[k..];
    DistinctParts(chain[..k], chain[k..]);
    forall e: Descriptor ensures ChainOk(AfterAll(s, d, k), e) {
      assert ChainOk(s, e);
      PerformAllChain(s, d, k, e);
    }
  }

  lemma PerformAllChain(s: State, d: Descriptor, k: nat, e: Descriptor)
    requires ChainOk(s, d) && ChainOk(s, e) && k <= |Chain(s.q, d)| && Distinct(Chain(s.q, d)[k..])
    ensures ChainOk(AfterAll(s, d, k), e)
  {
    hide Distinct, Reversed;
    var r := AfterAll(s, d, k);
    if e == d {
      assert Chain(r.q, d) == Chain(s.q, d)[k..];
    } else {
      assert Chain(r.q, e) == Chain(s.q, e);
    }
  }

  lemma PerformAllConserves(s: State, d: Descriptor, k: nat)
    requires Conserved(s) && k <= |Chain(s.q, d)|
    ensures Conserved(AfterAll(s, d, k))
  {
    ChainsOk(s);
    var chain := Chain(s.q, d);
    assert ChainOk(s, d);
    assert chain == chain[..k] + chain[k..];
    DistinctParts(chain[..k], chain[k..]);
    ReversedHas(chain[..k]);
    forall a | a in chain[..k] ensures a !in s.q.complete {
      assert Waiting(s, a);
    }
    DistinctParts(Reversed(chain[..k]), s.q.complete);
    var r := AfterAll(s, d, k);
    assert r.q.complete == Reversed(chain[..k]) + s.q.complete;
    PerformAllChains(s, d, k);
    forall a | a in r.owner
      ensures ExactlyOne(Waiting(r, a), a in r.q.cancelled, a in r.q.complete, a in r.gone)
    {
      PerformAllPlaces(s, d, k, a);
    }
    ConservedIf(r);
  }

  lemma PerformAllPlaces(s: State, d: Descriptor, k: nat, a: Id)
    requires k <= |Chain(s.q, d)| && a in s.owner && ChainOk(s, d)
    requires forall b :: b in Chain(s.q, d)[..k] ==> b !in Chain(s.q, d)[k..]
    requires ExactlyOne(Waiting(s, a), a in s.q.cancelled, a in s.q.complete, a in s.gone)
    ensures var r := AfterAll(s, d, k);
            ExactlyOne(Waiting(r, a), a in r.q.cancelled, a in r.q.complete, a in r.gone)
  {
    hide Reversed, Distinct;
    var r, chain := AfterAll(s, d, k), Chain(s.q, d);
    assert chain == chain[..k] + chain[k..];
    ReversedHas(chain[..k]);
    assert Chain(r.q, d) == chain[k..] && r.q.complete == Reversed(chain[..k]) + s.q.complete;
    if s.owner[a] != d {
      assert Chain(r.q, s.owner[a]) == Chain(s.q, s.owner[a]);
      assert a !in chain;
    }
  }

  lemma OneIsFirst(s: State, d: Descriptor)
    requires Chain(s.q, d) != []
    ensures Apply(s, PerformOp(d, true)) == AfterAll(s, d, 1)
  {
    var chain := Chain(s.q, d);
    assert chain[..1] == [chain[0]];
    assert Reversed([chain[0]]) == [chain[0]];
  }

  lemma NoneIsNothing(s: State, d: Descriptor)
    requires ChainOk(s, d) && Log(s.performed, d) == if d in s.performed then s.performed[d] else []
    ensures AfterAll(s, d, 0).q == s.q && forall e :: Log(AfterAll(s, d, 0).performed, e) == Log(s.performed, e)
  {
    var chain := Chain(s.q, d);
    assert chain[0..] == chain && chain[..0] == [];
    assert [] + s.q.complete == s.q.complete && Log(s.performed, d) + [] == Log(s.performed, d);
    assert WithChain(s.q, d, chain).ops == s.q.ops;
  }

  lemma OnlyFirstIsDone(chain: seq<Id>)
    requires chain != [] && Distinct(chain)
    ensures Finishing(chain, {chain[0]}) == 1
  {
    if |chain| > 1 {
      assert chain[1..][0] == chain[1];
    }
  }

  /** perform_operation does what perform_all_operations does when the first operation answers the same and
      no other is done. */
  lemma PerformIsOneOfAll(s: State, d: Descriptor, done: bool)
    requires Conserved(s)
    ensures var first := if done && Chain(s.q, d) != [] then {Chain(s.q, d)[0]} else {};
            var one, all := Apply(s, PerformOp(d, done)), Apply(s, PerformAllOps(d, first));
            one.q == all.q && forall e :: Log(one.performed, e) == Log(all.performed, e)
  {
    ChainsOk(s);
    var chain := Chain(s.q, d);
    assert ChainOk(s, d);
    if done && chain != [] {
      OneIsFirst(s, d);
      OnlyFirstIsDone(chain);
    } else {
      NoneIsNothing(s, d);
    }
  }

  /** Where each step moves operations: to the end of a chain, from chains to the cancelled or the complete
      list, and from the complete list away. */
  lemma StepMoves(s: State, e: Step)
    requires Legal(s, e)
    ensures var r := Apply(s, e);
            match e
            case EnqueueOp(d, id) =>
              Chain(r.q, d) == Chain(s.q, d) + [id] && r.q.cancelled == s.q.cancelled && r.q.complete == s.q.complete
            case CancelOps(d) =>
              Chain(r.q, d) == [] && r.q.cancelled == Chain(s.q, d) + s.q.cancelled && r.q.complete == s.q.complete
            case PerformOp(d, done) =>
              r.q.cancelled == s.q.cancelled
              && if done && Chain(s.q, d) != [] then
                   [r.q.complete[0]] + Chain(r.q, d) == Chain(s.q, d) && r.q.complete[1..] == s.q.complete
                 else r.q == s.q
            case PerformAllOps(d, done) =>
              exists k: nat :: k <= |Chain(s.q, d)| && Chain(r.q, d) == Chain(s.q, d)[k..]
                && r.q.complete == Reversed(Chain(s.q, d)[..k]) + s.q.complete && r.q.cancelled == s.q.cancelled
                && (forall a :: a in Chain(s.q, d)[..k] ==> a in done)
                && (Chain(r.q, d) != [] ==> Chain(r.q, d)[0] !in done)
            case PerformCancels =>
              r.q.ops == s.q.ops && r.q.cancelled == [] && r.q.complete == Reversed(s.q.cancelled) + s.q.complete
            case CompleteAll =>
              r.q == s.q.(complete := []) && r.gone == s.gone + s.q.complete
            case DestroyAll(rest) => r.q == Queue(map[], [], []) && r.gone == s.gone + s.q.cancelled + s.q.complete + rest
  {
  }

  lemma ListsConserve(s: State, e: Step)
    requires Conserved(s) && Legal(s, e) && (e.PerformCancels? || e.CompleteAll?)
    ensures Conserved(Apply(s, e))
  {
    ChainsOk(s);
    ReversedHas(s.q.cancelled);
    DistinctParts(Reversed(s.q.cancelled), s.q.complete);
    DistinctParts(s.gone, s.q.complete);
    var r := Apply(s, e);
    forall d: Descriptor ensures ChainOk(r, d) {
      assert ChainOk(s, d);
    }
    forall a | a in r.owner
      ensures ExactlyOne(Waiting(r, a), a in r.q.cancelled, a in r.q.complete, a in r.gone)
    {
      assert Waiting(r, a) == Waiting(s, a);
    }
    ConservedIf(r);
  }

  /** The places where an operation can be are apart. */
  lemma PlacesApart(s: State, rest: seq<Id>)
    requires Conserved(s) && Distinct(rest) && forall a :: a in rest <==> Waiting(s, a)
    ensures Distinct(s.gone + s.q.cancelled + s.q.complete + rest)
    ensures forall a :: a in s.gone + s.q.cancelled + s.q.complete + rest <==> a in s.owner
  {
    hide Distinct;
    DistinctParts(s.gone, s.q.cancelled);
    DistinctParts(s.gone + s.q.cancelled, s.q.complete);
    DistinctParts(s.gone + s.q.cancelled + s.q.complete, rest);
  }

  lemma DestroyConserves(s: State, rest: seq<Id>)
    requires Conserved(s) && Legal(s, DestroyAll(rest))
    ensures Conserved(Apply(s, DestroyAll(rest)))
  {
    var r := Apply(s, DestroyAll(rest));
    assert r.gone == s.gone + s.q.cancelled + s.q.complete + rest && r.owner == s.owner;
    assert r.q == Queue(map[], [], []) && forall a :: a in rest <==> Waiting(s, a);
    PlacesApart(s, rest);
    forall a | a in r.owner
      ensures ExactlyOne(Waiting(r, a), a in r.q.cancelled, a in r.q.complete, a in r.gone)
    {
      assert Waiting(s, a) == (a in rest);
    }
    forall d: Descriptor ensures ChainOk(r, d) {}
    assert Distinct(r.q.cancelled) && Distinct(r.q.complete);
    hide Conserved, Apply, Legal;
    ConservedIf(r);
  }

  /** Every step conserves the operations. */
  lemma StepConserves(s: State, e: Step)
    requires Conserved(s) && Legal(s, e)
    ensures Conserved(Apply(s, e))
  {
    hide Conserved;
    match e
    case EnqueueOp(d, id) => EnqueueConserves(s, d, id);
    case CancelOps(d) => CancelConserves(s, d);
    case PerformOp(d, done) =>
      if done && Chain(s.q, d) != [] {
        OneIsFirst(s, d);
        PerformAllConserves(s, d, 1);
      }
    case PerformAllOps(d, done) => PerformAllConserves(s, d, Finishing(Chain(s.q, d), done));
    case DestroyAll(rest) => DestroyConserves(s, rest);
    case _ => ListsConserve(s, e);
  }

  // ---- and the order ----

  lemma EnqueueOwn(s: State, d: Descriptor, id: Id)
    requires OrderOk(s, d) && id !in s.owner && id !in s.dropped
    ensures OrderOk(Apply(s, EnqueueOp(d, id)), d)
  {
    var log, performed, chain := Log(s.enqueued, d), Log(s.performed, d), Chain(s.q, d);
    DistinctParts(log, [id]);
    KeptOfSum(log, [id], s.dropped);
    assert Kept([id], s.dropped) == [id];
    assert performed + (chain + [id]) == (performed + chain) + [id];
  }

  lemma EnqueueOther(s: State, d: Descriptor, id: Id, e: Descriptor)
    requires OrderOk(s, e) && id !in s.owner && d != e
    ensures OrderOk(Apply(s, EnqueueOp(d, id)), e)
  {
    hide Kept, Distinct;
  }

  lemma EnqueueKeepsOrder(s: State, d: Descriptor, id: Id)
    requires InOrder(s) && id !in s.owner && id !in s.dropped
    ensures InOrder(Apply(s, EnqueueOp(d, id)))
  {
    hide Kept, Distinct;
    forall e: Descriptor ensures OrderOk(Apply(s, EnqueueOp(d, id)), e) {
      assert OrderOk(s, e);
      if e == d {
        EnqueueOwn(s, d, id);
      } else {
        EnqueueOther(s, d, id, e);
      }
    }
    hide OrderOk;
    InOrderIf(Apply(s, EnqueueOp(d, id)));
  }

  ghost predicate OrderOk(s: State, d: Descriptor) {
    && Distinct(Log(s.enqueued, d)) && (forall a :: a in Log(s.enqueued, d) <==> a in s.owner && s.owner[a] == d)
    && Kept(Log(s.enqueued, d), s.dropped) == Log(s.performed, d) + Chain(s.q, d)
  }

  lemma InOrderIf(s: State)
    requires forall d: Descriptor :: OrderOk(s, d)
    ensures InOrder(s)
  {
    forall d: Descriptor
      ensures Distinct(Log(s.enqueued, d))
      ensures forall a :: a in Log(s.enqueued, d) <==> a in s.owner && s.owner[a] == d
      ensures Kept(Log(s.enqueued, d), s.dropped) == Log(s.performed, d) + Chain(s.q, d)
    {
      assert OrderOk(s, d);
    }
  }

  lemma CancelKeepsOrder(s: State, d: Descriptor)
    requires InOrder(s) && Conserved(s)
    ensures InOrder(Apply(s, CancelOps(d)))
  {
    var r := Apply(s, CancelOps(d));
    var more := set a | a in Chain(s.q, d);
    ChainsOk(s);
    assert ChainOk(s, d);
    forall e: Descriptor ensures OrderOk(r, e) {
      assert OrderOk(s, e);
      if e == d {
        DropChain(s, d, more);
        assert Log(s.performed, d) + [] == Log(s.performed, d);
      } else {
        DropOthers(s, e, more);
      }
    }
    InOrderIf(r);
  }

  lemma PerformAllOrder(s: State, d: Descriptor, k: nat, e: Descriptor)
    requires OrderOk(s, e) && k <= |Chain(s.q, d)|
    ensures OrderOk(AfterAll(s, d, k), e)
  {
    hide Kept, Distinct, Reversed;
    var r, chain := AfterAll(s, d, k), Chain(s.q, d);
    if e == d {
      assert Chain(r.q, d) == chain[k..] && Log(r.performed, d) == Log(s.performed, d) + chain[..k];
      assert (Log(s.performed, d) + chain[..k]) + chain[k..] == Log(s.performed, d) + chain;
    } else {
      assert Chain(r.q, e) == Chain(s.q, e) && Log(r.performed, e) == Log(s.performed, e);
    }
  }

  lemma PerformAllKeepsOrder(s: State, d: Descriptor, k: nat)
    requires InOrder(s) && k <= |Chain(s.q, d)|
    ensures InOrder(AfterAll(s, d, k))
  {
    forall e: Descriptor ensures OrderOk(AfterAll(s, d, k), e) {
      assert OrderOk(s, e);
      PerformAllOrder(s, d, k, e);
    }
    hide OrderOk;
    InOrderIf(AfterAll(s, d, k));
  }

  lemma DestroyKeepsOrder(s: State, rest: seq<Id>)
    requires InOrder(s) && Conserved(s) && Legal(s, DestroyAll(rest))
    ensures InOrder(Apply(s, DestroyAll(rest)))
  {
    var r := Apply(s, DestroyAll(rest));
    var more := set a | a in rest;
    ChainsOk(s);
    forall e: Descriptor ensures OrderOk(r, e) {
      assert OrderOk(s, e) && ChainOk(s, e);
      forall a | a in Chain(s.q, e) ensures a in more {
        assert Waiting(s, a);
      }
      DropChain(s, e, more);
      assert Log(s.performed, e) + [] == Log(s.performed, e);
    }
    InOrderIf(r);
  }

  /** What was dropped had been enqueued. */
  ghost predicate DroppedWereEnqueued(s: State) {
    forall a :: a in s.dropped ==> a in s.owner
  }

  ghost predicate Fine(s: State) {
    Conserved(s) && InOrder(s) && DroppedWereEnqueued(s)
  }

  /** Every step keeps the invariant. */
  lemma StepKeeps(s: State, e: Step)
    requires Fine(s) && Legal(s, e)
    ensures Fine(Apply(s, e))
  {
    StepConserves(s, e);
    ChainsOk(s);
    hide Conserved, InOrder;
    match e
    case EnqueueOp(d, id) => EnqueueKeepsOrder(s, d, id);
    case CancelOps(d) =>
      assert ChainOk(s, d);
      CancelKeepsOrder(s, d);
    case PerformOp(d, done) =>
      if done && Chain(s.q, d) != [] {
        OneIsFirst(s, d);
        PerformAllKeepsOrder(s, d, 1);
      }
    case PerformAllOps(d, done) => PerformAllKeepsOrder(s, d, Finishing(Chain(s.q, d), done));
    case DestroyAll(rest) => DestroyKeepsOrder(s, rest);
    case _ => SameOrder(s, Apply(s, e));
  }

  lemma SameOrder(s: State, r: State)
    requires InOrder(s) && r.owner == s.owner && r.enqueued == s.enqueued && r.dropped == s.dropped
    requires r.performed == s.performed && r.q.ops == s.q.ops
    ensures InOrder(r)
  {
  }

  // ---- Whole runs ----

  /** In every run all operations enqueued are accounted for, each in exactly one place, and each
      descriptor's operations are performed in the order in which they were enqueued. */
  lemma {:induction false} RunsKeep(s: State, steps: seq<Step>)
    requires Fine(s) && AllLegal(s, steps)
    ensures Fine(Run(s, steps))
    decreases |steps|
  {
    if steps != [] {
      StepKeeps(s, steps[0]);
      RunsKeep(Apply(s, steps[0]), steps[1..]);
    }
  }

  /** An operation that has left does not leave again: the history only grows, and no run puts an
      operation in it twice. */
  lemma {:induction false} EachLeavesOnce(s: State, steps: seq<Step>)
    requires Fine(s) && AllLegal(s, steps)
    ensures s.gone <= Run(s, steps).gone && Distinct(Run(s, steps).gone)
    decreases |steps|
  {
    if steps != [] {
      StepKeeps(s, steps[0]);
      EachLeavesOnce(Apply(s, steps[0]), steps[1..]);
    }
  }

  /** After destroy_operations everything that was ever enqueued has left. */
  lemma DestroyingFreesAll(s: State, rest: seq<Id>)
    requires Fine(s) && Legal(s, DestroyAll(rest))
    ensures forall a :: a in Apply(s, DestroyAll(rest)).gone <==> a in s.owner
  {
    StepKeeps(s, DestroyAll(rest));
    var r := Apply(s, DestroyAll(rest));
    forall a | a in s.owner ensures a in r.gone {
      assert ExactlyOne(Waiting(r, a), a in r.q.cancelled, a in r.q.complete, a in r.gone);
    }
  }

  // ---- The order of the completion handlers ----

  /** The operations that a step moves to the complete list, in the order in which they finish. */
  function Finishes(s: State, e: Step): seq<Id> {
    match e
    case PerformOp(d, done) => if done && Chain(s.q, d) != [] then [Chain(s.q, d)[0]] else []
    case PerformAllOps(d, done) => Chain(s.q, d)[..Finishing(Chain(s.q, d), done)]
    case PerformCancels => s.q.cancelled
    case _ => []
  }

  ghost function Finished(s: State, steps: seq<Step>): seq<Id>
    requires AllLegal(s, steps)
    decreases |steps|
  {
    if steps == [] then [] else Finishes(s, steps[0]) + Finished(Apply(s, steps[0]), steps[1..])
  }

  /** A run that only gathers operations, for whatever descriptors and with whatever calls. */
  predicate Gathering(steps: seq<Step>) {
    forall i :: 0 <= i < |steps| ==> !steps[i].CompleteAll? && !steps[i].DestroyAll?
  }

  lemma FinishesOnTop(s: State, e: Step)
    requires Legal(s, e) && !e.CompleteAll? && !e.DestroyAll?
    ensures Apply(s, e).gone == s.gone && Apply(s, e).q.complete == Reversed(Finishes(s, e)) + s.q.complete
  {
    if e.PerformOp? && Finishes(s, e) != [] {
      assert Reversed([Chain(s.q, e.d)[0]]) == [Chain(s.q, e.d)[0]];
    }
  }

  /** The complete list is a stack. */
  lemma {:induction false} GatheredInReverse(s: State, steps: seq<Step>)
    requires AllLegal(s, steps) && Gathering(steps)
    ensures Run(s, steps).gone == s.gone
    ensures Run(s, steps).q.complete == Reversed(Finished(s, steps)) + s.q.complete
    decreases |steps|
  {
    if steps != [] {
      var next, rest := Apply(s, steps[0]), steps[1..];
      GatheredInReverse(next, rest);
      GatheredNext(s, steps);
    }
  }

  lemma GatheredNext(s: State, steps: seq<Step>)
    requires steps != [] && AllLegal(s, steps) && Gathering(steps)
    requires var next, rest := Apply(s, steps[0]), steps[1..];
             && Run(next, rest).gone == next.gone
             && Run(next, rest).q.complete == Reversed(Finished(next, rest)) + next.q.complete
    ensures Run(s, steps).gone == s.gone
    ensures Run(s, steps).q.complete == Reversed(Finished(s, steps)) + s.q.complete
  {
    hide Apply, Legal, Reversed, Finishes;
    var e, next := steps[0], Apply(s, steps[0]);
    var first, later := Finishes(s, e), Finished(next, steps[1..]);
    FinishesOnTop(s, e);
    ReversedOfSum(first, later);
    assert Reversed(later) + (Reversed(first) + s.q.complete) == (Reversed(later) + Reversed(first)) + s.q.complete;
  }

  /** So the handlers of all operations that finished since the last completion run in the order in
      which these finished exactly when there was at most one. */
  lemma CompletedInOrderIffOne(s: State, steps: seq<Step>)
    requires Fine(s) && AllLegal(s, steps) && Gathering(steps)
    ensures var f, r := Finished(s, steps), Apply(Run(s, steps), CompleteAll);
            && r.gone == s.gone + (Reversed(f) + s.q.complete)
            && (r.gone == s.gone + (f + s.q.complete) <==> |f| <= 1)
  {
    RunsKeep(s, steps);
    GatheredInReverse(s, steps);
    var f, done := Finished(s, steps), Run(s, steps).q.complete;
    assert Apply(Run(s, steps), CompleteAll).gone == s.gone + done;
    assert Distinct(done);
    hide Apply, Run, Finished, Fine, Legal, AllLegal, Distinct;
    ReversedAt(f);
    if |f| == 1 {
      assert Reversed(f) == [f[0]] == f;
    } else if |f| > 1 {
      assert (s.gone + done)[|s.gone|] == done[0] == f[|f| - 1] && done[|f| - 1] == f[0];
      NotTwice(done, |f| - 1);
      assert (s.gone + (f + s.q.complete))[|s.gone|] == f[0];
    }
  }

  lemma NotTwice(s: seq<Id>, j: nat)
    requires Distinct(s) && 0 < j < |s|
    ensures s[0] != s[j]
  {
  }

  lemma {:induction false} ReversedOfSum(s: seq<Id>, t: seq<Id>)
    ensures Reversed(s + t) == Reversed(t) + Reversed(s)
  {
    if s == [] {
      assert s + t == t;
    } else {
      ReversedOfSum(s[1..], t);
      assert (s + t)[1..] == s[1..] + t;
    }
  }

  lemma {:induction false} ReversedAt<T>(s: seq<T>)
    ensures forall i :: 0 <= i < |s| ==> Reversed(s)[i] == s[|s| - 1 - i]
  {
    if s != [] {
      ReversedAt(s[1..]);
    }
  }
}
