/** Wrapping stamps, and the timer that uses them to tell a wait begun before a cancel from one begun
    after it. Every wait is delivered once, with or without an error. */
module Timer {
  const MODULUS := 0x1_0000_0000
  const HALF := 0x8000_0000

  // ---- Comparison of wrapping integers of 32 bits ----

  type Stamp = x: int | 0 <= x < 0x1_0000_0000

  function ToUnsigned(x: int): Stamp {
    x % MODULUS
  }

  /** The cast to a signed type. */
  function ToSigned(x: Stamp): int {
    if x < HALF then x else x - MODULUS
  }

  /** wrappable_less: -dist is the same again when it is the least signed number. */
  predicate WrappableLess(left: Stamp, right: Stamp) {
    var dist := ToSigned(ToUnsigned(left - right));
    ToUnsigned(-dist) < ToUnsigned(dist)
  }

  /** wrappable_less_equal. */
  predicate WrappableLessEqual(left: Stamp, right: Stamp) {
    !WrappableLess(right, left)
  }

  /** wrappable_cmp. */
  function WrappableCmp(left: Stamp, right: Stamp): int {
    var dist := ToSigned(ToUnsigned(left - right));
    var down, up := ToUnsigned(dist), ToUnsigned(-dist);
    if up < down then -1 else if up == down then 0 else 1
  }

  /** Less means less than half a turn behind. */
  lemma LessIsBehind(left: Stamp, right: Stamp)
    ensures WrappableLess(left, right) <==> 0 < (right - left) % MODULUS < HALF
  {
    var d := (left - right) % MODULUS;
    assert (right - left) % MODULUS == if d == 0 then 0 else MODULUS - d;
  }

  /** Of two stamps one is less, unless they are equal or exactly half a turn apart; then neither is,
      and both are less or equal. */
  lemma LessIsStrict(left: Stamp, right: Stamp)
    ensures !(WrappableLess(left, right) && WrappableLess(right, left))
    ensures !WrappableLess(left, right) && !WrappableLess(right, left) <==> left == right || (left - right) % MODULUS == HALF
    ensures WrappableCmp(left, right) < 0 <==> WrappableLess(left, right)
    ensures WrappableCmp(left, right) > 0 <==> WrappableLess(right, left)
  {
    LessIsBehind(left, right);
    LessIsBehind(right, left);
    var d := (left - right) % MODULUS;
    assert (right - left) % MODULUS == if d == 0 then 0 else MODULUS - d;
    assert left - right == d || left - right == d - MODULUS;
  }

  // ---- The timer ----

  /** A wait under way: its stamp, and how many cancels there had been when it began. */
  datatype Wait = Wait(stamp: Stamp, begun: nat)

  /** The timer's fields, the waits under way, which are single waits or those of keep-waiting, and
      the number of cancels so far. */
  datatype State = State(opStamp: Stamp, opCancel: Stamp, waiting: bool, keeping: bool, waitCount: int,
                         repeat: nat, repeated: nat, singles: multiset<Wait>, keeps: multiset<Wait>, cancels: nat)

  datatype Event = Cancel | AsyncWait | KeepWaiting(repeat: nat) | Timeout(wait: Wait, keep: bool, error: bool)

  function NextStamp(x: Stamp): Stamp {
    ToUnsigned(x + 1)
  }

  /** is_canceled_op. */
  predicate IsCanceled(s: State, stamp: Stamp) {
    WrappableLessEqual(stamp, s.opCancel)
  }

  /** After construction, with the first stamp taken. */
  function Init(): State {
    State(NextStamp(0), 0, false, false, 0, 0, 0, multiset{}, multiset{}, 0)
  }

  predicate Legal(s: State, e: Event) {
    e.Timeout? ==> e.wait in if e.keep then s.keeps else s.singles
  }

  /** Whether the timer's signal is emitted. */
  predicate Fires(s: State, e: Event) {
    e.Timeout? && !e.error && !IsCanceled(s, e.wait.stamp)
  }

  function OnCancel(s: State): State {
    s.(repeat := 0, waiting := false, keeping := false, opCancel := s.opStamp, opStamp := NextStamp(s.opStamp), cancels := s.cancels + 1)
  }

  function OnWait(s: State): State {
    s.(waiting := true, waitCount := s.waitCount + 1, singles := s.singles + multiset{Wait(s.opStamp, s.cancels)})
  }

  function OnKeepWaiting(s: State, repeat: nat): State {
    s.(repeat := repeat, repeated := 0, keeping := true, keeps := s.keeps + multiset{Wait(s.opStamp, s.cancels)})
  }

  /** async_wait_next, for a counter of expirations that has not reached the largest size_t. */
  function OnNext(s: State): State {
    if (s.waiting || s.keeping) && s.repeated < s.repeat then
      s.(keeps := s.keeps + multiset{Wait(s.opStamp, s.cancels)})
    else s.(keeping := false)
  }

  /** The wait is no longer under way. */
  function Counted(s: State, wait: Wait, keep: bool): State {
    if keep then s.(keeps := s.keeps - multiset{wait})
    else s.(singles := s.singles - multiset{wait}, waitCount := s.waitCount - 1,
            waiting := s.waiting && s.waitCount - 1 != 0)
  }

  /** handle_timeout. */
  function OnTimeout(s: State, wait: Wait, keep: bool, error: bool): State {
    var counted := Counted(s, wait, keep);
    if error || IsCanceled(s, wait.stamp) || !keep then counted
    else OnNext(counted.(repeated := s.repeated + 1))
  }

  function Apply(s: State, e: Event): State {
    match e
    case Cancel => OnCancel(s)
    case AsyncWait => OnWait(s)
    case KeepWaiting(repeat) => OnKeepWaiting(s, repeat)
    case Timeout(wait, keep, error) => OnTimeout(s, wait, keep, error)
  }

  // ---- What every run keeps ----

  ghost predicate Inv(s: State) {
    && s.opStamp == (s.cancels + 1) % MODULUS && s.opCancel == s.cancels % MODULUS
    && s.waitCount == |s.singles| && (s.waiting ==> s.waitCount > 0)
    && AllStamped(s.singles, s.cancels) && AllStamped(s.keeps, s.cancels)
    && (HasLive(s) ==> s.waiting)
  }

  /** A single wait is under way that was begun after the last cancel. */
  ghost predicate HasLive(s: State) {
    exists w :: w in s.singles && w.begun == s.cancels
  }

  ghost predicate AllStamped(waits: multiset<Wait>, cancels: nat) {
    forall w :: w in waits ==> Stamped(w, cancels)
  }

  predicate Stamped(w: Wait, cancels: nat) {
    w.begun <= cancels && w.stamp == (w.begun + 1) % MODULUS
  }

  lemma StampedLater(waits: multiset<Wait>, cancels: nat)
    requires AllStamped(waits, cancels)
    ensures AllStamped(waits, cancels + 1)
  {
    forall w | w in waits ensures Stamped(w, cancels + 1) {
      assert Stamped(w, cancels);
    }
  }

  lemma OneMoreStamped(waits: multiset<Wait>, w: Wait, cancels: nat)
    requires AllStamped(waits, cancels) && Stamped(w, cancels)
    ensures AllStamped(waits + multiset{w}, cancels) && AllStamped(waits - multiset{w}, cancels)
  {
  }

  lemma CancelKeepsInv(s: State)
    requires Inv(s)
    ensures Inv(OnCancel(s))
  {
    StampedLater(s.singles, s.cancels);
    StampedLater(s.keeps, s.cancels);
    NoneLiveAfter(s);
    hide AllStamped, NextStamp, HasLive;
    StampAfter(s.cancels + 1);
  }

  lemma NoneLiveAfter(s: State)
    requires AllStamped(s.singles, s.cancels)
    ensures !HasLive(OnCancel(s))
  {
    forall w | w in s.singles ensures w.begun != s.cancels + 1 {
      assert Stamped(w, s.cancels);
    }
  }

  lemma StampAfter(k: nat)
    ensures NextStamp(k % MODULUS) == (k + 1) % MODULUS
  {
  }

  lemma NextKeepsInv(s: State)
    requires Inv(s)
    ensures Inv(OnNext(s))
  {
    OneMoreStamped(s.keeps, Wait(s.opStamp, s.cancels), s.cancels);
    hide AllStamped;
  }

  lemma TimeoutKeepsInv(s: State, wait: Wait, keep: bool, error: bool)
    requires Inv(s) && Legal(s, Timeout(wait, keep, error))
    ensures Inv(OnTimeout(s, wait, keep, error))
  {
    hide Inv, Counted, OnNext, IsCanceled;
    CountedKeepsInv(s, wait, keep);
    var counted := Counted(s, wait, keep);
    RepeatedKeepsInv(counted, s.repeated + 1);
    NextKeepsInv(counted.(repeated := s.repeated + 1));
  }

  lemma RepeatedKeepsInv(s: State, repeated: nat)
    requires Inv(s)
    ensures Inv(s.(repeated := repeated))
  {
  }

  lemma CountedKeepsInv(s: State, wait: Wait, keep: bool)
    requires Inv(s) && wait in if keep then s.keeps else s.singles
    ensures Inv(Counted(s, wait, keep))
  {
    hide Stamped;
    assert Stamped(wait, s.cancels);
    if keep {
      OneMoreStamped(s.keeps, wait, s.cancels);
    } else {
      OneMoreStamped(s.singles, wait, s.cancels);
      assert |s.singles| == |s.singles - multiset{wait}| + 1;
    }
    hide AllStamped;
  }

  lemma EventKeepsInv(s: State, e: Event)
    requires Inv(s) && Legal(s, e)
    ensures Inv(Apply(s, e))
  {
    match e
    case Cancel => CancelKeepsInv(s);
    case AsyncWait =>
      OneMoreStamped(s.singles, Wait(s.opStamp, s.cancels), s.cancels);
      hide AllStamped;
    case KeepWaiting(repeat) =>
      OneMoreStamped(s.keeps, Wait(s.opStamp, s.cancels), s.cancels);
      hide AllStamped;
    case Timeout(wait, keep, error) =>
      hide Inv, OnTimeout;
      TimeoutKeepsInv(s, wait, keep, error);
  }

  ghost predicate AllLegal(s: State, events: seq<Event>)
    decreases |events|
  {
    events != [] ==> Legal(s, events[0]) && AllLegal(Apply(s, events[0]), events[1..])
  }

  ghost function Run(s: State, events: seq<Event>): State
    decreases |events|
  {
    if events == [] then s else Run(Apply(s, events[0]), events[1..])
  }

  lemma {:induction false} RunsKeepInv(s: State, events: seq<Event>)
    requires Inv(s) && AllLegal(s, events)
    ensures Inv(Run(s, events))
    decreases |events|
  {
    if events != [] {
      EventKeepsInv(s, events[0]);
      RunsKeepInv(Apply(s, events[0]), events[1..]);
    }
  }

  // ---- The stamp rule ----

  /** In every run a wait under way is taken for cancelled exactly if there was a cancel since it
      began and the number of further cancels is at most half a turn, after any full turns. */
  lemma CanceledMeansCancels(events: seq<Event>, wait: Wait)
    requires AllLegal(Init(), events)
    requires var s := Run(Init(), events); wait in s.singles || wait in s.keeps
    ensures var s := Run(Init(), events);
            var n := s.cancels - wait.begun;
            n >= 0 && (IsCanceled(s, wait.stamp) <==> n >= 1 && (n - 1) % MODULUS <= HALF)
  {
    RunsKeepInv(Init(), events);
    var s := Run(Init(), events);
    assert Stamped(wait, s.cancels);
    var n := s.cancels - wait.begun;
    LessIsBehind(s.opCancel, wait.stamp);
    BehindBy(s.cancels, wait.begun);
    if n == 0 {
      assert (1 as int) % MODULUS == 1;
    } else {
      Turned(n - 1);
    }
  }

  /** The stamp of the wait less the mark of the last cancel is 1 - n. */
  lemma BehindBy(cancels: nat, begun: nat)
    requires begun <= cancels
    ensures ((begun + 1) % MODULUS - cancels % MODULUS) % MODULUS == (1 - (cancels - begun)) % MODULUS
  {
  }

  lemma Turned(k: int)
    requires k >= 0
    ensures (-k) % MODULUS == if k % MODULUS == 0 then 0 else MODULUS - k % MODULUS
  {
    var q, r := k / MODULUS, k % MODULUS;
    if r == 0 {
      RemainderIs(-k, -q, 0);
    } else {
      RemainderIs(-k, -q - 1, MODULUS - r);
    }
  }

  lemma RemainderIs(x: int, q: int, r: int)
    requires x == MODULUS * q + r && 0 <= r < MODULUS
    ensures x % MODULUS == r
  {
  }

  /** So while there are not more than 2^31 + 1 cancels, no wait begun before the last cancel fires,
      and a wait begun since fires unless it ends with an error. */
  lemma NoFiringAcrossACancel(events: seq<Event>, wait: Wait, keep: bool, error: bool)
    requires AllLegal(Init(), events) && Legal(Run(Init(), events), Timeout(wait, keep, error))
    requires Run(Init(), events).cancels - wait.begun <= HALF + 1
    ensures var s := Run(Init(), events);
            Fires(s, Timeout(wait, keep, error)) <==> !error && wait.begun == s.cancels
  {
    CanceledMeansCancels(events, wait);
  }

  /** With one more cancel a wait begun before all of them is taken for a live one. */
  lemma OneCancelMore(s: State, wait: Wait)
    requires Inv(s) && wait in s.singles && s.cancels - wait.begun == HALF + 2
    ensures Fires(s, Timeout(wait, false, false))
  {
    assert Stamped(wait, s.cancels);
    LessIsBehind(s.opCancel, wait.stamp);
    BehindBy(s.cancels, wait.begun);
    Turned(HALF + 1);
  }

  function Cancels(k: nat): (events: seq<Event>)
    ensures |events| == k
  {
    if k == 0 then [] else [Cancel] + Cancels(k - 1)
  }

  /** Cancelling `k` times does nothing to the waits under way. */
  lemma {:induction false} CancelsOnly(s: State, k: nat)
    ensures AllLegal(s, Cancels(k))
    ensures var r := Run(s, Cancels(k)); r.singles == s.singles && r.keeps == s.keeps && r.cancels == s.cancels + k
    decreases k
  {
    if k > 0 {
      CancelsOnly(OnCancel(s), k - 1);
      assert Cancels(k)[1..] == Cancels(k - 1);
    }
  }

  /** A new timer waits and is then cancelled 2^31 + 2 times: its wait fires all the same. */
  lemma TooManyCancels()
    ensures var events := [AsyncWait] + Cancels(HALF + 2);
            AllLegal(Init(), events) && Fires(Run(Init(), events), Timeout(Wait(1, 0), false, false))
            && Legal(Run(Init(), events), Timeout(Wait(1, 0), false, false))
  {
    var events, s := [AsyncWait] + Cancels(HALF + 2), OnWait(Init());
    assert events[1..] == Cancels(HALF + 2) && events[0] == AsyncWait;
    hide Cancels;
    CancelsOnly(s, HALF + 2);
    assert AllLegal(Init(), events) && Run(Init(), events) == Run(s, Cancels(HALF + 2));
    InitInv();
    RunsKeepInv(Init(), events);
    OneCancelMore(Run(Init(), events), Wait(1, 0));
  }

  lemma InitInv()
    ensures Inv(Init())
  {
  }

  // ---- When the timer is idle ----

  /** is_idle. */
  predicate IsIdle(s: State) {
    !s.waiting && !s.keeping
  }

  /** In every run a timer that calls itself idle has no single wait under way that was begun after the
      last cancel. */
  lemma IdleHasNoLiveWait(events: seq<Event>, wait: Wait)
    requires AllLegal(Init(), events) && IsIdle(Run(Init(), events)) && wait in Run(Init(), events).singles
    ensures wait.begun < Run(Init(), events).cancels
  {
    InitInv();
    RunsKeepInv(Init(), events);
    assert Stamped(wait, Run(Init(), events).cancels);
  }

  /** A completion that does not fire ends its wait and begins none. */
  lemma NotFiringEndsIt(s: State, e: Event)
    requires Legal(s, e) && e.Timeout? && !Fires(s, e)
    ensures var r := Apply(s, e);
            && r.singles + r.keeps == s.singles + s.keeps - multiset{e.wait}
            && r.repeat == s.repeat && r.repeated == s.repeated && r.keeping == s.keeping && r.cancels == s.cancels
            && (r.waiting ==> s.waiting) && r.singles <= s.singles && r.keeps <= s.keeps
  {
    hide IsCanceled;
    OneLess(s.singles, s.keeps, e.wait);
    OneLess(s.keeps, s.singles, e.wait);
    assert Apply(s, e) == Counted(s, e.wait, e.keep);
    hide *;
  }

  lemma OneLess(a: multiset<Wait>, b: multiset<Wait>, w: Wait)
    ensures a - multiset{w} <= a
    ensures w in a ==> (a - multiset{w}) + b == a + b - multiset{w} && b + (a - multiset{w}) == b + a - multiset{w}
  {
  }

  ghost predicate NoneFires(s: State, events: seq<Event>)
    decreases |events|
  {
    events != [] ==> !Fires(s, events[0]) && NoneFires(Apply(s, events[0]), events[1..])
  }

  function CountCancels(events: seq<Event>): nat {
    if events == [] then 0 else (if events[0].Cancel? then 1 else 0) + CountCancels(events[1..])
  }

  /** All waits under way were begun before the last cancel, and with `more` cancels not too many ago. */
  ghost predicate AllStale(s: State, more: nat) {
    forall w :: w in s.singles || w in s.keeps ==> 1 <= s.cancels - w.begun && s.cancels - w.begun + more <= HALF + 1
  }

  predicate BeginsNone(e: Event) {
    e.Cancel? || e.Timeout?
  }

  lemma StaleIsCanceled(s: State, wait: Wait)
    requires Inv(s) && (wait in s.singles || wait in s.keeps) && 1 <= s.cancels - wait.begun <= HALF + 1
    ensures IsCanceled(s, wait.stamp)
  {
    assert Stamped(wait, s.cancels);
    LessIsBehind(s.opCancel, wait.stamp);
    BehindBy(s.cancels, wait.begun);
    Turned(s.cancels - wait.begun - 1);
  }

  /** A step of a cancelled timer that begins no wait. */
  lemma StaleStep(s: State, e: Event, more: nat)
    requires Inv(s) && Legal(s, e) && BeginsNone(e) && IsIdle(s) && AllStale(s, (if e.Cancel? then 1 else 0) + more)
    ensures !Fires(s, e)
    ensures var r := Apply(s, e); IsIdle(r) && AllStale(r, more) && r.singles <= s.singles && r.keeps <= s.keeps
  {
    if e.Timeout? {
      StaleIsCanceled(s, e.wait);
      NotFiringEndsIt(s, e);
    }
    hide IsCanceled, Inv;
  }

  lemma {:induction false} StaleRun(s: State, events: seq<Event>)
    requires Inv(s) && AllLegal(s, events) && IsIdle(s) && AllStale(s, CountCancels(events))
    requires forall e :: e in events ==> BeginsNone(e)
    ensures NoneFires(s, events)
    ensures var r := Run(s, events); IsIdle(r) && r.singles <= s.singles && r.keeps <= s.keeps
    decreases |events|
  {
    if events != [] {
      StaleStep(s, events[0], CountCancels(events[1..]));
      EventKeepsInv(s, events[0]);
      hide Inv, AllStale, IsIdle, Fires, Apply;
      StaleRun(Apply(s, events[0]), events[1..]);
    }
  }

  /** After cancel, until another wait is begun, nothing fires, the timer is idle, and no wait is
      renewed: those under way only end. This holds as long as the oldest of them was begun at most half
      a turn plus one cancels ago. */
  lemma CancelStopsAll(before: seq<Event>, events: seq<Event>)
    requires AllLegal(Init(), before)
    requires var s := Run(Init(), before);
             AllLegal(OnCancel(s), events) && AllStale(OnCancel(s), CountCancels(events))
    requires forall e :: e in events ==> BeginsNone(e)
    ensures var s := Run(Init(), before);
            var r := Run(OnCancel(s), events);
            NoneFires(OnCancel(s), events) && IsIdle(r) && r.singles <= s.singles && r.keeps <= s.keeps
  {
    InitInv();
    RunsKeepInv(Init(), before);
    var s := Run(Init(), before);
    CancelKeepsInv(s);
    StaleRun(OnCancel(s), events);
  }

  // ---- Keep waiting ----

  /** `k` expirations of a timer that keeps waiting. */
  ghost function Ticks(s: State, k: nat): State {
    if k == 0 then s else Tick(Ticks(s, k - 1))
  }

  ghost function Tick(t: State): State {
    Apply(t, Timeout(Wait(t.opStamp, t.cancels), true, false))
  }

  ghost predicate TickFires(t: State) {
    Fires(t, Timeout(Wait(t.opStamp, t.cancels), true, false))
  }

  /** How often: the first expiration counts, and there is one in any case. */
  function Times(repeat: nat): nat {
    if repeat == 0 then 1 else repeat
  }

  /** The state after `k` expirations of a timer that was told to keep waiting in state `s`. */
  ghost predicate AfterTicks(s: State, repeat: nat, k: nat, t: State) {
    && Inv(t) && t.opStamp == s.opStamp && t.cancels == s.cancels && t.repeated == k && t.repeat == repeat
    && t.singles == s.singles && t.keeping == (k < Times(repeat)) && t.waiting == s.waiting
    && t.keeps == (if k < Times(repeat) then multiset{Wait(s.opStamp, s.cancels)} else multiset{})
  }

  lemma OneTick(s: State, repeat: nat, k: nat, t: State)
    requires AfterTicks(s, repeat, k, t) && k < Times(repeat)
    ensures TickFires(t) && AfterTicks(s, repeat, k + 1, Tick(t))
  {
    NotCanceledNow(t);
    EventKeepsInv(t, Timeout(Wait(t.opStamp, t.cancels), true, false));
    hide Inv, IsCanceled;
  }

  /** A timer that keeps waiting, without cancel or error, expires as often as it was told, the first
      expiration included, but at least once, and fires each time; then nothing is under way. */
  lemma {:induction false} KeepsWaitingThatOften(s: State, repeat: nat, k: nat)
    requires Inv(s) && s.keeps == multiset{} && k <= Times(repeat)
    ensures AfterTicks(s, repeat, k, Ticks(OnKeepWaiting(s, repeat), k))
    ensures forall i: nat :: i < k ==> TickFires(Ticks(OnKeepWaiting(s, repeat), i))
    decreases k
  {
    hide Inv, TickFires, AfterTicks, Tick, OnKeepWaiting;
    if k == 0 {
      FirstTick(s, repeat);
    } else {
      KeepsWaitingThatOften(s, repeat, k - 1);
      OneTick(s, repeat, k - 1, Ticks(OnKeepWaiting(s, repeat), k - 1));
    }
  }

  lemma FirstTick(s: State, repeat: nat)
    requires Inv(s) && s.keeps == multiset{}
    ensures AfterTicks(s, repeat, 0, OnKeepWaiting(s, repeat))
  {
    EventKeepsInv(s, KeepWaiting(repeat));
    hide Inv;
  }

  lemma NotCanceledNow(s: State)
    requires Inv(s)
    ensures !IsCanceled(s, s.opStamp)
  {
    LessIsBehind(s.opCancel, s.opStamp);
    BehindBy(s.cancels, s.cancels);
  }

  // ---- The timer as an object ----

  class BasicTimer {
    var opStamp: Stamp
    var opCancel: Stamp
    var asyncWaiting: bool
    var asyncKeepWaiting: bool
    var asyncWaitCnt: int
    var repeatTimes: nat
    var repeatedTimes: nat
    ghost var singles: multiset<Wait>
    ghost var keeps: multiset<Wait>
    ghost var cancels: nat

    ghost function St(): State
      reads this
    {
      State(opStamp, opCancel, asyncWaiting, asyncKeepWaiting, asyncWaitCnt, repeatTimes, repeatedTimes, singles, keeps, cancels)
    }

    ghost predicate Valid()
      reads this
    {
      Inv(St())
    }

    constructor ()
      ensures St() == Init() && Valid()
    {
      opStamp, opCancel, asyncWaiting, asyncKeepWaiting, asyncWaitCnt := NextStamp(0), 0, false, false, 0;
      repeatTimes, repeatedTimes := 0, 0;
      singles, keeps, cancels := multiset{}, multiset{}, 0;
    }

    method Cancel()
      requires Valid()
      modifies this
      ensures Valid() && St() == Apply(old(St()), Event.Cancel)
    {
      hide Inv, ToUnsigned;
      EventKeepsInv(St(), Event.Cancel);
      repeatTimes := 0;
      asyncWaiting, asyncKeepWaiting := false, false;
      opCancel := opStamp;
      opStamp := NextStamp(opStamp);
      cancels := cancels + 1;
    }

    method AsyncWait() returns (stamp: Stamp)
      requires Valid()
      modifies this
      ensures Valid() && St() == Apply(old(St()), Event.AsyncWait) && stamp == opStamp
    {
      hide Inv, ToUnsigned;
      EventKeepsInv(St(), Event.AsyncWait);
      asyncWaiting := true;
      asyncWaitCnt := asyncWaitCnt + 1;
      stamp := opStamp;
      singles := singles + multiset{Wait(stamp, cancels)};
    }

    method AsyncKeepWaiting(times: nat) returns (stamp: Stamp)
      requires Valid()
      modifies this
      ensures Valid() && St() == Apply(old(St()), KeepWaiting(times)) && stamp == opStamp
    {
      hide Inv, ToUnsigned;
      EventKeepsInv(St(), KeepWaiting(times));
      repeatTimes := times;
      repeatedTimes := 0;
      asyncKeepWaiting := true;
      stamp := opStamp;
      keeps := keeps + multiset{Wait(stamp, cancels)};
    }

    method AsyncWaitNext()
      modifies this
      ensures St() == OnNext(old(St()))
    {
      if (asyncWaiting || asyncKeepWaiting) && repeatedTimes < repeatTimes {
        keeps := keeps + multiset{Wait(opStamp, cancels)};
      } else {
        asyncKeepWaiting := false;
      }
    }

    method CountDown(keepWaiting: bool, ghost wait: Wait)
      modifies this
      ensures St() == Counted(old(St()), wait, keepWaiting)
    {
      if !keepWaiting {
        asyncWaitCnt := asyncWaitCnt - 1;
        if asyncWaitCnt == 0 {
          asyncWaiting := false;
        }
        singles := singles - multiset{wait};
      } else {
        keeps := keeps - multiset{wait};
      }
    }

    /** handle_timeout; the result tells whether the signal is emitted. */
    method HandleTimeout(error: bool, keepWaiting: bool, stamp: Stamp, ghost begun: nat) returns (fired: bool)
      requires Valid() && Legal(St(), Timeout(Wait(stamp, begun), keepWaiting, error))
      modifies this
      ensures Valid() && St() == Apply(old(St()), Timeout(Wait(stamp, begun), keepWaiting, error))
      ensures fired == Fires(old(St()), Timeout(Wait(stamp, begun), keepWaiting, error))
    {
      hide Inv, WrappableLessEqual, Counted, OnNext;
      ghost var wait := Wait(stamp, begun);
      EventKeepsInv(St(), Timeout(wait, keepWaiting, error));
      CancelStays(St(), wait, keepWaiting);
      CountDown(keepWaiting, wait);
      fired := false;
      if !error {
        if !WrappableLessEqual(stamp, opCancel) {
          if keepWaiting {
            repeatedTimes := repeatedTimes + 1;
            AsyncWaitNext();
          }
          fired := true;
        }
      }
    }
  }

  lemma CancelStays(s: State, wait: Wait, keep: bool)
    ensures Counted(s, wait, keep).opCancel == s.opCancel && Counted(s, wait, keep).repeated == s.repeated
  {
  }
}
