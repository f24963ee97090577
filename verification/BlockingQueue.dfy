/**
 The multi-producer multi-consumer blocking queue (`mpmc_blocking_queue`).

 First the critical sections, as methods over the ring buffer. Then any number of threads around one
 queue, as an interleaved step system: a step is one critical section of the mutex (a condition
 variable's wait releases the mutex and falls asleep in the same step that found the predicate
 false), one notification sent after the mutex was released, or a wake-up. Notifications wake any one
 sleeper, wake-ups may be spurious, and timed waits may expire at any moment.
 */
module BlockingQueue {
  import opened Wrappers
  import opened CircularQueue
  import opened Sequences

  datatype Msg = Log(id: int) | Flush(id: int) | Terminate

  datatype Policy = Block | OverrunOldest | DiscardNew

  // ---------------------------------------------------------------- critical sections

  datatype EnqueueOutcome = MustWait | Stored(ring: Ring<Msg>) | Refused

  /** What one pass through the mutex does for a producer. */
  function EnqueueSection(r: Ring<Msg>, m: Msg, policy: Policy): EnqueueOutcome {
    match policy
    case Block => if r.Full() then MustWait else Stored(r.PushBack(m))
    case OverrunOldest => Stored(r.PushBack(m))
    case DiscardNew => if r.Full() then Refused else Stored(r.PushBack(m))
  }

  /** The queue object, one method per critical section; waiting itself is in the step system below. */
  class MpmcBlockingQueue {
    const q: CircularQ<Msg>
    var discardCounter: nat

    ghost predicate Valid()
      reads this, q
    {
      q.Valid() && q.maxItems > 0
    }

    /** How many messages fit: one cell of the array stays free. */
    ghost function Room(): nat
      reads this, q
      requires Valid()
    {
      q.v.Length - 1
    }

    constructor (maxItems: nat)
      ensures Valid() && fresh(q) && fresh(q.v)
      ensures q.Abs() == EmptyRing(maxItems) && discardCounter == 0
    {
      q := new CircularQ<Msg>.WithCapacity(maxItems);
      discardCounter := 0;
    }

    /** The body of `enqueue` under the lock; `pushed` is false when the predicate of `pop_cv_` fails. */
    method TryEnqueue(item: Msg) returns (pushed: bool)
      requires Valid()
      modifies q, q.v
      ensures Valid() && q.v == old(q.v)
      ensures EnqueueSection(old(q.Abs()), item, Block) == if pushed then Stored(q.Abs()) else MustWait
      ensures !pushed ==> q.Abs() == old(q.Abs())
      ensures pushed <==> |old(q.Contents())| < Room()
      ensures q.Contents() == if pushed then old(q.Contents()) + [item] else old(q.Contents())
    {
      pushed := !q.Full();
      if pushed {
        q.PushBack(item);
      }
    }

    method EnqueueNowait(item: Msg)
      requires Valid()
      modifies q, q.v
      ensures Valid() && q.v == old(q.v)
      ensures EnqueueSection(old(q.Abs()), item, OverrunOldest) == Stored(q.Abs())
      ensures q.Contents() == if |old(q.Contents())| < Room() then old(q.Contents()) + [item]
                              else if Room() == 0 then [] else old(q.Contents())[1..] + [item]
    {
      q.PushBack(item);
    }

    method EnqueueIfHaveRoom(item: Msg) returns (pushed: bool)
      requires Valid()
      modifies this`discardCounter, q, q.v
      ensures Valid() && q.v == old(q.v)
      ensures EnqueueSection(old(q.Abs()), item, DiscardNew) == if pushed then Stored(q.Abs()) else Refused
      ensures !pushed ==> q.Abs() == old(q.Abs())
      ensures pushed <==> |old(q.Contents())| < Room()
      ensures q.Contents() == if pushed then old(q.Contents()) + [item] else old(q.Contents())
      ensures discardCounter == old(discardCounter) + if pushed then 0 else 1
    {
      pushed := false;
      if !q.Full() {
        q.PushBack(item);
        pushed := true;
      }
      if !pushed {
        discardCounter := discardCounter + 1;
      }
    }

    method ResetOverrunCounter()
      requires Valid()
      modifies q
      ensures Valid() && q.v == old(q.v) && q.Abs() == old(q.Abs()).(overrun := 0)
    {
      q.ResetOverrunCounter();
    }

    method ResetDiscardCounter()
      modifies this`discardCounter
      ensures discardCounter == 0
    {
      discardCounter := 0;
    }

    /** The body of `dequeue` and `dequeue_for` under the lock; None when the predicate of `push_cv_` fails. */
    method TryDequeue() returns (popped: Option<Msg>)
      requires Valid()
      modifies q
      ensures Valid() && q.v == old(q.v)
      ensures popped.None? <==> old(q.Contents()) == []
      ensures popped.None? ==> q.Abs() == old(q.Abs())
      ensures popped.Some? ==> popped.value == old(q.Contents())[0] && q.Abs() == old(q.Abs()).PopFront()
    {
      if q.Empty() {
        popped := None;
      } else {
        popped := Some(q.Front());
        q.PopFront();
      }
    }
  }

  // ---------------------------------------------------------------- threads

  datatype Pc =
    | Idle                                // not inside a queue operation
    | Posting(m: Msg, policy: Policy)     // about to lock the mutex in an enqueue operation
    | PopWait(m: Msg)                     // asleep on pop_cv_
    | PopAwake(m: Msg)                    // woken on pop_cv_, has to relock and test again
    | PushNotify                          // stored, unlocked, push_cv_.notify_one() still to come
    | Discarding                          // refused, unlocked, ++discard_counter_ still to come
    | Taking(timed: bool)                 // about to lock the mutex in a dequeue operation
    | PushWait(timed: bool)               // asleep on push_cv_
    | PushAwake(timed: bool)              // woken on push_cv_, has to relock and test again
    | Expired                             // timed out on push_cv_, has to relock and test once more
    | PopNotify(m: Msg)                   // took m, unlocked, pop_cv_.notify_one() still to come
    | Returned(m: Msg)                    // the dequeue operation returned m

  /** Threads, queue and history. `posted` lists the messages in the order in which their enqueue
      critical sections decided about them; `lost` were overrun, `refused` were turned away. What has been
      counted before the counters were last reset is in `overrunsReset` and `discardsReset`. */
  datatype State = State(
    ring: Ring<Msg>,
    discardCounter: nat,
    pcs: seq<Pc>,
    posted: seq<Msg>,
    dequeued: seq<Msg>,
    lost: seq<Msg>,
    refused: seq<Msg>,
    overrunsReset: nat,
    discardsReset: nat)

  datatype Event =
    | CallEnqueue(t: nat, m: Msg, policy: Policy)
    | CallDequeue(t: nat, timed: bool)
    | LockEnqueue(t: nat)
    | LockDequeue(t: nat)
    | NotifyPush(t: nat, wake: Option<nat>)
    | NotifyPop(t: nat, wake: Option<nat>)
    | CountDiscard(t: nat)
    | Spurious(t: nat)
    | Timeout(t: nat)
    | Return(t: nat)
    | ResetOverrun(t: nat)
    | ResetDiscard(t: nat)

  function Init(cap: nat, threads: nat): State {
    State(EmptyRing(cap), 0, seq(threads, i => Idle), [], [], [], [], 0, 0)
  }

  function SetPc(s: State, t: nat, pc: Pc): State
    requires t < |s.pcs|
  {
    s.(pcs := s.pcs[t := pc])
  }

  function Enqueued(s: State, t: nat, m: Msg, policy: Policy): State
    requires t < |s.pcs|
  {
    match EnqueueSection(s.ring, m, policy)
    case MustWait => SetPc(s, t, PopWait(m))
    case Stored(ring) =>
      SetPc(s, t, PushNotify).(ring := ring, posted := s.posted + [m],
      lost := if s.ring.Full() then s.lost + [(s.ring.items + [m])[0]] else s.lost)
    case Refused =>
      SetPc(s, t, Discarding).(posted := s.posted + [m], refused := s.refused + [m])
  }

  /** `whenEmpty` is where the thread goes when there is nothing to take. */
  function Dequeued(s: State, t: nat, whenEmpty: Pc): State
    requires t < |s.pcs|
  {
    if s.ring.items == [] then SetPc(s, t, whenEmpty)
    else
      var m := s.ring.items[0];
      SetPc(s, t, PopNotify(m)).(ring := s.ring.PopFront(), dequeued := s.dequeued + [m])
  }

  /** The thread that a notification wakes: any sleeper, and nobody only when nobody sleeps. */
  predicate WakesOne(pcs: seq<Pc>, asleep: Pc -> bool, wake: Option<nat>) {
    match wake
    case Some(w) => w < |pcs| && asleep(pcs[w])
    case None => forall i :: 0 <= i < |pcs| ==> !asleep(pcs[i])
  }

  function Woken(pc: Pc): Pc {
    match pc
    case PopWait(m) => PopAwake(m)
    case PushWait(timed) => PushAwake(timed)
    case _ => pc
  }

  function WakeUp(pcs: seq<Pc>, wake: Option<nat>): seq<Pc>
    requires wake.Some? ==> wake.value < |pcs|
  {
    match wake
    case Some(w) => pcs[w := Woken(pcs[w])]
    case None => pcs
  }

  predicate OnPushCv(pc: Pc) { pc.PushWait? }
  predicate OnPopCv(pc: Pc) { pc.PopWait? }
  predicate Sleeps(pc: Pc) { pc.PopWait? || pc.PushWait? }

  /** One step of thread `e.t`; None when the step is not possible. */
  function Next(s: State, e: Event): Option<State> {
    if e.t >= |s.pcs| then None
    else
      var pc := s.pcs[e.t];
      match e
      case CallEnqueue(t, m, policy) => if pc == Idle then Some(SetPc(s, t, Posting(m, policy))) else None
      case CallDequeue(t, timed) => if pc == Idle then Some(SetPc(s, t, Taking(timed))) else None
      case LockEnqueue(t) =>
        (match pc
         case Posting(m, policy) => Some(Enqueued(s, t, m, policy))
         case PopAwake(m) => Some(Enqueued(s, t, m, Block))
         case _ => None)
      case LockDequeue(t) =>
        (match pc
         case Taking(timed) => Some(Dequeued(s, t, PushWait(timed)))
         case PushAwake(timed) => Some(Dequeued(s, t, PushWait(timed)))
         case Expired => Some(Dequeued(s, t, Idle))
         case _ => None)
      case NotifyPush(t, wake) =>
        if pc == PushNotify && WakesOne(s.pcs, OnPushCv, wake)
        then Some(s.(pcs := WakeUp(s.pcs[t := Idle], wake))) else None
      case NotifyPop(t, wake) =>
        if pc.PopNotify? && WakesOne(s.pcs, OnPopCv, wake)
        then Some(s.(pcs := WakeUp(s.pcs[t := Returned(pc.m)], wake))) else None
      case CountDiscard(t) =>
        if pc == Discarding then Some(SetPc(s, t, Idle).(discardCounter := s.discardCounter + 1)) else None
      case Spurious(t) => if Sleeps(pc) then Some(SetPc(s, t, Woken(pc))) else None
      case Timeout(t) => if pc == PushWait(true) then Some(SetPc(s, t, Expired)) else None
      case Return(t) => if pc.Returned? then Some(SetPc(s, t, Idle)) else None
      case ResetOverrun(t) =>
        if pc == Idle
        then Some(s.(ring := s.ring.(overrun := 0), overrunsReset := s.overrunsReset + s.ring.overrun)) else None
      case ResetDiscard(t) =>
        if pc == Idle then Some(s.(discardCounter := 0, discardsReset := s.discardsReset + s.discardCounter)) else None
  }

  predicate IsReset(e: Event) { e.ResetOverrun? || e.ResetDiscard? }

  /** A run: the steps taken so far. */
  datatype Run = Start | Then(before: Run, e: Event)

  /** The state a run leads to; None when one of its steps was not possible. */
  function Exec(s: State, run: Run): Option<State> {
    match run
    case Start => Some(s)
    case Then(before, e) =>
      (match Exec(s, before)
       case None => None
       case Some(s') => Next(s', e))
  }

  // ---------------------------------------------------------------- counting threads

  function Sum(pcs: seq<Pc>, f: Pc -> nat): nat {
    if pcs == [] then 0 else Sum(pcs[..|pcs| - 1], f) + f(pcs[|pcs| - 1])
  }

  lemma {:induction false} SumUpdate(pcs: seq<Pc>, i: nat, pc: Pc, f: Pc -> nat)
    requires i < |pcs|
    ensures Sum(pcs[i := pc], f) == Sum(pcs, f) - f(pcs[i]) + f(pc)
  {
    var last := |pcs| - 1;
    if i == last {
      assert pcs[i := pc][..last] == pcs[..last];
    } else {
      SumUpdate(pcs[..last], i, pc, f);
      assert pcs[i := pc][..last] == pcs[..last][i := pc];
    }
  }

  lemma {:induction false} SumAtLeast(pcs: seq<Pc>, i: nat, f: Pc -> nat)
    requires i < |pcs|
    ensures Sum(pcs, f) >= f(pcs[i])
  {
    if i < |pcs| - 1 {
      SumAtLeast(pcs[..|pcs| - 1], i, f);
    }
  }

  lemma {:induction false} SumOfZeros(pcs: seq<Pc>, f: Pc -> nat)
    requires forall i :: 0 <= i < |pcs| ==> f(pcs[i]) == 0
    ensures Sum(pcs, f) == 0
  {
    if pcs != [] {
      SumOfZeros(pcs[..|pcs| - 1], f);
    }
  }

  function PushSleeper(pc: Pc): nat { if pc.PushWait? then 1 else 0 }
  function PushAwakened(pc: Pc): nat { if pc.PushAwake? || pc.Expired? then 1 else 0 }
  function PushPending(pc: Pc): nat { if pc.PushNotify? then 1 else 0 }
  function PopSleeper(pc: Pc): nat { if pc.PopWait? then 1 else 0 }
  function PopAwakened(pc: Pc): nat { if pc.PopAwake? then 1 else 0 }
  function PopPending(pc: Pc): nat { if pc.PopNotify? then 1 else 0 }
  function DiscardPending(pc: Pc): nat { if pc.Discarding? then 1 else 0 }

  // ---------------------------------------------------------------- no lost wake-up

  /** Items waiting are outnumbered by notifications on their way and consumers about to look, as long as
      a consumer sleeps; free slots likewise, as long as a producer sleeps. */
  ghost predicate Covered(ring: Ring<Msg>, pcs: seq<Pc>) {
    && ring.enabled && ring.Valid()
    && (Sum(pcs, PushSleeper) > 0 ==> |ring.items| <= Sum(pcs, PushPending) + Sum(pcs, PushAwakened))
    && (Sum(pcs, PopSleeper) > 0 ==> ring.cap - |ring.items| <= Sum(pcs, PopPending) + Sum(pcs, PopAwakened))
  }

  ghost predicate WakeInv(s: State) {
    Covered(s.ring, s.pcs)
  }

  lemma Recount(pcs: seq<Pc>, t: nat, pc: Pc)
    requires t < |pcs|
    ensures Sum(pcs[t := pc], PushSleeper) == Sum(pcs, PushSleeper) - PushSleeper(pcs[t]) + PushSleeper(pc)
    ensures Sum(pcs[t := pc], PushAwakened) == Sum(pcs, PushAwakened) - PushAwakened(pcs[t]) + PushAwakened(pc)
    ensures Sum(pcs[t := pc], PushPending) == Sum(pcs, PushPending) - PushPending(pcs[t]) + PushPending(pc)
    ensures Sum(pcs[t := pc], PopSleeper) == Sum(pcs, PopSleeper) - PopSleeper(pcs[t]) + PopSleeper(pc)
    ensures Sum(pcs[t := pc], PopAwakened) == Sum(pcs, PopAwakened) - PopAwakened(pcs[t]) + PopAwakened(pc)
    ensures Sum(pcs[t := pc], PopPending) == Sum(pcs, PopPending) - PopPending(pcs[t]) + PopPending(pc)
    ensures Sum(pcs[t := pc], DiscardPending) == Sum(pcs, DiscardPending) - DiscardPending(pcs[t]) + DiscardPending(pc)
  {
    SumUpdate(pcs, t, pc, PushSleeper);
    SumUpdate(pcs, t, pc, PushAwakened);
    SumUpdate(pcs, t, pc, PushPending);
    SumUpdate(pcs, t, pc, PopSleeper);
    SumUpdate(pcs, t, pc, PopAwakened);
    SumUpdate(pcs, t, pc, PopPending);
    SumUpdate(pcs, t, pc, DiscardPending);
  }

  /** A notification pays for the coverage it takes away: it wakes a sleeper, or there is none. */
  lemma NotifyPushKeepsCovered(ring: Ring<Msg>, pcs: seq<Pc>, t: nat, wake: Option<nat>)
    requires Covered(ring, pcs) && t < |pcs| && pcs[t] == PushNotify && WakesOne(pcs, OnPushCv, wake)
    ensures Covered(ring, WakeUp(pcs[t := Idle], wake))
  {
    Recount(pcs, t, Idle);
    match wake
    case Some(w) => Recount(pcs[t := Idle], w, Woken(pcs[w]));
    case None => SumOfZeros(pcs, PushSleeper);
  }

  lemma NotifyPopKeepsCovered(ring: Ring<Msg>, pcs: seq<Pc>, t: nat, wake: Option<nat>)
    requires Covered(ring, pcs) && t < |pcs| && pcs[t].PopNotify? && WakesOne(pcs, OnPopCv, wake)
    ensures Covered(ring, WakeUp(pcs[t := Returned(pcs[t].m)], wake))
  {
    var back := Returned(pcs[t].m);
    Recount(pcs, t, back);
    match wake
    case Some(w) => Recount(pcs[t := back], w, Woken(pcs[w]));
    case None => SumOfZeros(pcs, PopSleeper);
  }

  lemma EnqueueKeepsCovered(ring: Ring<Msg>, pcs: seq<Pc>, t: nat, m: Msg, policy: Policy)
    requires Covered(ring, pcs) && t < |pcs|
    requires pcs[t] == Posting(m, policy) || (policy == Block && pcs[t] == PopAwake(m))
    ensures match EnqueueSection(ring, m, policy)
            case MustWait => Covered(ring, pcs[t := PopWait(m)])
            case Stored(ring') => Covered(ring', pcs[t := PushNotify])
            case Refused => Covered(ring, pcs[t := Discarding])
  {
    match EnqueueSection(ring, m, policy)
    case MustWait => Recount(pcs, t, PopWait(m));
    case Stored(_) => Recount(pcs, t, PushNotify);
    case Refused => Recount(pcs, t, Discarding);
  }

  lemma DequeueKeepsCovered(ring: Ring<Msg>, pcs: seq<Pc>, t: nat, whenEmpty: Pc)
    requires Covered(ring, pcs) && t < |pcs| && (pcs[t].Taking? || pcs[t].PushAwake? || pcs[t].Expired?)
    requires whenEmpty == Idle || whenEmpty.PushWait?
    ensures if ring.items == [] then Covered(ring, pcs[t := whenEmpty])
            else Covered(ring.PopFront(), pcs[t := PopNotify(ring.items[0])])
  {
    Recount(pcs, t, if ring.items == [] then whenEmpty else PopNotify(ring.items[0]));
  }

  /** Calls, returns, wake-ups nobody sent and expired waits only ever add to the coverage. */
  lemma OtherStepsKeepCovered(ring: Ring<Msg>, pcs: seq<Pc>, t: nat, pc: Pc)
    requires Covered(ring, pcs) && t < |pcs|
    requires (pcs[t] == Idle && (pc.Posting? || pc.Taking?)) || (pc == Idle && (pcs[t].Returned? || pcs[t].Discarding?))
             || (Sleeps(pcs[t]) && pc == Woken(pcs[t])) || (pcs[t].PushWait? && pc == Expired)
    ensures Covered(ring, pcs[t := pc])
  {
    Recount(pcs, t, pc);
  }

  lemma StepKeepsWakeInv(s: State, e: Event)
    requires WakeInv(s) && Next(s, e).Some?
    ensures WakeInv(Next(s, e).value)
  {
    var pc := s.pcs[e.t];
    match e
    case LockEnqueue(t) => EnqueueKeepsCovered(s.ring, s.pcs, t, pc.m, if pc.Posting? then pc.policy else Block);
    case LockDequeue(t) => DequeueKeepsCovered(s.ring, s.pcs, t, if pc.Expired? then Idle else PushWait(pc.timed));
    case NotifyPush(t, wake) => NotifyPushKeepsCovered(s.ring, s.pcs, t, wake);
    case NotifyPop(t, wake) => NotifyPopKeepsCovered(s.ring, s.pcs, t, wake);
    case CallEnqueue(t, m, policy) => OtherStepsKeepCovered(s.ring, s.pcs, t, Posting(m, policy));
    case CallDequeue(t, timed) => OtherStepsKeepCovered(s.ring, s.pcs, t, Taking(timed));
    case Spurious(t) => OtherStepsKeepCovered(s.ring, s.pcs, t, Woken(pc));
    case Timeout(t) => OtherStepsKeepCovered(s.ring, s.pcs, t, Expired);
    case CountDiscard(t) => OtherStepsKeepCovered(s.ring, s.pcs, t, Idle);
    case Return(t) => OtherStepsKeepCovered(s.ring, s.pcs, t, Idle);
    case ResetOverrun(t) =>
    case ResetDiscard(t) =>
  }

  lemma InitWakeInv(cap: nat, threads: nat)
    ensures WakeInv(Init(cap, threads))
  {
    SumOfZeros(Init(cap, threads).pcs, PushSleeper);
    SumOfZeros(Init(cap, threads).pcs, PopSleeper);
  }

  lemma StepKeepsShape(s: State, e: Event)
    requires Next(s, e).Some?
    ensures var s' := Next(s, e).value; s'.ring.cap == s.ring.cap && |s'.pcs| == |s.pcs|
  {
  }

  lemma {:induction false} ReachableWakeInv(cap: nat, threads: nat, run: Run)
    requires Exec(Init(cap, threads), run).Some?
    ensures var s := Exec(Init(cap, threads), run).value;
            WakeInv(s) && s.ring.cap == cap && |s.pcs| == threads
  {
    match run
    case Start => InitWakeInv(cap, threads);
    case Then(before, e) =>
      ReachableWakeInv(cap, threads, before);
      StepKeepsWakeInv(Exec(Init(cap, threads), before).value, e);
      StepKeepsShape(Exec(Init(cap, threads), before).value, e);
  }

  /** Steps that a queue operation takes by itself: no new call, no return to the caller, no wake-up
      that nobody sent. */
  predicate Internal(e: Event) {
    e.LockEnqueue? || e.LockDequeue? || e.NotifyPush? || e.NotifyPop? || e.CountDiscard?
  }

  ghost predicate Stalled(s: State) {
    forall e :: Internal(e) ==> Next(s, e).None?
  }

  /** A thread sleeps, or is outside the queue operations. */
  predicate AtRest(pc: Pc) {
    pc.Idle? || pc.Returned? || Sleeps(pc)
  }

  lemma WhoToWake(pcs: seq<Pc>, asleep: Pc -> bool) returns (wake: Option<nat>)
    ensures WakesOne(pcs, asleep, wake)
  {
    if w: nat :| w < |pcs| && asleep(pcs[w]) {
      wake := Some(w);
    } else {
      wake := None;
    }
  }

  /** A system is stalled exactly when every thread is at rest. */
  lemma StalledIffAllAtRest(s: State)
    ensures Stalled(s) <==> forall t :: 0 <= t < |s.pcs| ==> AtRest(s.pcs[t])
  {
    if Stalled(s) {
      forall t | 0 <= t < |s.pcs|
        ensures AtRest(s.pcs[t])
      {
        var pushWake := WhoToWake(s.pcs, OnPushCv);
        var popWake := WhoToWake(s.pcs, OnPopCv);
        assert Next(s, LockEnqueue(t)).None? && Next(s, LockDequeue(t)).None? && Next(s, CountDiscard(t)).None?;
        assert Next(s, NotifyPush(t, pushWake)).None? && Next(s, NotifyPop(t, popWake)).None?;
      }
    }
  }

  ghost predicate ConsumerAsleep(s: State) { exists t :: 0 <= t < |s.pcs| && s.pcs[t].PushWait? }
  ghost predicate ProducerAsleep(s: State) { exists t :: 0 <= t < |s.pcs| && s.pcs[t].PopWait? }

  /** No lost wake-up. In every reachable state in which nothing moves by itself, a consumer only
      sleeps on an empty queue and a producer only on a full one. */
  lemma NeverAsleepWithWork(cap: nat, threads: nat, run: Run)
    requires Exec(Init(cap, threads), run).Some?
    requires Stalled(Exec(Init(cap, threads), run).value)
    ensures var s := Exec(Init(cap, threads), run).value;
            && (ConsumerAsleep(s) ==> s.ring.items == [])
            && (ProducerAsleep(s) ==> |s.ring.items| == cap)
            && (cap >= 1 ==> !(ConsumerAsleep(s) && ProducerAsleep(s)))
  {
    var s := Exec(Init(cap, threads), run).value;
    ReachableWakeInv(cap, threads, run);
    StalledIffAllAtRest(s);
    SumOfZeros(s.pcs, PushPending);
    SumOfZeros(s.pcs, PushAwakened);
    SumOfZeros(s.pcs, PopPending);
    SumOfZeros(s.pcs, PopAwakened);
    if t :| 0 <= t < |s.pcs| && s.pcs[t].PushWait? {
      SumAtLeast(s.pcs, t, PushSleeper);
    }
    if t :| 0 <= t < |s.pcs| && s.pcs[t].PopWait? {
      SumAtLeast(s.pcs, t, PopSleeper);
    }
  }

  /** A producer and a consumer that wait for each other on a queue without room. */
  function HangingRun(): Run {
    Then(Then(Then(Then(Start, CallEnqueue(0, Log(0), Block)), CallDequeue(1, false)), LockEnqueue(0)), LockDequeue(1))
  }

  lemma ExecThen(s: State, before: Run, mid: State, e: Event)
    requires Exec(s, before) == Some(mid)
    ensures Exec(s, Then(before, e)) == Next(mid, e)
  {
  }

  lemma HangingRunHangs(threads: nat)
    requires threads >= 2
    ensures Exec(Init(0, threads), HangingRun()).Some?
    ensures var s := Exec(Init(0, threads), HangingRun()).value;
            Stalled(s) && ConsumerAsleep(s) && ProducerAsleep(s) && Hanging(s)
  {
    var s0 := Init(0, threads);
    var s1 := Next(s0, CallEnqueue(0, Log(0), Block)).value;
    var s2 := Next(s1, CallDequeue(1, false)).value;
    var s3 := Next(s2, LockEnqueue(0)).value;
    var s4 := Next(s3, LockDequeue(1)).value;
    var run1 := Then(Start, CallEnqueue(0, Log(0), Block));
    var run2 := Then(run1, CallDequeue(1, false));
    var run3 := Then(run2, LockEnqueue(0));
    ExecThen(s0, Start, s0, CallEnqueue(0, Log(0), Block));
    ExecThen(s0, run1, s1, CallDequeue(1, false));
    ExecThen(s0, run2, s2, LockEnqueue(0));
    ExecThen(s0, run3, s3, LockDequeue(1));
    assert s4.pcs[0] == PopWait(Log(0)) && s4.pcs[1] == PushWait(false);
    assert forall t :: 2 <= t < threads ==> s4.pcs[t] == Idle;
    StalledIffAllAtRest(s4);
  }

  /** A producer inside its blocking enqueue and a consumer inside its dequeue, asleep or just awake, on a
      queue without room. */
  ghost predicate Hanging(s: State) {
    |s.pcs| >= 2 && s.ring.cap == 0 && s.ring.enabled && s.ring.items == [] &&
    (s.pcs[0].PopWait? || s.pcs[0].PopAwake?) && (s.pcs[1].PushWait? || s.pcs[1].PushAwake?) && !s.pcs[1].timed
  }

  lemma HangingStep(s: State, e: Event)
    requires Hanging(s) && Next(s, e).Some?
    ensures Hanging(Next(s, e).value)
  {}

  /** They wait for ever: whatever the other threads do and however often the two are woken, neither call
      returns. */
  lemma {:induction false} HangingForEver(s: State, run: Run)
    requires Hanging(s) && Exec(s, run).Some?
    ensures Hanging(Exec(s, run).value)
  {
    if run.Then? {
      HangingForEver(s, run.before);
      HangingStep(Exec(s, run.before).value, run.e);
    }
  }

  /** Room for at least one item is exactly what the wake-up protocol needs. */
  lemma CapacityIsWhatItTakes(cap: nat, threads: nat)
    requires threads >= 2
    ensures (forall run :: Exec(Init(cap, threads), run).Some? && Stalled(Exec(Init(cap, threads), run).value) ==>
                             var s := Exec(Init(cap, threads), run).value; !(ConsumerAsleep(s) && ProducerAsleep(s)))
            <==> cap >= 1
  {
    if cap >= 1 {
      forall run | Exec(Init(cap, threads), run).Some? && Stalled(Exec(Init(cap, threads), run).value)
        ensures var s := Exec(Init(cap, threads), run).value; !(ConsumerAsleep(s) && ProducerAsleep(s))
      {
        NeverAsleepWithWork(cap, threads, run);
      }
    } else {
      HangingRunHangs(threads);
    }
  }

  // ---------------------------------------------------------------- conservation and order

  /** Nothing appears, nothing vanishes, and delivery never reorders. */
  ghost predicate Balanced(posted: seq<Msg>, dequeued: seq<Msg>, items: seq<Msg>, lost: seq<Msg>, refused: seq<Msg>) {
    && multiset(posted) == multiset(dequeued) + multiset(items) + multiset(lost) + multiset(refused)
    && Subseq(dequeued + items, posted)
  }

  /** What the counters have counted, over all resets. */
  function Overruns(s: State): nat { s.overrunsReset + s.ring.overrun }
  function Discards(s: State): nat { s.discardsReset + s.discardCounter }

  /** Each posted message was dequeued, is queued, was overrun or was refused, and the two counters with
      what they were reset from say how many of the latter there are (a refusal is counted after the mutex
      was released). */
  ghost predicate Accounted(s: State) {
    && Balanced(s.posted, s.dequeued, s.ring.items, s.lost, s.refused)
    && Overruns(s) == |s.lost|
    && Discards(s) + Sum(s.pcs, DiscardPending) == |s.refused|
  }

  lemma StoreKeepsOrder(dequeued: seq<Msg>, items: seq<Msg>, cap: nat, posted: seq<Msg>, m: Msg)
    requires |items| <= cap && Subseq(dequeued + items, posted)
    ensures Subseq(dequeued + KeepLast(items + [m], cap), posted + [m])
  {
    var all := items + [m];
    SubseqSnoc(dequeued + items, posted, m);
    assert dequeued + items + [m] == dequeued + all;
    if |items| == cap {
      SubseqDelete(dequeued + all, |dequeued|, posted + [m]);
      assert (dequeued + all)[..|dequeued|] + (dequeued + all)[|dequeued| + 1..] == dequeued + all[1..];
    }
  }

  lemma StoreKeepsMultiset(items: seq<Msg>, cap: nat, m: Msg)
    requires |items| <= cap
    ensures multiset(items) + multiset{m}
         == multiset(KeepLast(items + [m], cap)) + if |items| == cap then multiset{(items + [m])[0]} else multiset{}
  {
    var all := items + [m];
    assert multiset(all) == multiset(items) + multiset{m};
    if |items| == cap {
      assert all == [all[0]] + all[1..];
    }
  }

  lemma Rebalance(posted: multiset<Msg>, dequeued: multiset<Msg>, items: multiset<Msg>, lost: multiset<Msg>,
                  refused: multiset<Msg>, added: multiset<Msg>, kept: multiset<Msg>, gone: multiset<Msg>)
    requires posted == dequeued + items + lost + refused && items + added == kept + gone
    ensures posted + added == dequeued + kept + (lost + gone) + refused
  {
    forall m: Msg
      ensures (posted + added)[m] == (dequeued + kept + (lost + gone) + refused)[m]
    {
      assert (items + added)[m] == (kept + gone)[m];
    }
  }

  lemma StoreKeepsBalanced(posted: seq<Msg>, dequeued: seq<Msg>, items: seq<Msg>, cap: nat,
                           lost: seq<Msg>, refused: seq<Msg>, m: Msg)
    requires |items| <= cap && Balanced(posted, dequeued, items, lost, refused)
    ensures Balanced(posted + [m], dequeued, KeepLast(items + [m], cap),
                     if |items| == cap then lost + [(items + [m])[0]] else lost, refused)
  {
    StoreKeepsOrder(dequeued, items, cap, posted, m);
    StoreKeepsMultiset(items, cap, m);
    var gone := if |items| == cap then multiset{(items + [m])[0]} else multiset{};
    Rebalance(multiset(posted), multiset(dequeued), multiset(items), multiset(lost), multiset(refused),
              multiset{m}, multiset(KeepLast(items + [m], cap)), gone);
    var lost' := if |items| == cap then lost + [(items + [m])[0]] else lost;
    assert multiset(lost') == multiset(lost) + gone;
  }

  lemma RefuseKeepsBalanced(posted: seq<Msg>, dequeued: seq<Msg>, items: seq<Msg>, lost: seq<Msg>, refused: seq<Msg>,
                            m: Msg)
    requires Balanced(posted, dequeued, items, lost, refused)
    ensures Balanced(posted + [m], dequeued, items, lost, refused + [m])
  {
    SubseqSnoc(dequeued + items, posted, m);
  }

  lemma TakeKeepsBalanced(posted: seq<Msg>, dequeued: seq<Msg>, items: seq<Msg>, lost: seq<Msg>, refused: seq<Msg>)
    requires items != [] && Balanced(posted, dequeued, items, lost, refused)
    ensures Balanced(posted, dequeued + [items[0]], items[1..], lost, refused)
  {
    assert items == [items[0]] + items[1..];
    assert dequeued + [items[0]] + items[1..] == dequeued + items;
  }

  lemma StoredKeepsAccounted(s: State, t: nat, m: Msg, policy: Policy)
    requires WakeInv(s) && Accounted(s) && t < |s.pcs| && DiscardPending(s.pcs[t]) == 0
    requires EnqueueSection(s.ring, m, policy).Stored?
    ensures Accounted(Enqueued(s, t, m, policy))
  {
    var s' := Enqueued(s, t, m, policy);
    SumUpdate(s.pcs, t, PushNotify, DiscardPending);
    StoreKeepsBalanced(s.posted, s.dequeued, s.ring.items, s.ring.cap, s.lost, s.refused, m);
    assert s'.ring == s.ring.PushBack(m) && s'.posted == s.posted + [m];
    assert s'.pcs == s.pcs[t := PushNotify] && s'.refused == s.refused && s'.dequeued == s.dequeued;
  }

  lemma EnqueueKeepsAccounted(s: State, t: nat, m: Msg, policy: Policy)
    requires WakeInv(s) && Accounted(s) && t < |s.pcs| && (s.pcs[t].Posting? || s.pcs[t].PopAwake?)
    ensures Accounted(Enqueued(s, t, m, policy))
  {
    if policy == OverrunOldest || !s.ring.Full() {
      StoredKeepsAccounted(s, t, m, policy);
    } else if policy == Block {
      SumUpdate(s.pcs, t, PopWait(m), DiscardPending);
    } else {
      RefusedKeepsAccounted(s, t, m);
    }
  }

  lemma RefusedKeepsAccounted(s: State, t: nat, m: Msg)
    requires Accounted(s) && t < |s.pcs| && DiscardPending(s.pcs[t]) == 0 && s.ring.Full()
    ensures Accounted(Enqueued(s, t, m, DiscardNew))
  {
    SumUpdate(s.pcs, t, Discarding, DiscardPending);
    RefuseKeepsBalanced(s.posted, s.dequeued, s.ring.items, s.lost, s.refused, m);
  }

  lemma DequeueKeepsAccounted(s: State, t: nat, whenEmpty: Pc)
    requires Accounted(s) && t < |s.pcs| && DiscardPending(s.pcs[t]) == DiscardPending(whenEmpty) == 0
    ensures Accounted(Dequeued(s, t, whenEmpty))
  {
    if s.ring.items == [] {
      SumUpdate(s.pcs, t, whenEmpty, DiscardPending);
    } else {
      SumUpdate(s.pcs, t, PopNotify(s.ring.items[0]), DiscardPending);
      TakeKeepsBalanced(s.posted, s.dequeued, s.ring.items, s.lost, s.refused);
    }
  }

  lemma NotifyKeepsDiscards(pcs: seq<Pc>, t: nat, back: Pc, wake: Option<nat>)
    requires t < |pcs| && DiscardPending(pcs[t]) == DiscardPending(back) == 0
    requires wake.Some? ==> wake.value < |pcs|
    ensures Sum(WakeUp(pcs[t := back], wake), DiscardPending) == Sum(pcs, DiscardPending)
  {
    SumUpdate(pcs, t, back, DiscardPending);
    if wake.Some? {
      var pcs' := pcs[t := back];
      SumUpdate(pcs', wake.value, Woken(pcs'[wake.value]), DiscardPending);
    }
  }

  lemma StepKeepsAccounted(s: State, e: Event)
    requires WakeInv(s) && Accounted(s) && Next(s, e).Some?
    ensures Accounted(Next(s, e).value)
  {
    var pc := s.pcs[e.t];
    match e
    case LockEnqueue(t) => EnqueueKeepsAccounted(s, t, pc.m, if pc.Posting? then pc.policy else Block);
    case LockDequeue(t) => DequeueKeepsAccounted(s, t, if pc.Expired? then Idle else PushWait(pc.timed));
    case _ => QuietStepKeepsAccounted(s, e);
  }

  /** The steps outside of the critical sections. */
  lemma QuietStepKeepsAccounted(s: State, e: Event)
    requires Accounted(s) && Next(s, e).Some? && !e.LockEnqueue? && !e.LockDequeue?
    ensures Accounted(Next(s, e).value)
  {
    var pc := s.pcs[e.t];
    match e
    case NotifyPush(t, wake) => NotifyKeepsDiscards(s.pcs, t, Idle, wake);
    case NotifyPop(t, wake) => NotifyKeepsDiscards(s.pcs, t, Returned(pc.m), wake);
    case CallEnqueue(t, m, policy) => SumUpdate(s.pcs, t, Posting(m, policy), DiscardPending);
    case CallDequeue(t, timed) => SumUpdate(s.pcs, t, Taking(timed), DiscardPending);
    case Spurious(t) => SumUpdate(s.pcs, t, Woken(pc), DiscardPending);
    case Timeout(t) => SumUpdate(s.pcs, t, Expired, DiscardPending);
    case CountDiscard(t) => SumUpdate(s.pcs, t, Idle, DiscardPending);
    case Return(t) => SumUpdate(s.pcs, t, Idle, DiscardPending);
    case ResetOverrun(t) =>
    case ResetDiscard(t) =>
  }

  lemma {:induction false} ReachableAccounted(cap: nat, threads: nat, run: Run)
    requires Exec(Init(cap, threads), run).Some?
    ensures Accounted(Exec(Init(cap, threads), run).value)
  {
    match run
    case Start => SumOfZeros(Init(cap, threads).pcs, DiscardPending);
    case Then(before, e) =>
      ReachableAccounted(cap, threads, before);
      ReachableWakeInv(cap, threads, before);
      StepKeepsAccounted(Exec(Init(cap, threads), before).value, e);
  }

  /** Conservation, whenever no refusal is still on its way to the counter. */
  lemma Conservation(s: State)
    requires Accounted(s) && forall t :: 0 <= t < |s.pcs| ==> s.pcs[t] != Discarding
    ensures |s.posted| == |s.dequeued| + |s.ring.items| + Overruns(s) + Discards(s)
    ensures Subseq(s.dequeued + s.ring.items, s.posted)
    ensures Overruns(s) == 0 && Discards(s) == 0 ==> s.posted == s.dequeued + s.ring.items
  {
    SumOfZeros(s.pcs, DiscardPending);
    assert |multiset(s.posted)| == |s.posted|;
    SubseqNotLonger(s.dequeued + s.ring.items, s.posted);
  }

  /** Only a full queue refuses a message or loses one. */
  lemma RefusesOnlyWhenFull(s: State, e: Event)
    requires WakeInv(s) && Next(s, e).Some?
    ensures var s' := Next(s, e).value;
            |s'.refused| + |s'.lost| > |s.refused| + |s.lost| ==>
              |s.ring.items| == s.ring.cap && s'.posted == s.posted + [s'.posted[|s.posted|]]
    ensures var s' := Next(s, e).value;
            |s.posted| <= |s'.posted| && |s.refused| <= |s'.refused| && |s.lost| <= |s'.lost|
  {}

  /** As long as no more has been posted than fits, nothing is refused or lost, for every mix of policies. */
  lemma {:induction false} NothingIsLostWithRoom(cap: nat, threads: nat, run: Run)
    requires Exec(Init(cap, threads), run).Some? && |Exec(Init(cap, threads), run).value.posted| <= cap
    ensures var s := Exec(Init(cap, threads), run).value;
            s.refused == [] && s.lost == [] && s.posted == s.dequeued + s.ring.items
  {
    ReachableAccounted(cap, threads, run);
    ReachableWakeInv(cap, threads, run);
    var s := Exec(Init(cap, threads), run).value;
    if run.Then? {
      var before := Exec(Init(cap, threads), run.before).value;
      ReachableWakeInv(cap, threads, run.before);
      RefusesOnlyWhenFull(before, run.e);
      NothingIsLostWithRoom(cap, threads, run.before);
    }
    AllAccountedFor(s.posted, s.dequeued, s.ring.items, s.lost, s.refused);
  }

  lemma AllAccountedFor(posted: seq<Msg>, dequeued: seq<Msg>, items: seq<Msg>, lost: seq<Msg>, refused: seq<Msg>)
    requires Balanced(posted, dequeued, items, lost, refused)
    ensures lost == [] && refused == [] ==> posted == dequeued + items
  {
    if lost == [] && refused == [] {
      assert |multiset(posted)| == |posted| && |multiset(dequeued)| == |dequeued|;
      SubseqNotLonger(dequeued + items, posted);
    }
  }

  predicate BlocksOnly(e: Event) {
    e.CallEnqueue? ==> e.policy == Block
  }

  predicate AllBlocking(run: Run) {
    match run
    case Start => true
    case Then(before, e) => AllBlocking(before) && BlocksOnly(e)
  }

  /** With the block policy alone the queue is a lossless FIFO at every moment of every run. */
  lemma {:induction false} BlockPolicyIsFifo(cap: nat, threads: nat, run: Run)
    requires Exec(Init(cap, threads), run).Some? && AllBlocking(run)
    ensures var s := Exec(Init(cap, threads), run).value;
            && s.posted == s.dequeued + s.ring.items
            && s.lost == [] && s.refused == [] && Overruns(s) == 0 && Discards(s) == 0
            && PostersBlock(s.pcs)
  {
    ReachableAccounted(cap, threads, run);
    if run.Then? {
      BlockPolicyIsFifo(cap, threads, run.before);
      ReachableWakeInv(cap, threads, run.before);
      var s := Exec(Init(cap, threads), run.before).value;
      BlockStepKeepsPosters(s, run.e);
      BlockStepIsFifo(s, run.e);
    }
  }

  ghost predicate PostersBlock(pcs: seq<Pc>) {
    forall t :: 0 <= t < |pcs| && pcs[t].Posting? ==> pcs[t].policy == Block
  }

  lemma BlockStepKeepsPosters(s: State, e: Event)
    requires Next(s, e).Some? && BlocksOnly(e) && PostersBlock(s.pcs)
    ensures PostersBlock(Next(s, e).value.pcs)
  {
  }

  lemma BlockStepIsFifo(s: State, e: Event)
    requires WakeInv(s) && Next(s, e).Some? && PostersBlock(s.pcs)
    requires s.posted == s.dequeued + s.ring.items && s.lost == [] && s.refused == []
    ensures var s' := Next(s, e).value;
            s'.posted == s'.dequeued + s'.ring.items && s'.lost == [] && s'.refused == []
  {
    match e
    case LockEnqueue(t) =>
    case LockDequeue(t) =>
      if s.ring.items != [] {
        assert s.ring.items == [s.ring.items[0]] + s.ring.items[1..];
      }
    case _ =>
  }
}
