/**
 The asynchronous logging thread pool (`thread_pool`): worker loops around the blocking queue and the
 destructor that sends one terminate message per worker and joins them.

 Threads 0 .. workers-1 of the queue are the workers, thread `workers` runs the destructor, all later
 ones are clients that post. Clients reach the pool through a weak pointer, so the destructor starts
 only when no post is in progress and no other post can start.
 */
module ThreadPool {
  import opened Wrappers
  import opened CircularQueue
  import BQ = BlockingQueue
  import opened Sequences

  type Msg = BQ.Msg
  type Pc = BQ.Pc

  datatype Pool = Pool(
    q: BQ.State,
    workers: nat,
    alive: seq<bool>,       // per worker: still in worker_loop_
    closing: bool,          // the destructor has started
    unposted: nat,          // terminate messages the destructor has still to post
    handled: seq<Msg>,      // messages the workers are done with
    atClose: seq<Msg>)      // everything dequeued or queued when the destructor started

  datatype Event =
    | Work(t: nat)
    | Handle(t: nat)
    | Post(t: nat, m: Msg, policy: BQ.Policy)
    | Close
    | PostTerminate
    | Inside(e: BQ.Event)
    | Reset(e: BQ.Event)

  /** The constructor; it throws unless it is asked for 1 to 1000 threads. */
  function Construct(qMaxItems: nat, threads: nat, clients: nat): (p: Option<Pool>)
    ensures p.Some? <==> 1 <= threads <= 1000
  {
    if threads == 0 || threads > 1000 then None
    else Some(Pool(BQ.Init(qMaxItems, threads + 1 + clients), threads, seq(threads, i => true), false, 0, [], []))
  }

  function Lift(p: Pool, q: Option<BQ.State>): Option<Pool> {
    match q
    case None => None
    case Some(s) => Some(p.(q := s))
  }

  predicate ClientsIdle(p: Pool) {
    forall t :: p.workers < t < |p.q.pcs| ==> p.q.pcs[t] == BQ.Idle
  }

  function Next(p: Pool, e: Event): Option<Pool> {
    match e
    case Work(t) =>
      if t < p.workers && t < |p.alive| && p.alive[t] then Lift(p, BQ.Next(p.q, BQ.CallDequeue(t, false))) else None
    case Handle(t) =>
      if t < p.workers && t < |p.alive| && t < |p.q.pcs| && p.q.pcs[t].Returned? then
        var m := p.q.pcs[t].m;
        Lift(p.(handled := p.handled + [m], alive := p.alive[t := m != BQ.Terminate]),
             BQ.Next(p.q, BQ.Return(t)))
      else None
    case Post(t, m, policy) =>
      if p.workers < t && !p.closing && m != BQ.Terminate
      then Lift(p, BQ.Next(p.q, BQ.CallEnqueue(t, m, policy))) else None
    case Close =>
      if !p.closing && ClientsIdle(p)
      then Some(p.(closing := true, unposted := p.workers, atClose := p.q.dequeued + p.q.ring.items)) else None
    case PostTerminate =>
      if p.closing && p.unposted > 0
      then Lift(p.(unposted := p.unposted - 1), BQ.Next(p.q, BQ.CallEnqueue(p.workers, BQ.Terminate, BQ.Block)))
      else None
    case Inside(q) =>
      if BQ.Internal(q) || q.Spurious? then Lift(p, BQ.Next(p.q, q)) else None
    case Reset(q) =>
      if BQ.IsReset(q) && p.workers < q.t && !p.closing then Lift(p, BQ.Next(p.q, q)) else None
  }

  datatype Run = Start | Then(before: Run, e: Event)

  function Exec(p: Pool, run: Run): Option<Pool> {
    match run
    case Start => Some(p)
    case Then(before, e) =>
      (match Exec(p, before)
       case None => None
       case Some(p') => Next(p', e))
  }

  // ---------------------------------------------------------------- the pool only makes queue steps

  /** The queue step behind a pool step; Close makes none. */
  function QueueStep(p: Pool, e: Event): Option<BQ.Event> {
    match e
    case Work(t) => Some(BQ.CallDequeue(t, false))
    case Handle(t) => Some(BQ.Return(t))
    case Post(t, m, policy) => Some(BQ.CallEnqueue(t, m, policy))
    case Close => None
    case PostTerminate => Some(BQ.CallEnqueue(p.workers, BQ.Terminate, BQ.Block))
    case Inside(q) => Some(q)
    case Reset(q) => Some(q)
  }

  lemma StepIsQueueStep(p: Pool, e: Event)
    requires Next(p, e).Some?
    ensures match QueueStep(p, e)
            case None => Next(p, e).value.q == p.q
            case Some(q) => BQ.Next(p.q, q) == Some(Next(p, e).value.q)
  {
  }

  /** Every post of the run waits when there is no room. */
  predicate AllBlocking(run: Run) {
    match run
    case Start => true
    case Then(before, e) => AllBlocking(before) && (e.Post? ==> e.policy == BQ.Block)
  }

  /** Every run of the pool is a run of the queue, and of one that only blocks if all posts do, so whatever
      holds of all queue runs holds here. */
  lemma {:induction false} PoolRunsAreQueueRuns(p: Pool, run: Run) returns (queueRun: BQ.Run)
    requires Exec(p, run).Some?
    ensures BQ.Exec(p.q, queueRun) == Some(Exec(p, run).value.q)
    ensures AllBlocking(run) ==> BQ.AllBlocking(queueRun)
  {
    match run
    case Start => queueRun := BQ.Start;
    case Then(before, e) =>
      queueRun := PoolRunsAreQueueRuns(p, before);
      var mid := Exec(p, before).value;
      StepIsQueueStep(mid, e);
      if QueueStep(mid, e).Some? {
        queueRun := BQ.Then(queueRun, QueueStep(mid, e).value);
      }
  }

  lemma PoolAccounted(cap: nat, threads: nat, p0: Pool, run: Run, p: Pool)
    requires p0.q == BQ.Init(cap, threads) && Exec(p0, run) == Some(p)
    ensures BQ.Accounted(p.q)
  {
    var queueRun := PoolRunsAreQueueRuns(p0, run);
    BQ.ReachableAccounted(cap, threads, queueRun);
  }

  /** Conservation and order for the pool, under any mix of the three overflow policies, whenever no
      refusal is still on its way to the counter. */
  lemma PoolConserves(cap: nat, threads: nat, clients: nat, run: Run, p: Pool)
    requires Construct(cap, threads, clients).Some?
    requires Exec(Construct(cap, threads, clients).value, run) == Some(p)
    requires forall t :: 0 <= t < |p.q.pcs| ==> p.q.pcs[t] != BQ.Discarding
    ensures |p.q.posted| == |p.q.dequeued| + |p.q.ring.items| + BQ.Overruns(p.q) + BQ.Discards(p.q)
    ensures Subseq(p.q.dequeued + p.q.ring.items, p.q.posted)
    ensures BQ.Overruns(p.q) == 0 && BQ.Discards(p.q) == 0 ==> p.q.posted == p.q.dequeued + p.q.ring.items
  {
    PoolAccounted(cap, threads + 1 + clients, Construct(cap, threads, clients).value, run, p);
    BQ.Conservation(p.q);
  }

  /** With blocking posts alone the pool loses nothing and takes messages in the order of posting. */
  lemma PoolBlockPolicyIsFifo(cap: nat, threads: nat, clients: nat, run: Run, p: Pool)
    requires Construct(cap, threads, clients).Some? && AllBlocking(run)
    requires Exec(Construct(cap, threads, clients).value, run) == Some(p)
    ensures p.q.posted == p.q.dequeued + p.q.ring.items && BQ.Overruns(p.q) == 0 && BQ.Discards(p.q) == 0
  {
    var queueRun := PoolRunsAreQueueRuns(Construct(cap, threads, clients).value, run);
    BQ.BlockPolicyIsFifo(cap, threads + 1 + clients, queueRun);
  }

  // ---------------------------------------------------------------- who may be where

  predicate WorkerPc(pc: Pc) {
    pc.Idle? || pc == BQ.Taking(false) || pc == BQ.PushWait(false) || pc == BQ.PushAwake(false)
    || pc.PopNotify? || pc.Returned?
  }

  predicate DestructorPc(pc: Pc) {
    pc.Idle? || pc == BQ.Posting(BQ.Terminate, BQ.Block) || pc == BQ.PopWait(BQ.Terminate)
    || pc == BQ.PopAwake(BQ.Terminate) || pc.PushNotify?
  }

  predicate ClientPc(pc: Pc) {
    pc.Idle? || pc.PushNotify? || pc.Discarding?
    || ((pc.Posting? || pc.PopWait? || pc.PopAwake?) && pc.m != BQ.Terminate)
  }

  predicate RolePc(p: Pool, t: nat, pc: Pc)
    requires |p.alive| == p.workers
  {
    if t < p.workers then WorkerPc(pc) && (!p.alive[t] ==> pc.Idle?)
    else if t == p.workers then DestructorPc(pc) && (!p.closing ==> pc.Idle?)
    else ClientPc(pc) && (p.closing ==> pc.Idle?)
  }

  ghost predicate Roles(p: Pool) {
    && |p.alive| == p.workers < |p.q.pcs|
    && forall t :: 0 <= t < |p.q.pcs| ==> RolePc(p, t, p.q.pcs[t])
  }

  /** Where a thread can go while it is inside a queue operation. */
  predicate Moves(before: Pc, after: Pc) {
    match before
    case Posting(m, policy) =>
      after.PushNotify? || (policy == BQ.Block && after == BQ.PopWait(m)) ||
      (policy == BQ.DiscardNew && after.Discarding?)
    case PopAwake(m) => after.PushNotify? || after == BQ.PopWait(m)
    case PopWait(m) => after == BQ.PopAwake(m)
    case PushNotify => after.Idle?
    case Discarding => after.Idle?
    case Taking(timed) => after.PopNotify? || after == BQ.PushWait(timed)
    case PushAwake(timed) => after.PopNotify? || after == BQ.PushWait(timed)
    case PushWait(timed) => after == BQ.PushAwake(timed)
    case Expired => after.PopNotify? || after.Idle?
    case PopNotify(m) => after == BQ.Returned(m)
    case _ => false
  }

  lemma InsideMoves(s: BQ.State, e: BQ.Event)
    requires BQ.Next(s, e).Some? && (BQ.Internal(e) || e.Spurious?)
    ensures var s' := BQ.Next(s, e).value;
            |s'.pcs| == |s.pcs| && forall t :: 0 <= t < |s.pcs| ==> s'.pcs[t] == s.pcs[t] || Moves(s.pcs[t], s'.pcs[t])
  {
    match e
    case NotifyPush(t, wake) =>
    case NotifyPop(t, wake) =>
    case LockEnqueue(t) =>
    case LockDequeue(t) =>
    case _ =>
  }

  lemma StepKeepsRoles(p: Pool, e: Event)
    requires Roles(p) && Next(p, e).Some?
    ensures Roles(Next(p, e).value)
  {
    if e.Inside? {
      InsideKeepsRoles(p, e);
    } else {
      var p' := Next(p, e).value;
      forall t | 0 <= t < |p.q.pcs|
        ensures RolePc(p', t, p'.q.pcs[t])
      {
        assert RolePc(p, t, p.q.pcs[t]);
      }
    }
  }

  lemma InsideKeepsRoles(p: Pool, e: Event)
    requires Roles(p) && Next(p, e).Some? && e.Inside?
    ensures Roles(Next(p, e).value)
  {
    var p' := Next(p, e).value;
    InsideMoves(p.q, e.e);
    forall t | 0 <= t < |p.q.pcs|
      ensures RolePc(p', t, p'.q.pcs[t])
    {
      assert RolePc(p, t, p.q.pcs[t]);
      MoveKeepsRole(p, t, p.q.pcs[t], p'.q.pcs[t]);
    }
  }

  lemma MoveKeepsRole(p: Pool, t: nat, before: Pc, after: Pc)
    requires |p.alive| == p.workers && RolePc(p, t, before) && (after == before || Moves(before, after))
    ensures RolePc(p, t, after)
  {}

  // ---------------------------------------------------------------- counting terminate messages

  function Live(alive: seq<bool>): nat {
    multiset(alive)[true]
  }

  /** 1 when the thread carries a terminate message, into the queue or out of it. */
  function Carried(pc: Pc): nat {
    if (pc.Posting? || pc.PopWait? || pc.PopAwake? || pc.PopNotify? || pc.Returned?) && pc.m == BQ.Terminate then 1
    else 0
  }

  /** Terminate messages in the queue or carried by a thread. */
  function Circulating(q: BQ.State): nat {
    BQ.Sum(q.pcs, Carried) + multiset(q.ring.items)[BQ.Terminate]
  }

  function InFlight(p: Pool): nat {
    p.unposted + Circulating(p.q)
  }

  lemma CountSnoc(s: seq<Msg>, x: Msg, m: Msg)
    ensures multiset(s + [x])[m] == multiset(s)[m] + if x == m then 1 else 0
  {
    assert multiset(s + [x]) == multiset(s) + multiset{x};
  }

  /** Live workers and terminate messages on their way match one to one. */
  ghost predicate Matched(p: Pool) {
    && |p.alive| == p.workers
    && if p.closing then Live(p.alive) == InFlight(p) else InFlight(p) == 0 && Live(p.alive) == p.workers
  }

  lemma LiveUpdate(alive: seq<bool>, t: nat, b: bool)
    requires t < |alive|
    ensures Live(alive[t := b]) == Live(alive) - (if alive[t] then 1 else 0) + (if b then 1 else 0)
  {
    assert multiset(alive[t := b]) == multiset(alive) - multiset{alive[t]} + multiset{b};
  }

  /** During shutdown nothing is overrun: only the destructor posts, and it blocks. */
  lemma EnqueueWhileRolesHold(p: Pool, t: nat)
    requires Roles(p) && BQ.WakeInv(p.q) && t < |p.q.pcs| && (p.q.pcs[t].Posting? || p.q.pcs[t].PopAwake?)
    ensures p.closing ==> t == p.workers && p.q.pcs[t].m == BQ.Terminate
    ensures p.closing && p.q.pcs[t].Posting? ==> p.q.pcs[t].policy == BQ.Block
    ensures !p.closing ==> p.q.pcs[t].m != BQ.Terminate
  {
    assert RolePc(p, t, p.q.pcs[t]);
  }

  lemma StoredCounts(items: seq<Msg>, cap: nat, m: Msg)
    requires |items| <= cap
    requires |items| < cap || (m != BQ.Terminate && multiset(items)[BQ.Terminate] == 0)
    ensures multiset(KeepLast(items + [m], cap))[BQ.Terminate]
         == multiset(items)[BQ.Terminate] + if m == BQ.Terminate then 1 else 0
  {
    var all := items + [m];
    CountSnoc(items, m, BQ.Terminate);
    if |items| == cap {
      assert all == [all[0]] + all[1..];
      assert multiset(all) == multiset{all[0]} + multiset(all[1..]);
    }
  }

  /** `m` stays in circulation: with the thread, or in the queue; refusing or overrunning messages is
      harmless as long as no terminate message is around. */
  lemma EnqueuedCounts(q: BQ.State, t: nat, m: Msg, policy: BQ.Policy)
    requires BQ.WakeInv(q) && t < |q.pcs| && (q.pcs[t].PopAwake? || q.pcs[t].Posting?) && q.pcs[t].m == m
    requires policy == BQ.Block || (m != BQ.Terminate && multiset(q.ring.items)[BQ.Terminate] == 0)
    ensures Circulating(BQ.Enqueued(q, t, m, policy)) == Circulating(q)
  {
    BQ.SumUpdate(q.pcs, t, BQ.Enqueued(q, t, m, policy).pcs[t], Carried);
    if BQ.EnqueueSection(q.ring, m, policy).Stored? {
      StoredCounts(q.ring.items, q.ring.cap, m);
    }
  }

  lemma DequeuedCounts(q: BQ.State, t: nat, whenEmpty: Pc)
    requires t < |q.pcs| && Carried(q.pcs[t]) == 0 && Carried(whenEmpty) == 0
    ensures Circulating(BQ.Dequeued(q, t, whenEmpty)) == Circulating(q)
  {
    BQ.SumUpdate(q.pcs, t, BQ.Dequeued(q, t, whenEmpty).pcs[t], Carried);
    if q.ring.items != [] {
      assert q.ring.items == [q.ring.items[0]] + q.ring.items[1..];
      assert multiset(q.ring.items) == multiset{q.ring.items[0]} + multiset(q.ring.items[1..]);
    }
  }

  lemma NotifyCounts(pcs: seq<Pc>, t: nat, back: Pc, wake: Option<nat>)
    requires t < |pcs| && Carried(pcs[t]) == Carried(back) && (wake.Some? ==> wake.value < |pcs|)
    ensures BQ.Sum(BQ.WakeUp(pcs[t := back], wake), Carried) == BQ.Sum(pcs, Carried)
  {
    BQ.SumUpdate(pcs, t, back, Carried);
    if wake.Some? {
      var pcs' := pcs[t := back];
      BQ.SumUpdate(pcs', wake.value, BQ.Woken(pcs'[wake.value]), Carried);
    }
  }

  lemma LockEnqueueCounts(p: Pool, t: nat)
    requires Roles(p) && BQ.WakeInv(p.q) && Matched(p) && BQ.Next(p.q, BQ.LockEnqueue(t)).Some?
    ensures Circulating(BQ.Next(p.q, BQ.LockEnqueue(t)).value) == Circulating(p.q)
  {
    var pc := p.q.pcs[t];
    EnqueueWhileRolesHold(p, t);
    EnqueuedCounts(p.q, t, pc.m, if pc.Posting? then pc.policy else BQ.Block);
  }

  lemma InsideCounts(p: Pool, e: BQ.Event)
    requires Roles(p) && BQ.WakeInv(p.q) && Matched(p)
    requires BQ.Next(p.q, e).Some? && (BQ.Internal(e) || e.Spurious?)
    ensures Circulating(BQ.Next(p.q, e).value) == Circulating(p.q)
  {
    var pc := p.q.pcs[e.t];
    match e
    case LockEnqueue(t) => LockEnqueueCounts(p, t);
    case LockDequeue(t) => DequeuedCounts(p.q, t, if pc.Expired? then BQ.Idle else BQ.PushWait(pc.timed));
    case NotifyPush(t, wake) => NotifyCounts(p.q.pcs, t, BQ.Idle, wake);
    case NotifyPop(t, wake) => NotifyCounts(p.q.pcs, t, BQ.Returned(pc.m), wake);
    case CountDiscard(t) => BQ.SumUpdate(p.q.pcs, t, BQ.Idle, Carried);
    case Spurious(t) => BQ.SumUpdate(p.q.pcs, t, BQ.Woken(pc), Carried);
  }

  lemma HandleCounts(p: Pool, t: nat)
    requires Roles(p) && Matched(p) && Next(p, Handle(t)).Some?
    ensures Matched(Next(p, Handle(t)).value)
  {
    assert RolePc(p, t, p.q.pcs[t]);
    BQ.SumAtLeast(p.q.pcs, t, Carried);
    BQ.SumUpdate(p.q.pcs, t, BQ.Idle, Carried);
    LiveUpdate(p.alive, t, p.q.pcs[t].m != BQ.Terminate);
  }

  lemma StepKeepsMatched(p: Pool, e: Event)
    requires Roles(p) && BQ.WakeInv(p.q) && Matched(p) && Next(p, e).Some?
    ensures Matched(Next(p, e).value)
  {
    match e
    case Inside(q) => InsideCounts(p, q);
    case Close =>
    case Work(t) => BQ.SumUpdate(p.q.pcs, t, BQ.Taking(false), Carried);
    case Post(t, m, policy) => BQ.SumUpdate(p.q.pcs, t, BQ.Posting(m, policy), Carried);
    case PostTerminate => BQ.SumUpdate(p.q.pcs, p.workers, BQ.Posting(BQ.Terminate, BQ.Block), Carried);
    case Handle(t) => HandleCounts(p, t);
    case Reset(q) =>
  }

  // ---------------------------------------------------------------- order of delivery at shutdown

  function Terminates(n: nat): seq<Msg> {
    seq(n, i => BQ.Terminate)
  }

  /** Terminate messages the destructor has put into the queue so far. */
  function Sent(p: Pool): int
    requires p.workers < |p.q.pcs|
  {
    var pc := p.q.pcs[p.workers];
    p.workers - p.unposted - if pc.Posting? || pc.PopWait? || pc.PopAwake? then 1 else 0
  }

  /** What was in the queue when the destructor started comes out first, then its terminates. */
  ghost predicate InOrder(p: Pool) {
    p.closing ==>
      && p.workers < |p.q.pcs|
      && Sent(p) >= 0
      && p.q.dequeued + p.q.ring.items == p.atClose + Terminates(Sent(p))
  }

  lemma EnqueueKeepsInOrder(p: Pool, t: nat, policy: BQ.Policy)
    requires Roles(p) && BQ.WakeInv(p.q) && InOrder(p) && t < |p.q.pcs| && p.closing
    requires p.q.pcs[t].PopAwake? || p.q.pcs[t].Posting?
    requires policy == if p.q.pcs[t].Posting? then p.q.pcs[t].policy else BQ.Block
    ensures InOrder(p.(q := BQ.Enqueued(p.q, t, p.q.pcs[t].m, policy)))
  {
    EnqueueWhileRolesHold(p, t);
    var n := Sent(p);
    assert p.q.dequeued + (p.q.ring.items + [BQ.Terminate]) == p.q.dequeued + p.q.ring.items + [BQ.Terminate];
    assert p.atClose + Terminates(n) + [BQ.Terminate] == p.atClose + Terminates(n + 1);
  }

  lemma DequeueKeepsInOrder(p: Pool, t: nat, whenEmpty: Pc)
    requires InOrder(p) && t < p.workers < |p.q.pcs|
    ensures InOrder(p.(q := BQ.Dequeued(p.q, t, whenEmpty)))
  {
    if p.q.ring.items != [] {
      assert p.q.ring.items == [p.q.ring.items[0]] + p.q.ring.items[1..];
      assert p.q.dequeued + [p.q.ring.items[0]] + p.q.ring.items[1..] == p.q.dequeued + p.q.ring.items;
    }
  }

  lemma QuietKeepsInOrder(p: Pool, e: BQ.Event)
    requires Roles(p) && InOrder(p) && BQ.Next(p.q, e).Some?
    requires e.NotifyPush? || e.NotifyPop? || e.CountDiscard? || e.Spurious?
    ensures InOrder(p.(q := BQ.Next(p.q, e).value))
  {
    InsideMoves(p.q, e);
    assert RolePc(p, p.workers, p.q.pcs[p.workers]);
  }

  lemma InsideKeepsInOrder(p: Pool, e: BQ.Event)
    requires Roles(p) && BQ.WakeInv(p.q) && InOrder(p) && p.closing
    requires BQ.Next(p.q, e).Some? && (BQ.Internal(e) || e.Spurious?)
    ensures InOrder(p.(q := BQ.Next(p.q, e).value))
  {
    var pc := p.q.pcs[e.t];
    assert RolePc(p, e.t, pc);
    match e
    case LockEnqueue(t) => EnqueueKeepsInOrder(p, t, if pc.Posting? then pc.policy else BQ.Block);
    case LockDequeue(t) => DequeueKeepsInOrder(p, t, BQ.PushWait(pc.timed));
    case _ => QuietKeepsInOrder(p, e);
  }

  lemma StepKeepsInOrder(p: Pool, e: Event)
    requires Roles(p) && BQ.WakeInv(p.q) && InOrder(p) && Next(p, e).Some?
    requires !p.closing ==> p.unposted == 0
    ensures InOrder(Next(p, e).value)
  {
    if e.Inside? && p.closing {
      InsideKeepsInOrder(p, e.e);
    }
  }

  // ---------------------------------------------------------------- every dequeued message is handled once

  /** 1 for a thread that has taken `m` out of the queue and is not done with it. */
  function Holds(m: Msg): Pc -> nat {
    (pc: Pc) => if (pc.PopNotify? || pc.Returned?) && pc.m == m then 1 else 0
  }

  ghost predicate Delivered(p: Pool, m: Msg) {
    Released(p.q, m) == multiset(p.handled)[m]
  }

  lemma NotifyKeepsHeld(pcs: seq<Pc>, t: nat, back: Pc, wake: Option<nat>, m: Msg)
    requires t < |pcs| && Holds(m)(pcs[t]) == Holds(m)(back)
    requires wake.Some? ==> wake.value < |pcs|
    ensures BQ.Sum(BQ.WakeUp(pcs[t := back], wake), Holds(m)) == BQ.Sum(pcs, Holds(m))
  {
    BQ.SumUpdate(pcs, t, back, Holds(m));
    if wake.Some? {
      var pcs' := pcs[t := back];
      BQ.SumUpdate(pcs', wake.value, BQ.Woken(pcs'[wake.value]), Holds(m));
    }
  }

  lemma DequeueKeepsHeld(q: BQ.State, t: nat, whenEmpty: Pc, m: Msg)
    requires t < |q.pcs| && Holds(m)(q.pcs[t]) == Holds(m)(whenEmpty) == 0
    ensures var q' := BQ.Dequeued(q, t, whenEmpty);
            multiset(q'.dequeued)[m] - BQ.Sum(q'.pcs, Holds(m)) == multiset(q.dequeued)[m] - BQ.Sum(q.pcs, Holds(m))
  {
    if q.ring.items == [] {
      BQ.SumUpdate(q.pcs, t, whenEmpty, Holds(m));
    } else {
      var x := q.ring.items[0];
      BQ.SumUpdate(q.pcs, t, BQ.PopNotify(x), Holds(m));
      CountSnoc(q.dequeued, x, m);
    }
  }

  lemma EnqueueKeepsHeld(q: BQ.State, t: nat, x: Msg, policy: BQ.Policy, m: Msg)
    requires t < |q.pcs| && Holds(m)(q.pcs[t]) == 0
    ensures var q' := BQ.Enqueued(q, t, x, policy);
            q'.dequeued == q.dequeued && BQ.Sum(q'.pcs, Holds(m)) == BQ.Sum(q.pcs, Holds(m))
  {
    BQ.SumUpdate(q.pcs, t, BQ.Enqueued(q, t, x, policy).pcs[t], Holds(m));
  }

  lemma QuietKeepsHeld(pcs: seq<Pc>, t: nat, pc: Pc, m: Msg)
    requires t < |pcs| && Holds(m)(pcs[t]) == 0 && Holds(m)(pc) == 0
    ensures BQ.Sum(pcs[t := pc], Holds(m)) == BQ.Sum(pcs, Holds(m))
  {
    BQ.SumUpdate(pcs, t, pc, Holds(m));
  }

  /** How often `m` was taken out without being held by a thread. */
  function Released(q: BQ.State, m: Msg): int {
    multiset(q.dequeued)[m] - BQ.Sum(q.pcs, Holds(m))
  }

  lemma LockKeepsReleased(q: BQ.State, e: BQ.Event, m: Msg)
    requires BQ.Next(q, e).Some? && (e.LockEnqueue? || e.LockDequeue?)
    ensures Released(BQ.Next(q, e).value, m) == Released(q, m)
  {
    var pc := q.pcs[e.t];
    match e
    case LockEnqueue(t) => EnqueueKeepsHeld(q, t, pc.m, if pc.Posting? then pc.policy else BQ.Block, m);
    case LockDequeue(t) => DequeueKeepsHeld(q, t, if pc.Expired? then BQ.Idle else BQ.PushWait(pc.timed), m);
  }

  lemma NotifyKeepsReleased(q: BQ.State, e: BQ.Event, m: Msg)
    requires BQ.Next(q, e).Some? && (e.NotifyPush? || e.NotifyPop?)
    ensures Released(BQ.Next(q, e).value, m) == Released(q, m)
  {
    match e
    case NotifyPush(t, wake) => NotifyKeepsHeld(q.pcs, t, BQ.Idle, wake, m);
    case NotifyPop(t, wake) => NotifyKeepsHeld(q.pcs, t, BQ.Returned(q.pcs[t].m), wake, m);
  }

  /** A step inside the queue never changes it. */
  lemma InsideKeepsReleased(q: BQ.State, e: BQ.Event, m: Msg)
    requires BQ.Next(q, e).Some? && (BQ.Internal(e) || e.Spurious?)
    ensures Released(BQ.Next(q, e).value, m) == Released(q, m)
  {
    if e.LockEnqueue? || e.LockDequeue? {
      LockKeepsReleased(q, e, m);
    } else if e.NotifyPush? || e.NotifyPop? {
      NotifyKeepsReleased(q, e, m);
    } else {
      QuietKeepsHeld(q.pcs, e.t, if e.CountDiscard? then BQ.Idle else BQ.Woken(q.pcs[e.t]), m);
    }
  }

  lemma HandleKeepsDelivered(p: Pool, t: nat, m: Msg)
    requires Delivered(p, m) && Next(p, Handle(t)).Some?
    ensures Delivered(Next(p, Handle(t)).value, m)
  {
    var x := p.q.pcs[t].m;
    CountSnoc(p.handled, x, m);
    BQ.SumUpdate(p.q.pcs, t, BQ.Idle, Holds(m));
  }

  lemma InsideKeepsDelivered(p: Pool, e: BQ.Event, m: Msg)
    requires Delivered(p, m) && BQ.Next(p.q, e).Some? && (BQ.Internal(e) || e.Spurious?)
    ensures Delivered(p.(q := BQ.Next(p.q, e).value), m)
  {
    InsideKeepsReleased(p.q, e, m);
  }

  /** A thread that calls into the queue holds nothing yet. */
  lemma CallKeepsDelivered(p: Pool, e: Event, m: Msg)
    requires Delivered(p, m) && Next(p, e).Some? && (e.Work? || e.Post? || e.PostTerminate?)
    ensures Delivered(Next(p, e).value, m)
  {
    if e.Work? {
      QuietKeepsHeld(p.q.pcs, e.t, BQ.Taking(false), m);
    } else if e.Post? {
      QuietKeepsHeld(p.q.pcs, e.t, BQ.Posting(e.m, e.policy), m);
    } else {
      QuietKeepsHeld(p.q.pcs, p.workers, BQ.Posting(BQ.Terminate, BQ.Block), m);
    }
  }

  lemma StepKeepsDelivered(p: Pool, e: Event, m: Msg)
    requires Delivered(p, m) && Next(p, e).Some?
    ensures Delivered(Next(p, e).value, m)
  {
    if e.Inside? {
      InsideKeepsDelivered(p, e.e, m);
    } else if e.Handle? {
      HandleKeepsDelivered(p, e.t, m);
    } else if e != Close && !e.Reset? {
      CallKeepsDelivered(p, e, m);
    }
  }

  // ---------------------------------------------------------------- all invariants of a run

  ghost predicate Inv(p: Pool) {
    && BQ.WakeInv(p.q)
    && Roles(p) && Matched(p) && InOrder(p)
    && (!p.closing ==> p.unposted == 0)
    && p.workers >= 1
    && forall m :: Delivered(p, m)
  }

  lemma StepKeepsInv(p: Pool, e: Event)
    requires Inv(p) && Next(p, e).Some?
    ensures Inv(Next(p, e).value)
    ensures Next(p, e).value.q.ring.cap == p.q.ring.cap && Next(p, e).value.workers == p.workers
    ensures p.closing ==> Next(p, e).value.closing && Next(p, e).value.atClose == p.atClose
  {
    StepIsQueueStep(p, e);
    if e != Close {
      BQ.StepKeepsWakeInv(p.q, QueueStep(p, e).value);
      BQ.StepKeepsShape(p.q, QueueStep(p, e).value);
    }
    StepKeepsRoles(p, e);
    StepKeepsMatched(p, e);
    StepKeepsInOrder(p, e);
    forall m
      ensures Delivered(Next(p, e).value, m)
    {
      StepKeepsDelivered(p, e, m);
    }
  }

  lemma AllAlive(n: nat)
    ensures Live(seq(n, i => true)) == n
  {
    var alive := seq(n, i => true);
    if n > 0 {
      AllAlive(n - 1);
      assert alive == seq(n - 1, i => true) + [true];
    }
  }

  lemma ConstructedInv(cap: nat, threads: nat, clients: nat)
    requires 1 <= threads <= 1000
    ensures Inv(Construct(cap, threads, clients).value)
  {
    var p := Construct(cap, threads, clients).value;
    BQ.InitWakeInv(cap, threads + 1 + clients);
    BQ.SumOfZeros(p.q.pcs, Carried);
    AllAlive(threads);
    forall m
      ensures Delivered(p, m)
    {
      BQ.SumOfZeros(p.q.pcs, Holds(m));
    }
  }

  lemma {:induction false} RunKeepsInv(p: Pool, run: Run)
    requires Inv(p) && Exec(p, run).Some?
    ensures var p' := Exec(p, run).value;
            Inv(p') && p'.q.ring.cap == p.q.ring.cap && p'.workers == p.workers
            && (p.closing ==> p'.closing && p'.atClose == p.atClose)
  {
    if run.Then? {
      RunKeepsInv(p, run.before);
      StepKeepsInv(Exec(p, run.before).value, run.e);
    }
  }

  // ---------------------------------------------------------------- shutdown drains the queue

  predicate Spurious(e: Event) {
    e.Inside? && e.e.Spurious?
  }

  /** Nothing can happen any more but wake-ups that nobody sent. */
  ghost predicate Stalled(p: Pool) {
    forall e :: !Spurious(e) ==> Next(p, e).None?
  }

  lemma StalledPcs(p: Pool)
    requires Inv(p) && Stalled(p)
    ensures forall t :: 0 <= t < |p.q.pcs| ==> p.q.pcs[t].Idle? || BQ.Sleeps(p.q.pcs[t])
    ensures forall t :: 0 <= t < p.workers && p.alive[t] ==> p.q.pcs[t].PushWait?
    ensures p.closing && p.unposted > 0 ==> p.q.pcs[p.workers].PopWait?
  {
    forall e | BQ.Internal(e)
      ensures BQ.Next(p.q, e).None?
    {
      assert Next(p, Inside(e)).None?;
    }
    BQ.StalledIffAllAtRest(p.q);
    forall t | 0 <= t < |p.q.pcs|
      ensures p.q.pcs[t].Idle? || BQ.Sleeps(p.q.pcs[t])
      ensures t < p.workers && p.alive[t] ==> p.q.pcs[t].PushWait?
    {
      assert RolePc(p, t, p.q.pcs[t]);
      assert Next(p, Handle(t)).None? && Next(p, Work(t)).None?;
    }
    assert RolePc(p, p.workers, p.q.pcs[p.workers]);
    assert Next(p, PostTerminate).None?;
  }

  /** A worker still in its loop when nothing moves sleeps on an empty queue, so with room for one
      message the destructor has nothing left to wait for. */
  lemma NobodyLeft(p: Pool)
    requires Inv(p) && p.closing && Stalled(p) && p.q.ring.cap >= 1
    ensures forall t :: 0 <= t < p.workers ==> !p.alive[t]
  {
    StalledPcs(p);
    BQ.SumOfZeros(p.q.pcs, BQ.PushPending);
    BQ.SumOfZeros(p.q.pcs, BQ.PushAwakened);
    BQ.SumOfZeros(p.q.pcs, BQ.PopPending);
    BQ.SumOfZeros(p.q.pcs, BQ.PopAwakened);
    if t: nat :| t < p.workers && p.alive[t] {
      assert p.alive[t] in multiset(p.alive);
      BQ.SumAtLeast(p.q.pcs, t, BQ.PushSleeper);
      assert p.q.ring.items == [];
      if p.q.pcs[p.workers].PopWait? {
        BQ.SumAtLeast(p.q.pcs, p.workers, BQ.PopSleeper);
        assert false;
      }
      forall i | 0 <= i < |p.q.pcs|
        ensures Carried(p.q.pcs[i]) == 0
      {
        assert RolePc(p, i, p.q.pcs[i]);
      }
      BQ.SumOfZeros(p.q.pcs, Carried);
      assert false;
    }
  }

  lemma NoneAlive(alive: seq<bool>)
    requires forall t :: 0 <= t < |alive| ==> !alive[t]
    ensures Live(alive) == 0
  {
    assert true !in alive;
  }

  lemma LastIsTerminate(front: seq<Msg>, items: seq<Msg>, earlier: seq<Msg>, n: nat)
    requires front + items == earlier + Terminates(n) && n >= 1
    ensures items != [] ==> BQ.Terminate in multiset(items)
  {
    if items != [] {
      assert items[|items| - 1] == (front + items)[|front + items| - 1];
    }
  }

  /** When all workers have left, the terminates have all been taken out, and everything before them. */
  lemma EverythingTaken(p: Pool)
    requires Inv(p) && p.closing && forall t :: 0 <= t < p.workers ==> !p.alive[t]
    ensures p.q.ring.items == [] && p.unposted == 0
    ensures p.q.dequeued == p.atClose + Terminates(p.workers)
    ensures p.q.pcs[p.workers].Idle? || p.q.pcs[p.workers].PushNotify?
  {
    NoneAlive(p.alive);
    assert RolePc(p, p.workers, p.q.pcs[p.workers]);
    BQ.SumAtLeast(p.q.pcs, p.workers, Carried);
    assert Sent(p) == p.workers;
    LastIsTerminate(p.q.dequeued, p.q.ring.items, p.atClose, p.workers);
    assert p.q.ring.items == [];
  }

  /** The result of a shutdown. In any run, when the destructor has started and nothing but stray
      wake-ups can happen any more, every worker has left its loop (so the joins return), the queue is
      empty, what was queued when the destructor started was taken out in order before the terminates,
      and every message ever taken out has been handled by a worker. */
  lemma ShutdownDrains(cap: nat, threads: nat, clients: nat, run: Run)
    requires Construct(cap, threads, clients).Some? && cap >= 1
    requires Exec(Construct(cap, threads, clients).value, run).Some?
    requires var p := Exec(Construct(cap, threads, clients).value, run).value; p.closing && Stalled(p)
    ensures var p := Exec(Construct(cap, threads, clients).value, run).value;
            && (forall t :: 0 <= t < |p.alive| ==> !p.alive[t])
            && p.unposted == 0 && p.q.ring.items == []
            && p.q.dequeued == p.atClose + Terminates(threads)
            && multiset(p.handled) == multiset(p.q.dequeued)
  {
    var p := Exec(Construct(cap, threads, clients).value, run).value;
    ConstructedInv(cap, threads, clients);
    RunKeepsInv(Construct(cap, threads, clients).value, run);
    NobodyLeft(p);
    EverythingTaken(p);
    StalledPcs(p);
    forall m
      ensures multiset(p.handled)[m] == multiset(p.q.dequeued)[m]
    {
      BQ.SumOfZeros(p.q.pcs, Holds(m));
      assert Delivered(p, m);
    }
  }

  // ---------------------------------------------------------------- shutdown terminates

  function Weight(pc: Pc): nat {
    match pc
    case PushWait(_) => 0
    case PushAwake(_) => 1
    case Taking(_) => 1
    case Idle => 2
    case Returned(_) => 3
    case PushNotify => 4
    case PopNotify(_) => 5
    case PopWait(_) => 9
    case PopAwake(_) => 10
    case Posting(_, _) => 10
    case _ => 0
  }

  /** Work that is left: every step of a shutdown that is not a stray wake-up makes it smaller. */
  function Remaining(p: Pool): nat {
    5 * |p.q.ring.items| + 9 * p.unposted + BQ.Sum(p.q.pcs, Weight)
  }

  lemma NotifyLowersRemaining(p: Pool, e: BQ.Event)
    requires BQ.Next(p.q, e).Some? && (e.NotifyPush? || e.NotifyPop?)
    ensures Remaining(p.(q := BQ.Next(p.q, e).value)) < Remaining(p)
  {
    var back := if e.NotifyPush? then BQ.Idle else BQ.Returned(p.q.pcs[e.t].m);
    BQ.SumUpdate(p.q.pcs, e.t, back, Weight);
    if e.wake.Some? {
      var pcs, w := p.q.pcs[e.t := back], e.wake.value;
      BQ.SumUpdate(pcs, w, BQ.Woken(pcs[w]), Weight);
    }
  }

  lemma LockLowersRemaining(p: Pool, e: BQ.Event)
    requires Inv(p) && p.closing && BQ.Next(p.q, e).Some? && (e.LockEnqueue? || e.LockDequeue?)
    ensures Remaining(p.(q := BQ.Next(p.q, e).value)) < Remaining(p)
  {
    var q' := BQ.Next(p.q, e).value;
    assert RolePc(p, e.t, p.q.pcs[e.t]);
    BQ.SumUpdate(p.q.pcs, e.t, q'.pcs[e.t], Weight);
    if e.LockEnqueue? {
      EnqueueWhileRolesHold(p, e.t);
    }
  }

  lemma InsideLowersRemaining(p: Pool, e: BQ.Event)
    requires Inv(p) && p.closing && BQ.Next(p.q, e).Some? && (BQ.Internal(e) || e.Spurious?)
    ensures Remaining(p.(q := BQ.Next(p.q, e).value)) <= Remaining(p) + if e.Spurious? then 1 else -1
  {
    assert RolePc(p, e.t, p.q.pcs[e.t]);
    match e
    case LockEnqueue(_) => LockLowersRemaining(p, e);
    case LockDequeue(_) => LockLowersRemaining(p, e);
    case NotifyPush(_, _) => NotifyLowersRemaining(p, e);
    case NotifyPop(_, _) => NotifyLowersRemaining(p, e);
    case CountDiscard(_) =>
    case Spurious(t) => BQ.SumUpdate(p.q.pcs, t, BQ.Woken(p.q.pcs[t]), Weight);
  }

  lemma StepLowersRemaining(p: Pool, e: Event)
    requires Inv(p) && p.closing && Next(p, e).Some?
    ensures Remaining(Next(p, e).value) <= Remaining(p) + if Spurious(e) then 1 else -1
  {
    match e
    case Work(t) => BQ.SumUpdate(p.q.pcs, t, BQ.Taking(false), Weight);
    case Handle(t) => BQ.SumUpdate(p.q.pcs, t, BQ.Idle, Weight);
    case PostTerminate => BQ.SumUpdate(p.q.pcs, p.workers, BQ.Posting(BQ.Terminate, BQ.Block), Weight);
    case Inside(q) =>
      InsideLowersRemaining(p, q);
    case _ =>
  }

  function Length(run: Run): nat {
    match run
    case Start => 0
    case Then(before, _) => Length(before) + 1
  }

  function Stray(run: Run): nat {
    match run
    case Start => 0
    case Then(before, e) => Stray(before) + if Spurious(e) then 1 else 0
  }

  /** Shutdown cannot go on for ever: apart from stray wake-ups a run of it has at most as many steps as
      there was work left, plus one for each stray wake-up. */
  lemma {:induction false} ShutdownTerminates(p: Pool, run: Run)
    requires Inv(p) && p.closing && Exec(p, run).Some?
    ensures Length(run) - Stray(run) + Remaining(Exec(p, run).value) <= Remaining(p) + Stray(run)
  {
    if run.Then? {
      ShutdownTerminates(p, run.before);
      RunKeepsInv(p, run.before);
      StepLowersRemaining(Exec(p, run.before).value, run.e);
    }
  }

  // ---------------------------------------------------------------- a pool without room hangs

  ghost predicate Starved(p: Pool) {
    && p.q.ring == EmptyRing<Msg>(0).(overrun := p.q.ring.overrun)
    && (forall t :: 0 <= t < |p.q.pcs| ==> !p.q.pcs[t].PopNotify? && !p.q.pcs[t].Returned?)
    && forall t :: 0 <= t < |p.alive| ==> p.alive[t]
  }

  lemma StarvedStep(p: Pool, e: Event)
    requires Starved(p) && Next(p, e).Some?
    ensures Starved(Next(p, e).value)
  {
    if e.Inside? {
      match e.e
      case LockEnqueue(t) =>
      case LockDequeue(t) =>
      case NotifyPush(t, wake) =>
      case _ =>
    }
  }

  /** With capacity 0 the condition of ShutdownDrains is not met, and no worker ever leaves. */
  lemma {:induction false} NoRoomNoShutdown(threads: nat, clients: nat, run: Run)
    requires Construct(0, threads, clients).Some?
    requires Exec(Construct(0, threads, clients).value, run).Some?
    ensures Starved(Exec(Construct(0, threads, clients).value, run).value)
  {
    if run.Then? {
      NoRoomNoShutdown(threads, clients, run.before);
      StarvedStep(Exec(Construct(0, threads, clients).value, run.before).value, run.e);
    }
  }
}
