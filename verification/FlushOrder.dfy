/**
 What a handled flush says about the messages posted before it: with one worker everything, with more
 workers nothing.
 */
module FlushOrder {
  import opened Wrappers
  import BQ = BlockingQueue
  import opened ThreadPool
  import opened Sequences

  /** What a worker has taken and not yet handled. */
  function InHand(pc: Pc): seq<Msg> {
    if pc.PopNotify? || pc.Returned? then [pc.m] else []
  }

  /** A single worker handles messages in the order in which they are taken out. */
  ghost predicate OneAtATime(p: Pool) {
    p.workers == 1 && Roles(p) && p.q.dequeued == p.handled + InHand(p.q.pcs[0])
  }

  lemma InsideKeepsOneAtATime(p: Pool, e: BQ.Event)
    requires OneAtATime(p) && BQ.Next(p.q, e).Some? && (BQ.Internal(e) || e.Spurious?)
    ensures var q' := BQ.Next(p.q, e).value; 0 < |q'.pcs| && q'.dequeued == p.handled + InHand(q'.pcs[0])
  {
    assert forall t :: 0 <= t < |p.q.pcs| ==> RolePc(p, t, p.q.pcs[t]);
    match e
    case LockDequeue(t) =>
      assert t == 0;
      assert p.handled + [] == p.handled;
    case LockEnqueue(t) =>
      assert t != 0;
    case NotifyPush(t, wake) =>
      assert t != 0;
    case NotifyPop(t, wake) =>
    case CountDiscard(t) =>
    case Spurious(t) =>
  }

  lemma StepKeepsOneAtATime(p: Pool, e: Event)
    requires OneAtATime(p) && Next(p, e).Some?
    ensures OneAtATime(Next(p, e).value)
  {
    StepKeepsRoles(p, e);
    match e
    case Inside(q) => InsideKeepsOneAtATime(p, q);
    case Handle(t) =>
      assert t == 0;
      assert p.handled + [p.q.pcs[0].m] + [] == p.handled + [p.q.pcs[0].m];
    case _ =>
  }

  lemma {:induction false} RunKeepsOneAtATime(p: Pool, run: Run)
    requires OneAtATime(p) && Exec(p, run).Some?
    ensures OneAtATime(Exec(p, run).value)
  {
    if run.Then? {
      RunKeepsOneAtATime(p, run.before);
      StepKeepsOneAtATime(Exec(p, run.before).value, run.e);
    }
  }

  lemma {:induction false} SubseqPrefix<T>(a: seq<T>, c: seq<T>, b: seq<T>)
    requires Subseq(a + c, b)
    ensures Subseq(a, b)
    decreases |c|
  {
    if c == [] {
      assert a + c == a;
    } else {
      var all, last := a + c, |a| + |c| - 1;
      SubseqDelete(all, last, b);
      assert all[..last] + all[last + 1..] == a + c[..|c| - 1];
      SubseqPrefix(a, c[..|c| - 1], b);
    }
  }

  /** With one worker and any mix of the overflow policies, messages are handled in the order in which they were
      posted; some may be missing. */
  lemma SingleWorkerKeepsTheOrder(cap: nat, clients: nat, run: Run)
    requires Exec(Construct(cap, 1, clients).value, run).Some?
    ensures var p := Exec(Construct(cap, 1, clients).value, run).value;
            |p.handled| <= |p.q.dequeued| <= |p.handled| + 1 && p.handled == p.q.dequeued[..|p.handled|] &&
            Subseq(p.handled, p.q.posted)
  {
    var p0 := Construct(cap, 1, clients).value;
    var p := Exec(p0, run).value;
    RunKeepsOneAtATime(p0, run);
    PoolAccounted(cap, 1 + 1 + clients, p0, run, p);
    HandledIsAPrefix(p.handled, InHand(p.q.pcs[0]), p.q.ring.items, p.q.dequeued, p.q.posted);
  }

  lemma HandledIsAPrefix(handled: seq<Msg>, inHand: seq<Msg>, items: seq<Msg>, dequeued: seq<Msg>, posted: seq<Msg>)
    requires dequeued == handled + inHand && |inHand| <= 1 && Subseq(dequeued + items, posted)
    ensures |handled| <= |dequeued| <= |handled| + 1 && handled == dequeued[..|handled|] && Subseq(handled, posted)
  {
    Regroup(handled, inHand, items);
    SubseqPrefix(handled, inHand + items, posted);
  }

  lemma Regroup<T>(a: seq<T>, b: seq<T>, c: seq<T>)
    ensures a + b + c == a + (b + c) && (a + b)[..|a|] == a
  {}

  /** The workers are done with exactly the first messages posted, in that order. */
  ghost predicate HandledInOrder(p: Pool) {
    |p.handled| <= |p.q.posted| && p.handled == p.q.posted[..|p.handled|]
  }

  lemma SingleWorkerHandlesInOrder(cap: nat, clients: nat, run: Run)
    requires Exec(Construct(cap, 1, clients).value, run).Some? && AllBlocking(run)
    ensures HandledInOrder(Exec(Construct(cap, 1, clients).value, run).value)
  {
    var p0 := Construct(cap, 1, clients).value;
    var p := Exec(p0, run).value;
    RunKeepsOneAtATime(p0, run);
    PoolBlockPolicyIsFifo(cap, 1, clients, run, p);
  }

  /** A flush is a barrier: when a single worker has handled it, everything posted before it has been handled
      before it, in order. */
  lemma FlushIsABarrier(cap: nat, clients: nat, run: Run, i: nat)
    requires Exec(Construct(cap, 1, clients).value, run).Some? && AllBlocking(run)
    requires var p := Exec(Construct(cap, 1, clients).value, run).value; i < |p.handled| && p.handled[i].Flush?
    ensures var p := Exec(Construct(cap, 1, clients).value, run).value;
            i < |p.q.posted| && p.q.posted[i] == p.handled[i] && p.q.posted[..i] == p.handled[..i]
  {
    SingleWorkerHandlesInOrder(cap, clients, run);
    var p := Exec(Construct(cap, 1, clients).value, run).value;
    assert p.handled[i] == p.q.posted[..|p.handled|][i];
  }

  // ---------------------------------------------------------------- more than one worker

  /** Nothing is stored, nobody sleeps, and the pool is open. */
  ghost predicate Quiet(p: Pool) {
    Roles(p) && !p.closing && p.q.ring.enabled && p.q.ring.cap >= 1 && p.q.ring.items == [] &&
    forall t :: 0 <= t < |p.q.pcs| ==> !BQ.Sleeps(p.q.pcs[t])
  }

  /** Client `c` posts `m`, and worker `t` takes it. */
  function PostAndTake(run: Run, c: nat, t: nat, m: Msg): Run {
    Then(Then(Then(PostOnly(run, c, m), Work(t)), Inside(BQ.LockDequeue(t))), Inside(BQ.NotifyPop(t, None)))
  }

  function PostOnly(run: Run, c: nat, m: Msg): Run {
    Then(Then(Then(run, Post(c, m, BQ.Block)), Inside(BQ.LockEnqueue(c))), Inside(BQ.NotifyPush(c, None)))
  }

  lemma PostedOnly(p0: Pool, run: Run, c: nat, m: Msg)
    requires Exec(p0, run).Some? && Quiet(Exec(p0, run).value) && m != BQ.Terminate
    requires var p := Exec(p0, run).value; p.workers < c < |p.q.pcs| && p.q.pcs[c] == BQ.Idle
    ensures var p := Exec(p0, run).value;
            Exec(p0, PostOnly(run, c, m)) ==
            Some(p.(q := p.q.(ring := p.q.ring.(items := [m]), posted := p.q.posted + [m])))
  {
    var p := Exec(p0, run).value;
    var r1 := Then(run, Post(c, m, BQ.Block));
    var p1 := p.(q := p.q.(pcs := p.q.pcs[c := BQ.Posting(m, BQ.Block)]));
    assert Exec(p0, r1) == Some(p1);
    var r2 := Then(r1, Inside(BQ.LockEnqueue(c)));
    var ring := p.q.ring.(items := [m]);
    assert p.q.ring.PushBack(m) == ring;
    var p2 := p.(q := p.q.(pcs := p.q.pcs[c := BQ.PushNotify], ring := ring, posted := p.q.posted + [m]));
    assert p1.q.pcs[c := BQ.PushNotify] == p2.q.pcs;
    assert Exec(p0, r2) == Some(p2);
    Notified(p2, c);
    assert p2.q.pcs[c := BQ.Idle] == p.q.pcs;
  }

  /** A notification that wakes nobody. */
  lemma Notified(p: Pool, c: nat)
    requires c < |p.q.pcs| && p.q.pcs[c] == BQ.PushNotify
    requires forall t :: 0 <= t < |p.q.pcs| ==> !BQ.Sleeps(p.q.pcs[t])
    ensures Next(p, Inside(BQ.NotifyPush(c, None))) == Some(p.(q := p.q.(pcs := p.q.pcs[c := BQ.Idle])))
  {
    assert BQ.WakesOne(p.q.pcs, BQ.OnPushCv, None);
  }

  lemma TakenBy(p0: Pool, run: Run, t: nat, m: Msg)
    requires Exec(p0, run).Some?
    requires var p := Exec(p0, run).value;
             Roles(p) && !p.closing && p.q.ring.items == [m] && t < p.workers && p.alive[t] &&
             p.q.pcs[t] == BQ.Idle && forall i :: 0 <= i < |p.q.pcs| ==> !BQ.Sleeps(p.q.pcs[i])
    ensures var p := Exec(p0, run).value;
            Exec(p0, Then(Then(Then(run, Work(t)), Inside(BQ.LockDequeue(t))), Inside(BQ.NotifyPop(t, None)))) ==
            Some(p.(q := p.q.(ring := p.q.ring.(items := []), dequeued := p.q.dequeued + [m],
                              pcs := p.q.pcs[t := BQ.Returned(m)])))
  {
    var p := Exec(p0, run).value;
    var r1 := Then(run, Work(t));
    var p1 := p.(q := p.q.(pcs := p.q.pcs[t := BQ.Taking(false)]));
    assert Exec(p0, r1) == Some(p1);
    var r2 := Then(r1, Inside(BQ.LockDequeue(t)));
    var p2 := p.(q := p.q.(pcs := p.q.pcs[t := BQ.PopNotify(m)], ring := p.q.ring.(items := []),
                           dequeued := p.q.dequeued + [m]));
    assert p1.q.pcs[t := BQ.PopNotify(m)] == p2.q.pcs;
    assert Exec(p0, r2) == Some(p2);
    assert p2.q.pcs[t := BQ.Returned(m)] == p.q.pcs[t := BQ.Returned(m)];
    assert BQ.WakesOne(p2.q.pcs, BQ.OnPopCv, None);
  }

  lemma PostedAndTaken(p0: Pool, run: Run, c: nat, t: nat, m: Msg)
    requires Exec(p0, run).Some? && Quiet(Exec(p0, run).value) && m != BQ.Terminate
    requires var p := Exec(p0, run).value;
             t < p.workers < c < |p.q.pcs| && p.q.pcs[c] == BQ.Idle && p.q.pcs[t] == BQ.Idle && p.alive[t]
    ensures var p := Exec(p0, run).value;
            Exec(p0, PostAndTake(run, c, t, m)) ==
            Some(p.(q := p.q.(posted := p.q.posted + [m], dequeued := p.q.dequeued + [m],
                              pcs := p.q.pcs[t := BQ.Returned(m)])))
  {
    PostedOnly(p0, run, c, m);
    TakenBy(p0, PostOnly(run, c, m), t, m);
    assert p0.q.ring.(items := []).items == [];
  }

  /** A client logs and flushes; the first worker takes the log message, the second one the flush, and is done
      with it before the first. */
  function OvertakingRun(c: nat): Run {
    Then(PostAndTake(PostAndTake(Start, c, 0, BQ.Log(0)), c, 1, BQ.Flush(1)), Handle(1))
  }

  lemma FlushOvertakes(cap: nat, threads: nat, clients: nat)
    requires cap >= 1 && 2 <= threads <= 1000 && clients >= 1
    ensures var run := OvertakingRun(threads + 1);
            AllBlocking(run) && Exec(Construct(cap, threads, clients).value, run).Some? &&
            var p := Exec(Construct(cap, threads, clients).value, run).value;
            p.q.posted == [BQ.Log(0), BQ.Flush(1)] && p.handled == [BQ.Flush(1)]
  {
    var p0, c := Construct(cap, threads, clients).value, threads + 1;
    var r1 := PostAndTake(Start, c, 0, BQ.Log(0));
    FirstIsTaken(cap, threads, clients);
    SecondOvertakes(p0, r1, c);
    BlockingOnly(c);
    assert [BQ.Log(0)] + [BQ.Flush(1)] == [BQ.Log(0), BQ.Flush(1)];
  }

  /** The first worker has a message in hand; the second one and the client are free. */
  ghost predicate ReadyToOvertake(p: Pool, c: nat) {
    Quiet(p) && 1 < p.workers < c < |p.q.pcs| && p.alive[1] && p.q.pcs[1] == BQ.Idle && p.q.pcs[c] == BQ.Idle &&
    p.handled == []
  }

  lemma FirstIsTaken(cap: nat, threads: nat, clients: nat)
    requires cap >= 1 && 2 <= threads <= 1000 && clients >= 1
    ensures var p := Exec(Construct(cap, threads, clients).value, PostAndTake(Start, threads + 1, 0, BQ.Log(0)));
            p.Some? && ReadyToOvertake(p.value, threads + 1) && p.value.q.posted == [BQ.Log(0)]
  {
    var p0, c := Construct(cap, threads, clients).value, threads + 1;
    ConstructedIsQuiet(cap, threads, clients);
    PostedAndTaken(p0, Start, c, 0, BQ.Log(0));
    StaysQuiet(p0, Exec(p0, PostAndTake(Start, c, 0, BQ.Log(0))).value, 0, BQ.Log(0));
    assert [] + [BQ.Log(0)] == [BQ.Log(0)];
  }

  lemma SecondOvertakes(p0: Pool, r1: Run, c: nat)
    requires Exec(p0, r1).Some? && ReadyToOvertake(Exec(p0, r1).value, c)
    ensures var p := Exec(p0, Then(PostAndTake(r1, c, 1, BQ.Flush(1)), Handle(1)));
            p.Some? && p.value.handled == [BQ.Flush(1)] &&
            p.value.q.posted == Exec(p0, r1).value.q.posted + [BQ.Flush(1)]
  {
    PostedAndTaken(p0, r1, c, 1, BQ.Flush(1));
    HandledFirst(p0, PostAndTake(r1, c, 1, BQ.Flush(1)), BQ.Flush(1));
  }

  lemma BlockingOnly(c: nat)
    ensures AllBlocking(OvertakingRun(c))
  {
    PostBlocks(Start, c, 0, BQ.Log(0));
    PostBlocks(PostAndTake(Start, c, 0, BQ.Log(0)), c, 1, BQ.Flush(1));
  }

  lemma PostBlocks(run: Run, c: nat, t: nat, m: Msg)
    requires AllBlocking(run)
    ensures AllBlocking(PostAndTake(run, c, t, m))
  {
    var posted := PostOnly(run, c, m);
    assert AllBlocking(posted) by {
      assert AllBlocking(Then(run, Post(c, m, BQ.Block)));
    }
    assert AllBlocking(Then(posted, Work(t)));
  }

  /** The second worker is done. */
  lemma HandledFirst(p0: Pool, run: Run, m: Msg)
    requires Exec(p0, run).Some? && m != BQ.Terminate
    requires var p := Exec(p0, run).value;
             1 < p.workers && |p.alive| == p.workers && 1 < |p.q.pcs| && p.q.pcs[1] == BQ.Returned(m) && p.handled == []
    ensures var p := Exec(p0, Then(run, Handle(1)));
            p.Some? && p.value.handled == [m] && p.value.q.posted == Exec(p0, run).value.q.posted
  {
    var p := Exec(p0, run).value;
    assert Exec(p0, Then(run, Handle(1))) == Next(p, Handle(1));
  }

  lemma ConstructedIsQuiet(cap: nat, threads: nat, clients: nat)
    requires cap >= 1 && 1 <= threads <= 1000
    ensures Quiet(Construct(cap, threads, clients).value)
  {}

  lemma StaysQuiet(p: Pool, p': Pool, t: nat, m: Msg)
    requires Quiet(p) && t < p.workers && p.alive[t] && p'.q.ring == p.q.ring
    requires p' == p.(q := p'.q) && p'.q.pcs == p.q.pcs[t := BQ.Returned(m)]
    ensures Quiet(p')
  {
    forall i | 0 <= i < |p'.q.pcs|
      ensures RolePc(p', i, p'.q.pcs[i])
    {
      assert RolePc(p, i, p.q.pcs[i]);
    }
  }

  /** With blocking posts, messages are always handled in the order of posting if and only if there is one
      worker. */
  lemma OrderNeedsASingleWorker(cap: nat, threads: nat, clients: nat)
    requires cap >= 1 && 1 <= threads <= 1000 && clients >= 1
    ensures (forall run :: Exec(Construct(cap, threads, clients).value, run).Some? && AllBlocking(run) ==>
                             HandledInOrder(Exec(Construct(cap, threads, clients).value, run).value))
            <==> threads == 1
  {
    if threads == 1 {
      forall run | Exec(Construct(cap, threads, clients).value, run).Some? && AllBlocking(run)
        ensures HandledInOrder(Exec(Construct(cap, threads, clients).value, run).value)
      {
        SingleWorkerHandlesInOrder(cap, clients, run);
      }
    } else {
      FlushOvertakes(cap, threads, clients);
      var run := OvertakingRun(threads + 1);
      var p := Exec(Construct(cap, threads, clients).value, run).value;
      assert p.handled[0] != p.q.posted[..1][0];
    }
  }
}
