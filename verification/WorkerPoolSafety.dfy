/** Safety of the worker pool over every interleaving. */
module WorkerPoolSafety {
  import opened Counting
  import opened Workers

  // ---------------------------------------------------------------------------
  // Sums
  // ---------------------------------------------------------------------------

  lemma {:induction false} SendSumSet(cs: seq<Caller>, i: nat, c: Caller, w: WorkerId)
    requires i < |cs|
    ensures SendSum(cs[i := c], w) == SendSum(cs, w) - B(cs[i] == Sending(w)) + B(c == Sending(w))
    ensures SendSum(cs, w) >= B(cs[i] == Sending(w))
  {
    var n := |cs|;
    var cs' := cs[i := c];
    if i == n - 1 {
      assert cs'[..n - 1] == cs[..n - 1];
    } else {
      SendSumSet(cs[..n - 1], i, c, w);
      assert cs'[..n - 1] == cs[..n - 1][i := c];
    }
  }

  lemma {:induction false} WorkersSet(ws: seq<Worker>, w: WorkerId, x: Worker, c: ConnId)
    requires w < |ws|
    ensures ConnSum(ws[w := x], c) == ConnSum(ws, c) - HasConn(ws[w], c) + HasConn(x, c)
    ensures ConnSum(ws, c) >= HasConn(ws[w], c)
    ensures Running(ws[w := x]) == Running(ws) - B(!ws[w].phase.Finished?) + B(!x.phase.Finished?)
  {
    var n := |ws|;
    var ws' := ws[w := x];
    if w == n - 1 {
      assert ws'[..n - 1] == ws[..n - 1];
    } else {
      WorkersSet(ws[..n - 1], w, x, c);
      assert ws'[..n - 1] == ws[..n - 1][w := x];
    }
  }

  lemma {:induction false} CountCat(a: seq<Ready>, b: seq<Ready>, w: WorkerId)
    ensures Count(a + b, w) == Count(a, w) + Count(b, w)
  {
    if b == [] {
      assert a + b == a;
    } else {
      var n := |b|;
      CountCat(a, b[..n - 1], w);
      assert (a + b)[..|a + b| - 1] == a + b[..n - 1];
    }
  }

  lemma CountOne(x: Ready, w: WorkerId)
    ensures Count([x], w) == B(x.w == w)
  {
    assert [x][..0] == [];
  }

  lemma CountPush(ready: seq<Ready>, x: Ready, w: WorkerId)
    ensures Count(ready + [x], w) == Count(ready, w) + B(x.w == w)
  {
    assert (ready + [x])[..|ready|] == ready;
  }

  // ---------------------------------------------------------------------------
  // Every action keeps the invariant
  // ---------------------------------------------------------------------------

  lemma ArriveKeeps(s: State)
    requires Inv(s)
    ensures Inv(Apply(s, Arrive))
  {
    var s' := Apply(s, Arrive);
    assert s'.callers[..|s.callers|] == s.callers;
    forall w | 0 <= w < |s.workers| ensures Hands(s', w) == 1 {
      assert Hands(s, w) == 1;
    }
  }

  lemma {:induction false} SendSumZero(cs: seq<Caller>, w: WorkerId)
    requires forall i | 0 <= i < |cs| && cs[i].Sending? :: cs[i].w < w
    ensures SendSum(cs, w) == 0
  {
    if cs != [] {
      SendSumZero(cs[..|cs| - 1], w);
    }
  }

  lemma {:induction false} CountZero(ready: seq<Ready>, w: WorkerId)
    requires forall i | 0 <= i < |ready| :: ready[i].w < w
    ensures Count(ready, w) == 0
  {
    if ready != [] {
      CountZero(ready[..|ready| - 1], w);
    }
  }

  lemma GetChReadyKeeps(s: State, i: ConnId)
    requires Inv(s) && Enabled(s, GetCh(i)) && s.ready != []
    ensures Inv(Apply(s, GetCh(i)))
  {
    hide Count, SendSum, ConnSum, Running;
    var s' := Apply(s, GetCh(i));
    var n := |s.ready| - 1;
    assert s.ready == s.ready[..n] + [s.ready[n]];
    forall w | 0 <= w < |s.workers| ensures Hands(s', w) == 1 {
      assert Hands(s, w) == 1;
      CountPush(s.ready[..n], s.ready[n], w);
      SendSumSet(s.callers, i, Sending(s.ready[n].w), w);
    }
  }

  lemma NewWorkerSums(ws: seq<Worker>, c: ConnId)
    ensures ConnSum(ws + [Worker(Idle, [])], c) == ConnSum(ws, c)
    ensures Running(ws + [Worker(Idle, [])]) == Running(ws) + 1
  {
    assert (ws + [Worker(Idle, [])])[..|ws|] == ws;
  }

  lemma GetChNewHands(s: State, i: ConnId, w: WorkerId)
    requires Inv(s) && Enabled(s, GetCh(i)) && s.ready == [] && w < |Apply(s, GetCh(i)).workers|
    ensures Hands(Apply(s, GetCh(i)), w) == 1
  {
    var s' := Apply(s, GetCh(i));
    SendSumSet(s.callers, i, s'.callers[i], w);
    if w < |s.workers| {
      assert Hands(s, w) == 1;
    } else {
      SendSumZero(s.callers, w);
      CountZero(s.scratch, w);
    }
  }

  lemma GetChNewKeeps(s: State, i: ConnId)
    requires Inv(s) && Enabled(s, GetCh(i)) && s.ready == []
    ensures Inv(Apply(s, GetCh(i)))
  {
    var s' := Apply(s, GetCh(i));
    if s.workersCount < s.maxWorkers {
      forall c: ConnId ensures ConnSum(s'.workers, c) == ConnSum(s.workers, c) {
        NewWorkerSums(s.workers, c);
      }
      NewWorkerSums(s.workers, 0);
    }
    forall w | 0 <= w < |s'.workers| ensures Hands(s', w) == 1 {
      GetChNewHands(s, i, w);
    }
    hide Hands, ConnSum, Running;
  }

  /** A message put into an inbox: one more hand on its channel, and a connection only for Serve. */
  lemma {:induction false} PutSums(ws: seq<Worker>, w: WorkerId, m: Message, c: ConnId)
    requires w < |ws|
    ensures ConnSum(Put(ws, w, m), c) == ConnSum(ws, c) + B(m == Serve(c))
    ensures Running(Put(ws, w, m)) == Running(ws)
  {
    hide ConnSum, Running;
    WorkersSet(ws, w, Put(ws, w, m)[w], c);
  }

  lemma SendHands(s: State, i: ConnId, w: WorkerId)
    requires Inv(s) && Enabled(s, Send(i)) && w < |s.workers|
    ensures Hands(Apply(s, Send(i)), w) == 1
  {
    hide Count, SendSum, ConnSum, Running;
    assert Hands(s, w) == 1;
    SendSumSet(s.callers, i, Sent, w);
  }

  lemma SendKeeps(s: State, i: ConnId)
    requires Inv(s) && Enabled(s, Send(i))
    ensures Inv(Apply(s, Send(i)))
  {
    hide Hands, ConnSum, Running;
    var s' := Apply(s, Send(i));
    forall w | 0 <= w < |s.workers| ensures Hands(s', w) == 1 {
      SendHands(s, i, w);
    }
    forall c: ConnId
      ensures ConnSum(s'.workers, c) == ConnSum(s.workers, c) + B(c == i)
    {
      PutSums(s.workers, s.callers[i].w, Serve(i), c);
    }
    PutSums(s.workers, s.callers[i].w, Serve(i), 0);
  }

  lemma WorkerMoveHands(s: State, a: Action, w: WorkerId)
    requires Inv(s) && Enabled(s, a) && (a.Receive? || a.Complete? || a.Exit?) && w < |s.workers|
    ensures Hands(Apply(s, a), w) == 1
  {
    hide Count, SendSum, ConnSum, Running;
    assert Hands(s, w) == 1;
    assert Hands(s, a.w) == 1;
  }

  /** What one worker's own step does to the connections in the pool. */
  lemma WorkerMoveConns(s: State, a: Action, c: ConnId)
    requires WellFormed(s) && Enabled(s, a) && (a.Receive? || a.Complete? || a.Exit?)
    ensures ConnSum(Apply(s, a).workers, c) == ConnSum(s.workers, c) - Finishes(s, a, c)
    ensures Running(Apply(s, a).workers) == Running(s.workers) - B(a.Exit?)
  {
    hide ConnSum, Running;
    WorkersSet(s.workers, a.w, Apply(s, a).workers[a.w], c);
    if a.Receive? {
      var inbox := s.workers[a.w].inbox;
      assert inbox == [inbox[0]] + inbox[1..];
    }
  }

  lemma WorkerMoveKeeps(s: State, a: Action)
    requires Inv(s) && Enabled(s, a) && (a.Receive? || a.Complete? || a.Exit?)
    ensures Inv(Apply(s, a))
  {
    hide Hands, ConnSum, Running, Finishes;
    var s' := Apply(s, a);
    forall c: ConnId ensures ConnSum(s'.workers, c) <= ConnSum(s.workers, c) {
      WorkerMoveConns(s, a, c);
    }
    WorkerMoveConns(s, a, 0);
    forall w | 0 <= w < |s.workers| ensures Hands(s', w) == 1 {
      WorkerMoveHands(s, a, w);
    }
  }

  lemma ReleaseHands(s: State, w0: WorkerId, w: WorkerId)
    requires Inv(s) && Enabled(s, Release(w0)) && w < |s.workers|
    ensures Hands(Apply(s, Release(w0)), w) == 1
  {
    hide Count, SendSum, ConnSum, Running;
    assert Hands(s, w) == 1;
    CountPush(s.ready, Ready(w0, s.clock), w);
  }

  lemma ReleaseKeeps(s: State, w0: WorkerId)
    requires Inv(s) && Enabled(s, Release(w0))
    ensures Inv(Apply(s, Release(w0)))
  {
    hide Hands, ConnSum, Running;
    var s' := Apply(s, Release(w0));
    forall c: ConnId
      ensures ConnSum(s'.workers, c) == ConnSum(s.workers, c)
    {
      WorkersSet(s.workers, w0, s'.workers[w0], c);
    }
    WorkersSet(s.workers, w0, s'.workers[w0], 0);
    forall w | 0 <= w < |s.workers| ensures Hands(s', w) == 1 {
      ReleaseHands(s, w0, w);
    }
  }

  lemma CleanKeeps(s: State, maxIdle: nat)
    requires Inv(s) && Enabled(s, Clean(maxIdle))
    ensures Inv(Apply(s, Clean(maxIdle)))
  {
    hide Count, SendSum, ConnSum, Running;
    var s' := Apply(s, Clean(maxIdle));
    var n := ExpiredPrefix(s.ready, s.clock - maxIdle);
    assert s.ready == s.ready[..n] + s.ready[n..];
    forall w | 0 <= w < |s.workers| ensures Hands(s', w) == 1 {
      assert Hands(s, w) == 1;
      CountCat(s.ready[..n], s.ready[n..], w);
      EmptyCount(s.scratch, w);
    }
  }

  lemma EmptyCount(ready: seq<Ready>, w: WorkerId)
    ensures ready == [] ==> Count(ready, w) == 0
  {
  }

  lemma NotifyHands(s: State, w: WorkerId)
    requires Inv(s) && Enabled(s, Notify) && w < |s.workers|
    ensures Hands(Apply(s, Notify), w) == 1
  {
    hide Count, SendSum, ConnSum, Running;
    assert Hands(s, w) == 1;
    assert s.scratch == [s.scratch[0]] + s.scratch[1..];
    CountCat([s.scratch[0]], s.scratch[1..], w);
    CountOne(s.scratch[0], w);
  }

  lemma NotifyKeeps(s: State)
    requires Inv(s) && Enabled(s, Notify)
    ensures Inv(Apply(s, Notify))
  {
    hide Hands, ConnSum, Running;
    var s' := Apply(s, Notify);
    forall c: ConnId
      ensures ConnSum(s'.workers, c) == ConnSum(s.workers, c)
    {
      PutSums(s.workers, s.scratch[0].w, Quit, c);
    }
    PutSums(s.workers, s.scratch[0].w, Quit, 0);
    forall w | 0 <= w < |s.workers| ensures Hands(s', w) == 1 {
      NotifyHands(s, w);
    }
  }

  lemma {:induction false} QuitAllSums(workers: seq<Worker>, ready: seq<Ready>, w: WorkerId, c: ConnId)
    requires forall i | 0 <= i < |ready| :: ready[i].w < |workers|
    requires w < |workers|
    ensures var r := QuitAll(workers, ready);
            && |r[w].inbox| == |workers[w].inbox| + Count(ready, w)
            && r[w].phase == workers[w].phase
            && ConnSum(r, c) == ConnSum(workers, c) && Running(r) == Running(workers)
  {
    if ready != [] {
      var n := |ready|;
      QuitAllSums(workers, ready[..n - 1], w, c);
      var r := QuitAll(workers, ready[..n - 1]);
      var v := ready[n - 1].w;
      WorkersSet(r, v, Put(r, v, Quit)[v], c);
    }
  }

  lemma StopKeeps(s: State)
    requires Inv(s) && Enabled(s, Stop)
    ensures Inv(Apply(s, Stop))
  {
    var s' := Apply(s, Stop);
    forall c: ConnId
      ensures ConnSum(s'.workers, c) == ConnSum(s.workers, c)
    {
      QuitAllConns(s.workers, s.ready, c);
    }
    QuitAllConns(s.workers, s.ready, 0);
    forall w | 0 <= w < |s.workers| ensures Hands(s', w) == 1 {
      assert Hands(s, w) == 1;
      QuitAllSums(s.workers, s.ready, w, 0);
    }
  }

  lemma QuitAllConns(workers: seq<Worker>, ready: seq<Ready>, c: ConnId)
    requires forall i | 0 <= i < |ready| :: ready[i].w < |workers|
    ensures var r := QuitAll(workers, ready);
            ConnSum(r, c) == ConnSum(workers, c) && Running(r) == Running(workers)
  {
    if workers != [] {
      QuitAllSums(workers, ready, 0, c);
    } else {
      assert QuitAll(workers, ready) == [];
    }
  }

  lemma StepKeepsInv(s: State, a: Action)
    requires Inv(s) && Enabled(s, a)
    ensures Inv(Apply(s, a))
  {
    match a
    case Arrive => ArriveKeeps(s);
    case GetCh(i) =>
      if s.ready == [] {
        GetChNewKeeps(s, i);
      } else {
        GetChReadyKeeps(s, i);
      }
    case Send(i) => SendKeeps(s, i);
    case Receive(w) => WorkerMoveKeeps(s, a);
    case Complete(w) => WorkerMoveKeeps(s, a);
    case Release(w) => ReleaseKeeps(s, w);
    case Exit(w) => WorkerMoveKeeps(s, a);
    case Clean(maxIdle) => CleanKeeps(s, maxIdle);
    case Notify => NotifyKeeps(s);
    case Stop => StopKeeps(s);
    case Tick =>
      forall w | 0 <= w < |s.workers| ensures Hands(Apply(s, a), w) == 1 {
        assert Hands(s, w) == 1;
      }
  }

  // ---------------------------------------------------------------------------
  // Whole runs
  // ---------------------------------------------------------------------------

  lemma {:induction false} RunKeepsInv(s: State, acts: seq<Action>, s': State)
    requires Inv(s) && IsRun(s, acts, s')
    ensures Inv(s')
    decreases |acts|
  {
    hide Inv;
    if acts != [] {
      StepKeepsInv(s, acts[0]);
      RunKeepsInv(Apply(s, acts[0]), acts[1..], s');
    }
  }

  lemma ReachableInv(maxWorkers: nat, acts: seq<Action>, s: State)
    requires IsRun(Init(maxWorkers), acts, s)
    ensures Inv(s)
  {
    assert Inv(Init(maxWorkers));
    RunKeepsInv(Init(maxWorkers), acts, s);
  }

  lemma {:induction false} CountAtLeast(ready: seq<Ready>, i: nat, j: nat)
    requires i < |ready| && j < |ready|
    ensures Count(ready, ready[i].w) >= 1
    ensures i != j && ready[i].w == ready[j].w ==> Count(ready, ready[i].w) >= 2
  {
    var n := |ready|;
    if i < n - 1 && j < n - 1 {
      CountAtLeast(ready[..n - 1], i, j);
    } else if i < n - 1 {
      CountAtLeast(ready[..n - 1], i, i);
    } else if j < n - 1 {
      CountAtLeast(ready[..n - 1], j, j);
    }
  }

  lemma {:induction false} ConnAtLeast(ws: seq<Worker>, v: nat, w: nat, c: ConnId)
    requires v < |ws| && w < |ws|
    ensures ConnSum(ws, c) >= HasConn(ws[v], c)
    ensures v != w ==> ConnSum(ws, c) >= HasConn(ws[v], c) + HasConn(ws[w], c)
  {
    var n := |ws|;
    if v < n - 1 && w < n - 1 {
      ConnAtLeast(ws[..n - 1], v, w, c);
    } else if v < n - 1 {
      ConnAtLeast(ws[..n - 1], v, v, c);
    } else if w < n - 1 {
      ConnAtLeast(ws[..n - 1], w, w, c);
    }
  }

  /** In every reachable state: workersCount is the number of workers that have started and not
      finished, within the bound; a channel is at most once in ready, and then its worker is idle
      with nothing outstanding; no channel has two messages; no connection is with two workers. */
  lemma WorkerSafety(maxWorkers: nat, acts: seq<Action>, s: State)
    requires IsRun(Init(maxWorkers), acts, s)
    ensures s.workersCount == Running(s.workers) <= s.maxWorkers
    ensures forall i, j | 0 <= i < j < |s.ready| :: s.ready[i].w != s.ready[j].w
    ensures forall i | 0 <= i < |s.ready| ::
              s.ready[i].w < |s.workers| && s.workers[s.ready[i].w] == Worker(Idle, [])
    ensures forall w | 0 <= w < |s.workers| :: |s.workers[w].inbox| <= 1
    ensures forall v, w, c: ConnId | 0 <= v < w < |s.workers| ::
              HasConn(s.workers[v], c) + HasConn(s.workers[w], c) <= 1
  {
    ReachableInv(maxWorkers, acts, s);
    hide Count, SendSum, ConnSum, Running, HasConn;
    forall w | 0 <= w < |s.workers| ensures |s.workers[w].inbox| <= 1 {
      assert Hands(s, w) == 1;
    }
    forall i, j | 0 <= i < |s.ready| && 0 <= j < |s.ready|
      ensures i != j ==> s.ready[i].w != s.ready[j].w
      ensures s.workers[s.ready[i].w] == Worker(Idle, [])
    {
      assert Hands(s, s.ready[i].w) == 1;
      CountAtLeast(s.ready, i, j);
    }
    forall v, w, c: ConnId | 0 <= v < w < |s.workers|
      ensures HasConn(s.workers[v], c) + HasConn(s.workers[w], c) <= 1
    {
      ConnAtLeast(s.workers, v, w, c);
    }
  }

  /** After Stop no channel is ever in ready again, whatever happens next. */
  lemma {:induction false} NoneReadyAfterStop(s: State, acts: seq<Action>, s': State)
    requires Inv(s) && IsRun(s, acts, s') && s.mustStop
    ensures s'.mustStop && s'.ready == []
    decreases |acts|
  {
    if acts != [] {
      StepKeepsInv(s, acts[0]);
      NoneReadyAfterStop(Apply(s, acts[0]), acts[1..], s');
    }
  }

  // ---------------------------------------------------------------------------
  // Connections
  // ---------------------------------------------------------------------------

  lemma DueStep(s: State, a: Action, c: ConnId)
    requires Inv(s) && Enabled(s, a)
    ensures Due(Apply(s, a), c) + Finishes(s, a, c) == Due(s, c)
  {
    hide ConnSum, Running, Hands, HasConn;
    match a
    case GetCh(i) =>
      NewWorkerConns(s.workers, c);
    case Send(i) =>
      PutSums(s.workers, s.callers[i].w, Serve(i), c);
    case Notify =>
      PutSums(s.workers, s.scratch[0].w, Quit, c);
    case Stop =>
      QuitAllConns(s.workers, s.ready, c);
    case Release(w) =>
      ReleaseConns(s, w, c);
    case Receive(_) => WorkerMoveConns(s, a, c);
    case Complete(_) => WorkerMoveConns(s, a, c);
    case Exit(_) => WorkerMoveConns(s, a, c);
    case _ =>
  }

  lemma NewWorkerConns(ws: seq<Worker>, c: ConnId)
    ensures ConnSum(ws + [Worker(Idle, [])], c) == ConnSum(ws, c)
  {
    assert (ws + [Worker(Idle, [])])[..|ws|] == ws;
  }

  lemma ReleaseConns(s: State, w: WorkerId, c: ConnId)
    requires WellFormed(s) && Enabled(s, Release(w))
    ensures ConnSum(Apply(s, Release(w)).workers, c) == ConnSum(s.workers, c)
  {
    hide ConnSum, Running;
    WorkersSet(s.workers, w, Apply(s, Release(w)).workers[w], c);
  }

  lemma {:induction false} DueOverRuns(s: State, acts: seq<Action>, s': State, c: ConnId)
    requires Inv(s) && IsRun(s, acts, s')
    ensures Due(s', c) + Served(s, acts, c) == Due(s, c)
    decreases |acts|
  {
    hide Inv, Due;
    if acts != [] {
      DueStep(s, acts[0], c);
      StepKeepsInv(s, acts[0]);
      DueOverRuns(Apply(s, acts[0]), acts[1..], s', c);
    }
  }

  /** No connection is lost or served twice: one that has arrived is either still with its caller,
      rejected, with exactly one worker, or was served exactly once. */
  lemma ConnectionsConserved(maxWorkers: nat, acts: seq<Action>, s: State, c: ConnId)
    requires IsRun(Init(maxWorkers), acts, s) && c < |s.callers|
    ensures Served(Init(maxWorkers), acts, c) + B(s.callers[c].Arrived? || s.callers[c].Sending?)
            + B(s.callers[c].Rejected?) + ConnSum(s.workers, c) == 1
  {
    assert Inv(Init(maxWorkers));
    DueOverRuns(Init(maxWorkers), acts, s, c);
  }

  // ---------------------------------------------------------------------------
  // The cleaner
  // ---------------------------------------------------------------------------

  /** With ready sorted, the prefix that is removed is exactly the workers idle for too long. */
  lemma {:induction false} ExpiredExactly(ready: seq<Ready>, clock: int, criticalTime: int, i: nat)
    requires Sorted(ready, clock) && i < |ready|
    ensures i < ExpiredPrefix(ready, criticalTime) <==> ready[i].lastUseTime < criticalTime
  {
    if ready[0].lastUseTime < criticalTime && i > 0 {
      ExpiredExactly(ready[1..], clock, criticalTime, i - 1);
    }
  }

  /** Every pass of the cleaner in a reachable state takes every worker idle beyond the limit and
      no other, and the rest keep their order. */
  lemma CleanTakesExpired(maxWorkers: nat, acts: seq<Action>, s: State, maxIdle: nat)
    requires IsRun(Init(maxWorkers), acts, s) && Enabled(s, Clean(maxIdle))
    ensures WellFormed(s)
    ensures var s' := Apply(s, Clean(maxIdle));
            && s.ready == s'.scratch + s'.ready
            && (forall i | 0 <= i < |s'.scratch| :: s.clock - s'.scratch[i].lastUseTime > maxIdle)
            && (forall i | 0 <= i < |s'.ready| :: s.clock - s'.ready[i].lastUseTime <= maxIdle)
  {
    ReachableInv(maxWorkers, acts, s);
    hide Hands, ConnSum, Running, ExpiredPrefix;
    var n := ExpiredPrefix(s.ready, s.clock - maxIdle);
    var s' := Apply(s, Clean(maxIdle));
    forall i | 0 <= i < |s.ready|
      ensures i < n <==> s.ready[i].lastUseTime < s.clock - maxIdle
    {
      ExpiredExactly(s.ready, s.clock, s.clock - maxIdle, i);
    }
    forall i | 0 <= i < |s'.ready| ensures s.clock - s'.ready[i].lastUseTime <= maxIdle {
      assert s'.ready[i] == s.ready[i + n];
    }
  }

  // ---------------------------------------------------------------------------
  // Who is served
  // ---------------------------------------------------------------------------

  lemma ReadyIsIdle(s: State, j: nat)
    requires Inv(s) && j < |s.ready|
    ensures s.ready[j].w < |s.workers| && s.workers[s.ready[j].w] == Worker(Idle, [])
  {
    hide Count, SendSum, ConnSum, Running;
    assert Hands(s, s.ready[j].w) == 1;
    CountAtLeast(s.ready, j, j);
  }

  /** w is ready, and no other channel has been used later. */
  ghost predicate UsedLast(ready: seq<Ready>, w: WorkerId) {
    exists j | 0 <= j < |ready| ::
      ready[j].w == w && forall k | 0 <= k < |ready| :: ready[k].lastUseTime <= ready[j].lastUseTime
  }

  /** In every reachable state a connection is rejected if and only if no worker is ready and as many as
      allowed are running. Otherwise it gets an idle worker with nothing outstanding, and of those
      that are ready the one used last. */
  lemma RejectedWhenFull(maxWorkers: nat, acts: seq<Action>, s: State, i: ConnId)
    requires IsRun(Init(maxWorkers), acts, s) && Enabled(s, GetCh(i))
    ensures WellFormed(s) && s.maxWorkers == maxWorkers
    ensures var c := Apply(s, GetCh(i)).callers[i];
            && (c.Rejected? <==> s.ready == [] && Running(s.workers) == maxWorkers)
            && (!c.Rejected? ==> c.Sending?)
    ensures var s' := Apply(s, GetCh(i));
            var c := s'.callers[i];
            c.Sending? ==>
              && c.w < |s'.workers| && s'.workers[c.w] == Worker(Idle, [])
              && (s.ready == [] ==> c.w == |s.workers|)
              && (s.ready != [] ==> UsedLast(s.ready, c.w))
  {
    ReachableInv(maxWorkers, acts, s);
    MaxWorkersFixed(Init(maxWorkers), acts, s);
    hide Hands, Count, SendSum, ConnSum, Running;
    if s.ready != [] {
      var n := |s.ready| - 1;
      ReadyIsIdle(s, n);
      assert s.ready[n].w == Apply(s, GetCh(i)).callers[i].w;
    }
  }

  lemma {:induction false} MaxWorkersFixed(s: State, acts: seq<Action>, s': State)
    requires IsRun(s, acts, s')
    ensures s'.maxWorkers == s.maxWorkers
    decreases |acts|
  {
    if acts != [] {
      MaxWorkersFixed(Apply(s, acts[0]), acts[1..], s');
    }
  }
}
