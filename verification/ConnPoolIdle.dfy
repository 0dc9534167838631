/** When a request can wait in the queue of the pool although a connection is idle: exactly the
    two races that lead there, and a run for each. */
module ConnPoolIdle {
  import opened Options
  import opened ConnPool
  import opened ConnPoolSafety

  ghost predicate Queued(s: State) {
    exists i :: 0 <= i < |s.sh.queue| && Waits(s.sh, s.sh.queue[i])
  }

  /** Nobody waits in the queue beside an idle connection. */
  ghost predicate Matched(s: State) {
    s.sh.conns == [] || !Queued(s)
  }

  /** The two races: a waiter is queued although a connection became idle since its call found none,
      and a delivery fails, its waiter having given up since it was popped, while another still waits. */
  ghost predicate Races(s: State, a: Action)
    requires Enabled(s, a)
  {
    match a
    case QueueIter(_) => s.sh.conns != [] && (s.sh.queue == [] || Waits(s.sh, s.sh.queue[0]))
    case Offer(t) => s.sh.wants[s.phases[t].w].Resolved() && Queued(s)
    case _ => false
  }

  lemma QueuedExist(cfg: Config, s: State, i: nat)
    requires Inv(cfg, s) && i < |s.sh.queue|
    ensures s.sh.queue[i] < |s.sh.wants|
  {
    assert Stored(s.sh, Route(s.sh.queue[i])) > 0;
    assert Total(s, Route(s.sh.queue[i])) > 0;
  }

  // ---------------------------------------------------------------------------
  // Steps
  // ---------------------------------------------------------------------------

  lemma QueueIterMatched(cfg: Config, s: State, t: Tid)
    requires Inv(cfg, s) && Matched(s) && Enabled(s, QueueIter(t))
    ensures Matched(Apply(cfg, s, QueueIter(t))) <==> !Races(s, QueueIter(t))
  {
    hide Total, CountInv, OwnerInv, RouteInv;
    var s' := Apply(cfg, s, QueueIter(t));
    if s.sh.queue == [] || Waits(s.sh, s.sh.queue[0]) {
      assert s.sh.wants[t] == FRESH_WANT;
      assert Waits(s'.sh, s'.sh.queue[|s.sh.queue|]);
    } else {
      assert forall i | 0 <= i < |s'.sh.queue| :: s'.sh.queue[i] == s.sh.queue[i + 1];
    }
  }

  lemma OfferMatched(cfg: Config, s: State, t: Tid)
    requires Inv(cfg, s) && Matched(s) && Enabled(s, Offer(t))
    ensures Matched(Apply(cfg, s, Offer(t))) <==> !Races(s, Offer(t))
  {
    hide Inv;
    var s' := Apply(cfg, s, Offer(t));
    var w := s.phases[t].w;
    assert s'.sh.queue == s.sh.queue;
    if s.sh.wants[w].Resolved() {
      assert s'.sh.wants == s.sh.wants;
    } else {
      assert s'.sh.conns == s.sh.conns;
      assert forall v | Waits(s'.sh, v) :: Waits(s.sh, v);
    }
  }

  /** What no other action does: queue a waiter, or make a connection idle while one is queued. */
  lemma OthersKeepMatched(cfg: Config, s: State, a: Action)
    requires Inv(cfg, s) && Matched(s) && cfg.waits && Enabled(s, a) && !a.QueueIter? && !a.Offer?
    ensures Matched(Apply(cfg, s, a))
  {
    hide Total;
    var s' := Apply(cfg, s, a);
    assert |s'.sh.queue| == |s.sh.queue| || s'.sh.queue == s.sh.queue[1..];
    var d := |s.sh.queue| - |s'.sh.queue|;
    forall i | 0 <= i < |s'.sh.queue|
      ensures Waits(s'.sh, s'.sh.queue[i]) ==> Waits(s.sh, s.sh.queue[i + d])
    {
      QueuedExist(cfg, s, i + d);
    }
  }

  /** From a state where nobody waits beside an idle connection, a step leads to one where somebody
      does if and only if it is one of the two races. */
  lemma LeavesMatched(cfg: Config, s: State, a: Action)
    requires Inv(cfg, s) && Matched(s) && cfg.waits && Enabled(s, a)
    ensures !Matched(Apply(cfg, s, a)) <==> Races(s, a)
  {
    hide Matched, Inv, Apply;
    match a
    case QueueIter(t) => QueueIterMatched(cfg, s, t);
    case Offer(t) => OfferMatched(cfg, s, t);
    case _ => OthersKeepMatched(cfg, s, a);
  }

  // ---------------------------------------------------------------------------
  // Runs
  // ---------------------------------------------------------------------------

  ghost predicate AlwaysMatched(cfg: Config, s: State, acts: seq<Action>)
    decreases |acts|
  {
    Matched(s) && (acts == [] || !Enabled(s, acts[0]) || AlwaysMatched(cfg, Apply(cfg, s, acts[0]), acts[1..]))
  }

  ghost predicate RaceFree(cfg: Config, s: State, acts: seq<Action>)
    decreases |acts|
  {
    acts == [] || !Enabled(s, acts[0])
    || (!Races(s, acts[0]) && RaceFree(cfg, Apply(cfg, s, acts[0]), acts[1..]))
  }

  lemma {:induction false} MatchedOverRuns(cfg: Config, s: State, acts: seq<Action>)
    requires Inv(cfg, s) && Matched(s) && cfg.waits && Run(cfg, s, acts).Some?
    ensures AlwaysMatched(cfg, s, acts) <==> RaceFree(cfg, s, acts)
    decreases |acts|
  {
    hide Inv, Matched, Races, Apply;
    if acts != [] {
      LeavesMatched(cfg, s, acts[0]);
      var s' := Apply(cfg, s, acts[0]);
      if Matched(s') {
        StepKeepsInv(cfg, s, acts[0]);
        MatchedOverRuns(cfg, s', acts[1..]);
      }
    }
  }

  /** No request ever waits in the queue beside an idle connection exactly in the runs that have
      neither race. */
  lemma IdleMeansNobodyQueued(cfg: Config, acts: seq<Action>)
    requires cfg.waits && Run(cfg, INIT, acts).Some?
    ensures AlwaysMatched(cfg, INIT, acts) <==> RaceFree(cfg, INIT, acts)
  {
    assert Inv(cfg, INIT);
    MatchedOverRuns(cfg, INIT, acts);
  }

  /** Whoever else waits while a connection is idle has left the queue: a dial or an offer of its own
      is on its way. */
  lemma OthersAreServed(cfg: Config, acts: seq<Action>, s: State, w: Tid)
    requires Run(cfg, INIT, acts) == Some(s) && Matched(s) && s.sh.conns != []
    requires w < |s.phases| && |s.phases| == |s.sh.wants|
    requires s.phases[w].Waiting? && !s.sh.wants[w].Resolved()
    ensures w !in s.sh.queue && Tally(s.phases, s.sh.wants, Route(w)) == 1
  {
    WaiterNeverForgotten(cfg, acts, s, w);
    ReachableInv(cfg, acts, s);
    assert CellInv(s.sh.wants[w]);
  }

  // ---------------------------------------------------------------------------
  // Both races happen
  // ---------------------------------------------------------------------------

  const ONE := Config(1, true, Lifo)

  predicate Twice(s: State, a: Action, b: Action, s': State) {
    Enabled(s, a) && Enabled(Apply(ONE, s, a), b) && Apply(ONE, Apply(ONE, s, a), b) == s'
  }

  lemma RunTwice(s: State, a: Action, b: Action, s': State, acts: seq<Action>)
    requires Twice(s, a, b, s')
    ensures Run(ONE, s, [a, b] + acts) == Run(ONE, s', acts)
  {
    var all := [a, b] + acts;
    assert all[1..][1..] == acts && all[1..][0] == b;
  }

  lemma {:induction false} RunPairs(q: seq<State>, pairs: seq<(Action, Action)>) returns (acts: seq<Action>)
    requires |q| == |pairs| + 1 && forall i | 0 <= i < |pairs| :: Twice(q[i], pairs[i].0, pairs[i].1, q[i + 1])
    ensures Run(ONE, q[0], acts) == Some(q[|pairs|])
  {
    acts := [];
    assert Run(ONE, q[|pairs|], []) == Some(q[|pairs|]);
    hide Run, Twice;
    for i := |pairs| downto 0
      invariant Run(ONE, q[i], acts) == Some(q[|pairs|])
    {
      RunTwice(q[i], pairs[i].0, pairs[i].1, q[i + 1], acts);
      acts := [pairs[i].0, pairs[i].1] + acts;
    }
  }

  lemma {:induction false} RunCat(s: State, before: seq<Action>, mid: State, after: seq<Action>)
    requires Run(ONE, s, before) == Some(mid)
    ensures Run(ONE, s, before + after) == Run(ONE, mid, after)
    decreases |before|
  {
    hide Apply;
    if before == [] {
      assert before + after == after;
    } else {
      RunCat(Apply(ONE, s, before[0]), before[1..], mid, after);
      assert (before + after)[1..] == before[1..] + after;
    }
  }

  function At(sh: Shared, phases: seq<Phase>, lock: Option<Tid>, dialed: nat): State {
    State(sh, phases, lock, dialed, {})
  }

  const THREE := [FRESH_WANT, FRESH_WANT, FRESH_WANT]

  lemma ReleaseBetween() returns (q: seq<State>)
    ensures |q| == 6 && q[0] == INIT
    ensures Twice(q[0], Spawn, Acquire(0), q[1]) && Twice(q[1], DialDone(0, true), Spawn, q[2])
    ensures Twice(q[2], Acquire(1), Finish(0, true), q[3]) && Twice(q[3], RelLock(0), RelIter(0), q[4])
    ensures Twice(q[4], QueueLock(1), QueueIter(1), q[5])
    ensures q[5].sh == Shared(1, [0], [1], [FRESH_WANT, FRESH_WANT])
  {
    var two := [FRESH_WANT, FRESH_WANT];
    q := [INIT,
          At(Shared(1, [], [], [FRESH_WANT]), [Dialing], None, 0),
          At(Shared(1, [], [], two), [Holding(0), Start], None, 1),
          At(Shared(1, [], [], two), [Releasing(0), Enqueue], None, 1),
          At(Shared(1, [0], [], two), [Done, Enqueue], None, 1),
          At(Shared(1, [0], [1], two), [Done, Waiting], None, 1)];
  }

  /** A release falls between the two sections of acquireConn. */
  lemma IdleBesideWaiter() returns (acts: seq<Action>, s: State)
    ensures Run(ONE, INIT, acts) == Some(s) && !Matched(s)
  {
    var q := ReleaseBetween();
    hide Run, Twice;
    var pairs := [(Spawn, Acquire(0)), (DialDone(0, true), Spawn), (Acquire(1), Finish(0, true)),
                  (RelLock(0), RelIter(0)), (QueueLock(1), QueueIter(1))];
    acts := RunPairs(q, pairs);
    s := q[5];
    assert Waits(s.sh, s.sh.queue[0]);
  }

  lemma Queueing() returns (q: seq<State>)
    ensures |q| == 6 && q[0] == INIT
    ensures Twice(q[0], Spawn, Spawn, q[1]) && Twice(q[1], Spawn, Acquire(0), q[2])
    ensures Twice(q[2], DialDone(0, true), Acquire(1), q[3]) && Twice(q[3], QueueLock(1), QueueIter(1), q[4])
    ensures Twice(q[4], Acquire(2), QueueLock(2), q[5])
    ensures q[5] == At(Shared(1, [], [1], THREE), [Holding(0), Waiting, ClearScan], Some(2), 1)
  {
    q := [INIT,
          At(Shared(0, [], [], [FRESH_WANT, FRESH_WANT]), [Start, Start], None, 0),
          At(Shared(1, [], [], THREE), [Dialing, Start, Start], None, 0),
          At(Shared(1, [], [], THREE), [Holding(0), Enqueue, Start], None, 1),
          At(Shared(1, [], [1], THREE), [Holding(0), Waiting, Start], None, 1),
          At(Shared(1, [], [1], THREE), [Holding(0), Waiting, ClearScan], Some(2), 1)];
  }

  lemma CancelBetween(s: State) returns (q: seq<State>)
    requires s == At(Shared(1, [], [1], THREE), [Holding(0), Waiting, ClearScan], Some(2), 1)
    ensures |q| == 4 && q[0] == s
    ensures Twice(q[0], QueueIter(2), Finish(0, true), q[1]) && Twice(q[1], RelLock(0), RelIter(0), q[2])
    ensures Twice(q[2], CancelWait(1, Timeout), Offer(0), q[3])
    ensures q[3].sh.conns == [0] && q[3].sh.queue == [2] && Waits(q[3].sh, 2)
  {
    var gone := [FRESH_WANT, WantConn(None, Some(Timeout), 1), FRESH_WANT];
    q := [s,
          At(Shared(1, [], [1, 2], THREE), [Releasing(0), Waiting, Waiting], None, 1),
          At(Shared(1, [], [2], THREE), [Offering(0, 1), Waiting, Waiting], Some(0), 1),
          At(Shared(1, [0], [2], gone), [Done, Done, Waiting], None, 1)];
  }

  /** A waiter gives up between waiting() and tryDeliver, while another one waits behind it. */
  lemma IdleAfterCancel() returns (acts: seq<Action>, s: State)
    ensures Run(ONE, INIT, acts) == Some(s) && !Matched(s)
  {
    var q := Queueing();
    var r := CancelBetween(q[5]);
    hide Run, Twice;
    var before := RunPairs(q, [(Spawn, Spawn), (Spawn, Acquire(0)), (DialDone(0, true), Acquire(1)),
                               (QueueLock(1), QueueIter(1)), (Acquire(2), QueueLock(2))]);
    var after := RunPairs(r, [(QueueIter(2), Finish(0, true)), (RelLock(0), RelIter(0)),
                              (CancelWait(1, Timeout), Offer(0))]);
    RunCat(INIT, before, q[5], after);
    acts, s := before + after, r[3];
    assert Waits(s.sh, s.sh.queue[0]);
  }
}
