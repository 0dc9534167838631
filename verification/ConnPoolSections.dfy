/** What releaseConn, decConnsCount and queueForIdle do when nothing interrupts them,
    and the proof that this is one of the runs of the machine in ConnPool. */
module ConnPoolSections {
  import opened Options
  import opened ConnPool

  function ReleaseScan(sh: Shared, c: ConnId): Shared
    decreases |sh.queue|
  {
    if sh.queue == [] then sh.(conns := sh.conns + [c])
    else
      var w, rest := sh.queue[0], sh.(queue := sh.queue[1..]);
      if Waits(sh, w) then
        var (want, delivered) := TryDeliver(sh.wants[w], Some(c), None);
        if delivered then rest.(wants := sh.wants[w := want]) else rest.(conns := sh.conns + [c])
      else ReleaseScan(rest, c)
  }

  function ReleaseSection(cfg: Config, sh: Shared, c: ConnId): Shared {
    if cfg.waits then ReleaseScan(sh, c) else sh.(conns := sh.conns + [c])
  }

  /** The second result is the waiter a new dial is started for. */
  function DecScanSection(sh: Shared): (Shared, Option<Tid>)
    decreases |sh.queue|
  {
    if sh.queue == [] then (sh.(connsCount := sh.connsCount - 1), None)
    else
      var w, rest := sh.queue[0], sh.(queue := sh.queue[1..]);
      if Waits(sh, w) then (rest, Some(w)) else DecScanSection(rest)
  }

  function DecSection(cfg: Config, sh: Shared): (Shared, Option<Tid>) {
    if cfg.waits then DecScanSection(sh) else (sh.(connsCount := sh.connsCount - 1), None)
  }

  function QueueSection(sh: Shared, t: Tid): Shared
    decreases |sh.queue|
  {
    if sh.queue == [] || Waits(sh, sh.queue[0]) then sh.(queue := sh.queue + [t])
    else QueueSection(sh.(queue := sh.queue[1..]), t)
  }

  lemma RunCons(cfg: Config, s: State, a: Action, acts: seq<Action>)
    requires Enabled(s, a)
    ensures Run(cfg, s, [a] + acts) == Run(cfg, Apply(cfg, s, a), acts)
  {
    assert ([a] + acts)[1..] == acts;
  }

  lemma {:induction false} ReleaseScanIsRun(cfg: Config, s: State, t: Tid) returns (acts: seq<Action>)
    requires Enabled(s, RelIter(t))
    ensures Run(cfg, s, acts) == Some(s.(sh := ReleaseScan(s.sh, s.phases[t].c), lock := None,
                                         phases := s.phases[t := Done]))
    decreases |s.sh.queue|
  {
    var s1 := Apply(cfg, s, RelIter(t));
    if s.sh.queue == [] {
      acts := [];
    } else if Waits(s.sh, s.sh.queue[0]) {
      RunCons(cfg, s1, Offer(t), []);
      acts := [Offer(t)];
      assert s1.phases[t := Done] == s.phases[t := Done];
    } else {
      acts := ReleaseScanIsRun(cfg, s1, t);
    }
    RunCons(cfg, s, RelIter(t), acts);
    acts := [RelIter(t)] + acts;
  }

  lemma ReleaseIsRun(cfg: Config, s: State, t: Tid) returns (acts: seq<Action>)
    requires Enabled(s, RelLock(t))
    ensures Run(cfg, s, acts) == Some(s.(sh := ReleaseSection(cfg, s.sh, s.phases[t].c),
                                         phases := s.phases[t := Done]))
  {
    var s1 := Apply(cfg, s, RelLock(t));
    acts := [];
    if cfg.waits {
      acts := ReleaseScanIsRun(cfg, s1, t);
      assert s.phases[t := RelScan(s.phases[t].c)][t := Done] == s.phases[t := Done];
    }
    RunCons(cfg, s, RelLock(t), acts);
    acts := [RelLock(t)] + acts;
  }

  /** The state after decConnsCount: the caller goes on, and a dial may have been started. */
  function AfterDecSection(s: State, t: Tid, after: Option<ConnId>, sec: (Shared, Option<Tid>)): State
    requires t < |s.phases|
  {
    var s1 := s.(sh := sec.0, lock := None, phases := s.phases[t := AfterDec(after)]);
    if sec.1.Some? then Fork(s1, DialFor(sec.1.value)) else s1
  }

  lemma {:induction false} DecScanIsRun(cfg: Config, s: State, t: Tid) returns (acts: seq<Action>)
    requires Enabled(s, DecIter(t))
    ensures Run(cfg, s, acts) == Some(AfterDecSection(s, t, s.phases[t].after, DecScanSection(s.sh)))
    decreases |s.sh.queue|
  {
    var s1 := Apply(cfg, s, DecIter(t));
    acts := [];
    if s.sh.queue != [] && !Waits(s.sh, s.sh.queue[0]) {
      acts := DecScanIsRun(cfg, s1, t);
    }
    RunCons(cfg, s, DecIter(t), acts);
    acts := [DecIter(t)] + acts;
  }

  lemma DecIsRun(cfg: Config, s: State, t: Tid) returns (acts: seq<Action>)
    requires Enabled(s, DecLock(t))
    ensures Run(cfg, s, acts) == Some(AfterDecSection(s, t, s.phases[t].after, DecSection(cfg, s.sh)))
  {
    var s1 := Apply(cfg, s, DecLock(t));
    acts := [];
    if cfg.waits {
      acts := DecScanIsRun(cfg, s1, t);
      assert s1.phases[t := AfterDec(s.phases[t].after)] == s.phases[t := AfterDec(s.phases[t].after)];
    }
    RunCons(cfg, s, DecLock(t), acts);
    acts := [DecLock(t)] + acts;
  }

  lemma {:induction false} QueueScanIsRun(cfg: Config, s: State, t: Tid) returns (acts: seq<Action>)
    requires Enabled(s, QueueIter(t))
    ensures Run(cfg, s, acts) == Some(s.(sh := QueueSection(s.sh, t), lock := None,
                                         phases := s.phases[t := Waiting]))
    decreases |s.sh.queue|
  {
    var s1 := Apply(cfg, s, QueueIter(t));
    acts := [];
    if s.sh.queue != [] && !Waits(s.sh, s.sh.queue[0]) {
      acts := QueueScanIsRun(cfg, s1, t);
    }
    RunCons(cfg, s, QueueIter(t), acts);
    acts := [QueueIter(t)] + acts;
  }

  lemma QueueIsRun(cfg: Config, s: State, t: Tid) returns (acts: seq<Action>)
    requires Enabled(s, QueueLock(t))
    ensures Run(cfg, s, acts) == Some(s.(sh := QueueSection(s.sh, t), phases := s.phases[t := Waiting]))
  {
    var s1 := Apply(cfg, s, QueueLock(t));
    acts := QueueScanIsRun(cfg, s1, t);
    assert s1.phases[t := Waiting] == s.phases[t := Waiting];
    RunCons(cfg, s, QueueLock(t), acts);
    acts := [QueueLock(t)] + acts;
  }

  // ---------------------------------------------------------------------------
  // Who is served
  // ---------------------------------------------------------------------------

  /** The first k waiters of the queue have been resolved, and the next one, if any, has not. */
  ghost predicate FirstLive(sh: Shared, k: nat) {
    && k <= |sh.queue|
    && (forall i | 0 <= i < k :: sh.queue[i] >= |sh.wants| || sh.wants[sh.queue[i]].closes > 0)
    && (k < |sh.queue| ==> sh.queue[k] < |sh.wants| && sh.wants[sh.queue[k]] == FRESH_WANT)
  }

  /** A released connection goes to the waiter that has waited longest, and becomes idle when none is left;
      those before it are dropped, those behind it keep their places. */
  lemma {:induction false} ReleaseGoesToOldest(sh: Shared, c: ConnId, k: nat)
    requires FirstLive(sh, k)
    ensures ReleaseScan(sh, c)
         == if k == |sh.queue| then sh.(queue := [], conns := sh.conns + [c])
            else sh.(queue := sh.queue[k + 1..], wants := sh.wants[sh.queue[k] := WantConn(Some(c), None, 1)])
    decreases k
  {
    if k > 0 {
      var rest := sh.(queue := sh.queue[1..]);
      ReleaseGoesToOldest(rest, c, k - 1);
      assert k < |sh.queue| ==> rest.queue[k - 1] == sh.queue[k] && rest.queue[k..] == sh.queue[k + 1..];
    }
  }

  /** A slot that is given up goes to a dial for that waiter, and is counted down when none is left. */
  lemma {:induction false} DialGoesToOldest(sh: Shared, k: nat)
    requires FirstLive(sh, k)
    ensures DecScanSection(sh)
         == if k == |sh.queue| then (sh.(queue := [], connsCount := sh.connsCount - 1), None)
            else (sh.(queue := sh.queue[k + 1..]), Some(sh.queue[k]))
    decreases k
  {
    if k > 0 {
      var rest := sh.(queue := sh.queue[1..]);
      DialGoesToOldest(rest, k - 1);
      assert k < |sh.queue| ==> rest.queue[k - 1] == sh.queue[k] && rest.queue[k..] == sh.queue[k + 1..];
    }
  }

  /** A request that queues drops the resolved waiters in front and goes behind everybody else. */
  lemma {:induction false} QueuesLast(sh: Shared, t: Tid, k: nat)
    requires FirstLive(sh, k)
    ensures QueueSection(sh, t) == sh.(queue := sh.queue[k..] + [t])
    decreases k
  {
    if k > 0 {
      var rest := sh.(queue := sh.queue[1..]);
      QueuesLast(rest, t, k - 1);
      assert rest.queue[k - 1..] == sh.queue[k..];
    }
  }

  /** A request dials exactly when no connection is idle and the limit is not reached; beyond it, it waits
      if waiting is allowed, and fails otherwise. */
  lemma AcquireOutcome(cfg: Config, s: State, t: Tid)
    requires Enabled(s, Acquire(t))
    ensures var p := Apply(cfg, s, Acquire(t)).phases[t];
            var limit := if cfg.maxConns <= 0 then 512 else cfg.maxConns;
            && (p.Holding? <==> s.sh.conns != [])
            && (p.Holding? ==> p.c == s.sh.conns[if cfg.strategy == Lifo then |s.sh.conns| - 1 else 0])
            && (p.Dialing? <==> s.sh.conns == [] && s.sh.connsCount < limit)
            && (p.Enqueue? <==> s.sh.conns == [] && s.sh.connsCount >= limit && cfg.waits)
            && (p.Done? <==> s.sh.conns == [] && s.sh.connsCount >= limit && !cfg.waits)
  {
  }
}
