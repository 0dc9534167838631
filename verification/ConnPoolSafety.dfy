/** Safety of the connection pool over every run of the machine in ConnPool. */
module ConnPoolSafety {
  import opened Counting
  import opened Options
  import opened ConnPool

  // ---------------------------------------------------------------------------
  // Every action keeps the invariant
  // ---------------------------------------------------------------------------

  /** Fields that hold no tokens do not count. */
  lemma SameTotal(s: State, s': State)
    requires |s.phases| == |s.sh.wants|
    requires s'.phases == s.phases && s'.sh.wants == s.sh.wants
    requires s'.sh.conns == s.sh.conns && s'.sh.queue == s.sh.queue
    ensures forall k :: Total(s', k) == Total(s, k)
  {
  }

  lemma AcquireTotal(cfg: Config, s: State)
    requires |s.phases| == |s.sh.wants|
    ensures var (sh, got) := AcquireSection(cfg, s.sh);
            forall k :: Total(s.(sh := sh), k)
                        == Total(s, k) - (if got.Reuse? then B(k.Slot?) + B(k == Conn(got.cc)) else 0)
  {
    if s.sh.conns != [] {
      var n := |s.sh.conns|;
      assert s.sh.conns == s.sh.conns[..n - 1] + [s.sh.conns[n - 1]];
      assert s.sh.conns == [s.sh.conns[0]] + s.sh.conns[1..];
    }
  }

  lemma AcquireKeeps(cfg: Config, s: State, t: Tid)
    requires Inv(cfg, s) && Enabled(s, Acquire(t))
    ensures Inv(cfg, Apply(cfg, s, Acquire(t)))
  {
    hide Total;
    var (sh, got) := AcquireSection(cfg, s.sh);
    AcquireTotal(cfg, s);
    MoveTotal(s.(sh := sh), t, Apply(cfg, s, Acquire(t)).phases[t]);
  }

  lemma DialDoneKeeps(cfg: Config, s: State, t: Tid, ok: bool)
    requires Inv(cfg, s) && Enabled(s, DialDone(t, ok))
    ensures Inv(cfg, Apply(cfg, s, DialDone(t, ok)))
  {
    hide Total;
    SameTotal(s, s.(dialed := s.dialed + 1));
    MoveTotal(s.(dialed := s.dialed + 1), t, Holding(s.dialed));
    MoveTotal(s, t, Closing(None));
  }

  lemma PushTotal(s: State, w: Tid)
    requires |s.phases| == |s.sh.wants|
    ensures forall k :: Total(s.(sh := s.sh.(queue := s.sh.queue + [w])), k) == Total(s, k) + B(k == Route(w))
  {
  }

  lemma QueueLockKeeps(cfg: Config, s: State, t: Tid)
    requires Inv(cfg, s) && Enabled(s, QueueLock(t))
    ensures Inv(cfg, Apply(cfg, s, QueueLock(t)))
  {
    hide Total;
    SameTotal(s, s.(lock := Some(t)));
    MoveTotal(s.(lock := Some(t)), t, ClearScan);
  }

  lemma QueueIterKeeps(cfg: Config, s: State, t: Tid)
    requires Inv(cfg, s) && Enabled(s, QueueIter(t))
    ensures Inv(cfg, Apply(cfg, s, QueueIter(t)))
  {
    hide Total;
    if s.sh.queue == [] || Waits(s.sh, s.sh.queue[0]) {
      var s1 := s.(lock := None, sh := s.sh.(queue := s.sh.queue + [t]));
      PushTotal(s, t);
      SameTotal(s.(sh := s1.sh), s1);
      MoveTotal(s1, t, Waiting);
    } else {
      PopTotal(s);
    }
  }

  lemma TakeKeeps(cfg: Config, s: State, t: Tid)
    requires Inv(cfg, s) && Enabled(s, Take(t))
    ensures Inv(cfg, Apply(cfg, s, Take(t)))
  {
    hide Total;
    MoveTotal(s, t, Holding(s.sh.wants[t].conn.value));
  }

  lemma CancelWaitKeeps(cfg: Config, s: State, t: Tid, err: PoolError)
    requires Inv(cfg, s) && Enabled(s, CancelWait(t, err))
    ensures Inv(cfg, Apply(cfg, s, CancelWait(t, err)))
  {
    hide Total;
    var (want, conn) := Cancel(s.sh.wants[t], err);
    SetWantTotal(s, t, want);
    MoveTotal(SetWant(s, t, want), t, if conn.Some? then Releasing(conn.value) else Done);
  }

  lemma FinishKeeps(cfg: Config, s: State, t: Tid, reuse: bool)
    requires Inv(cfg, s) && Enabled(s, Finish(t, reuse))
    ensures Inv(cfg, Apply(cfg, s, Finish(t, reuse)))
  {
    hide Total;
    MoveTotal(s, t, Apply(cfg, s, Finish(t, reuse)).phases[t]);
  }

  lemma PutIdleTotal(s: State, c: ConnId)
    requires |s.phases| == |s.sh.wants|
    ensures forall k :: Total(PutIdle(s, c), k) == Total(s, k) + B(k.Slot?) + B(k == Conn(c))
  {
  }

  lemma RelLockKeeps(cfg: Config, s: State, t: Tid)
    requires Inv(cfg, s) && Enabled(s, RelLock(t))
    ensures Inv(cfg, Apply(cfg, s, RelLock(t)))
  {
    hide Total;
    var c := s.phases[t].c;
    if cfg.waits {
      SameTotal(s, s.(lock := Some(t)));
      MoveTotal(s.(lock := Some(t)), t, RelScan(c));
    } else {
      PutIdleTotal(s, c);
      MoveTotal(PutIdle(s, c), t, Done);
    }
  }

  lemma RelIterTotal(cfg: Config, s: State, t: Tid)
    requires |s.phases| == |s.sh.wants| && Enabled(s, RelIter(t))
    ensures var s' := Apply(cfg, s, RelIter(t));
            forall k :: Total(s', k) == Total(s, k) - (if s.sh.queue == [] || Waits(s.sh, s.sh.queue[0]) then 0
                                                       else B(k == Route(s.sh.queue[0])))
  {
    hide Total;
    var c := s.phases[t].c;
    if s.sh.queue == [] {
      PutIdleTotal(s, c);
      SameTotal(PutIdle(s, c), PutIdle(s, c).(lock := None));
      MoveTotal(PutIdle(s, c).(lock := None), t, Done);
    } else {
      PopTotal(s);
      MoveTotal(PopQueue(s), t, Offering(c, s.sh.queue[0]));
    }
  }

  lemma RelIterKeeps(cfg: Config, s: State, t: Tid)
    requires Inv(cfg, s) && Enabled(s, RelIter(t))
    ensures Inv(cfg, Apply(cfg, s, RelIter(t)))
  {
    hide Total, Has;
    RelIterTotal(cfg, s, t);
  }

  /** Where a result is about to be delivered to w, w exists, and if w is unresolved it waits. */
  lemma RoutedWaits(cfg: Config, s: State, t: Tid, w: Tid)
    requires Inv(cfg, s) && t < |s.phases| && Has(s.phases[t], s.sh.wants[t], Route(w)) == 1
    ensures w < |s.phases|
    ensures !s.sh.wants[w].Resolved() ==> s.phases[w].Waiting? && w != t
  {
    HasAtMostTotal(s, t, Route(w));
  }

  lemma OfferTotal(cfg: Config, s: State, t: Tid)
    requires Inv(cfg, s) && Enabled(s, Offer(t))
    ensures forall k :: Total(Apply(cfg, s, Offer(t)), k) == Total(s, k) - B(k == Route(s.phases[t].w))
  {
    hide Total, OwnerInv, CountInv, FreshInv, LockInv;
    var Offering(c, w) := s.phases[t];
    RoutedWaits(cfg, s, t, w);
    var (want, delivered) := TryDeliver(s.sh.wants[w], Some(c), None);
    PutIdleTotal(s, c);
    SetWantTotal(s, w, want);
    var s1 := if delivered then SetWant(s, w, want) else PutIdle(s, c);
    SameTotal(s1, s1.(lock := None));
    MoveTotal(s1.(lock := None), t, Done);
  }

  lemma {:induction false} OfferKeeps(cfg: Config, s: State, t: Tid)
    requires Inv(cfg, s) && Enabled(s, Offer(t))
    ensures Inv(cfg, Apply(cfg, s, Offer(t)))
  {
    hide Total, Has;
    assert Has(s.phases[t], s.sh.wants[t], Route(s.phases[t].w)) == 1 by {
      HasRoute(s.phases[t], s.sh.wants[t]);
    }
    RoutedWaits(cfg, s, t, s.phases[t].w);
    OfferTotal(cfg, s, t);
  }

  lemma DecLockTotal(cfg: Config, s: State, t: Tid)
    requires |s.phases| == |s.sh.wants| && Enabled(s, DecLock(t))
    ensures forall k :: Total(Apply(cfg, s, DecLock(t)), k) == Total(s, k) - B(!cfg.waits && k.Slot?)
  {
    hide Total;
    var after := s.phases[t].after;
    if cfg.waits {
      SameTotal(s, s.(lock := Some(t)));
      MoveTotal(s.(lock := Some(t)), t, DecScan(after));
    } else {
      SameTotal(s, CountDown(s));
      MoveTotal(CountDown(s), t, AfterDec(after));
    }
  }

  lemma DecLockKeeps(cfg: Config, s: State, t: Tid)
    requires Inv(cfg, s) && Enabled(s, DecLock(t))
    ensures Inv(cfg, Apply(cfg, s, DecLock(t)))
  {
    hide Total, Has;
    DecLockTotal(cfg, s, t);
  }

  /** A scan that meets a waiter passes its slot on to a dial for that waiter. */
  lemma DecIterTotal(cfg: Config, s: State, t: Tid)
    requires |s.phases| == |s.sh.wants| && Enabled(s, DecIter(t))
    ensures var s' := Apply(cfg, s, DecIter(t));
            forall k :: Total(s', k) == Total(s, k) - (if s.sh.queue == [] then B(k.Slot?)
                                                       else if Waits(s.sh, s.sh.queue[0]) then 0
                                                       else B(k == Route(s.sh.queue[0])))
  {
    hide Total;
    var after := s.phases[t].after;
    if s.sh.queue == [] {
      var s1 := CountDown(s).(lock := None);
      SameTotal(s, s1);
      MoveTotal(s1, t, AfterDec(after));
    } else {
      PopTotal(s);
      if Waits(s.sh, s.sh.queue[0]) {
        var s1 := PopQueue(s).(lock := None);
        SameTotal(PopQueue(s), s1);
        MoveTotal(s1, t, AfterDec(after));
        ForkTotal(Move(s1, t, AfterDec(after)), DialFor(s.sh.queue[0]));
      }
    }
  }

  lemma DecIterKeeps(cfg: Config, s: State, t: Tid)
    requires Inv(cfg, s) && Enabled(s, DecIter(t))
    requires s.sh.queue == [] || !Waits(s.sh, s.sh.queue[0])
    ensures Inv(cfg, Apply(cfg, s, DecIter(t)))
  {
    hide Total, Has;
    DecIterTotal(cfg, s, t);
  }

  lemma DecDialKeeps(cfg: Config, s: State, t: Tid)
    requires Inv(cfg, s) && Enabled(s, DecIter(t)) && s.sh.queue != [] && Waits(s.sh, s.sh.queue[0])
    ensures Inv(cfg, Apply(cfg, s, DecIter(t)))
  {
    hide Total, Has;
    DecIterTotal(cfg, s, t);
    QueuedExists(cfg, s);
  }

  lemma QueuedExists(cfg: Config, s: State)
    requires Inv(cfg, s) && s.sh.queue != []
    ensures s.sh.queue[0] < |s.phases|
  {
    assert Stored(s.sh, Route(s.sh.queue[0])) > 0;
    assert Total(s, Route(s.sh.queue[0])) > 0;
  }

  lemma CloseSocketKeeps(cfg: Config, s: State, t: Tid)
    requires Inv(cfg, s) && Enabled(s, CloseSocket(t))
    ensures Inv(cfg, Apply(cfg, s, CloseSocket(t)))
  {
    hide Total;
    var c := s.phases[t].c;
    var s1 := s.(closed := s.closed + {c});
    SameTotal(s, s1);
    HasAtMostTotal(s, t, Conn(c));
    MoveTotal(s1, t, Done);
  }

  lemma DialForDoneTotal(cfg: Config, s: State, t: Tid, ok: bool)
    requires |s.phases| == |s.sh.wants| && Enabled(s, DialForDone(t, ok))
    ensures forall k :: Total(Apply(cfg, s, DialForDone(t, ok)), k) == Total(s, k) + B(ok && k == Conn(s.dialed))
  {
    hide Total;
    var w := s.phases[t].w;
    var s1 := s.(dialed := s.dialed + 1);
    SameTotal(s, s1);
    MoveTotal(s1, t, DialForGot(s.dialed, w));
    MoveTotal(s, t, DialForFailed(w));
  }

  lemma DialForDoneKeeps(cfg: Config, s: State, t: Tid, ok: bool)
    requires Inv(cfg, s) && Enabled(s, DialForDone(t, ok))
    ensures Inv(cfg, Apply(cfg, s, DialForDone(t, ok)))
  {
    hide Total, Has;
    DialForDoneTotal(cfg, s, t, ok);
  }

  lemma DeliverErrTotal(cfg: Config, s: State, t: Tid)
    requires Inv(cfg, s) && Enabled(s, Deliver(t)) && s.phases[t].DialForFailed?
    ensures forall k :: Total(Apply(cfg, s, Deliver(t)), k) == Total(s, k) - B(k == Route(s.phases[t].w))
  {
    hide Total, OwnerInv, CountInv, FreshInv, LockInv;
    var w := s.phases[t].w;
    RoutedWaits(cfg, s, t, w);
    var (want, delivered) := TryDeliver(s.sh.wants[w], None, Some(DialFailed));
    SetWantTotal(s, w, want);
    MoveTotal(SetWant(s, w, want), t, Closing(None));
  }

  lemma DeliverErrKeeps(cfg: Config, s: State, t: Tid)
    requires Inv(cfg, s) && Enabled(s, Deliver(t)) && s.phases[t].DialForFailed?
    ensures Inv(cfg, Apply(cfg, s, Deliver(t)))
  {
    hide Total, Has;
    assert Has(s.phases[t], s.sh.wants[t], Route(s.phases[t].w)) == 1 by {
      HasRoute(s.phases[t], s.sh.wants[t]);
    }
    RoutedWaits(cfg, s, t, s.phases[t].w);
    DeliverErrTotal(cfg, s, t);
  }

  lemma DeliverConnTotal(cfg: Config, s: State, t: Tid)
    requires Inv(cfg, s) && Enabled(s, Deliver(t)) && s.phases[t].DialForGot?
    ensures forall k :: Total(Apply(cfg, s, Deliver(t)), k) == Total(s, k) - B(k == Route(s.phases[t].w))
  {
    hide Total, OwnerInv, CountInv, FreshInv, LockInv;
    var DialForGot(c, w) := s.phases[t];
    RoutedWaits(cfg, s, t, w);
    var (want, delivered) := TryDeliver(s.sh.wants[w], Some(c), None);
    SetWantTotal(s, w, want);
    MoveTotal(SetWant(s, w, want), t, if delivered then Done else Releasing(c));
  }

  lemma {:induction false} DeliverConnKeeps(cfg: Config, s: State, t: Tid)
    requires Inv(cfg, s) && Enabled(s, Deliver(t)) && s.phases[t].DialForGot?
    ensures Inv(cfg, Apply(cfg, s, Deliver(t)))
  {
    hide Total, Has;
    assert Has(s.phases[t], s.sh.wants[t], Route(s.phases[t].w)) == 1 by {
      HasRoute(s.phases[t], s.sh.wants[t]);
    }
    RoutedWaits(cfg, s, t, s.phases[t].w);
    DeliverConnTotal(cfg, s, t);
  }

  lemma HasRoute(p: Phase, want: WantConn)
    requires p.DialForGot? || p.DialForFailed? || p.Offering?
    ensures Has(p, want, Route(p.w)) == 1
  {
  }

  lemma TakeIdleTotal(s: State, k: nat)
    requires |s.phases| == |s.sh.wants| && k <= |s.sh.conns|
    ensures var (sh, cs) := TakeIdle(s.sh, k);
            forall t :: Total(s, t) == Total(s.(sh := sh), t) + Has(Batch(cs), FRESH_WANT, t)
  {
    var (sh, cs) := TakeIdle(s.sh, k);
    assert s.sh.conns == cs + sh.conns;
  }

  lemma TakeBatchKeeps(cfg: Config, s: State, k: nat)
    requires Inv(cfg, s) && Enabled(s, TakeBatch(k))
    ensures Inv(cfg, Apply(cfg, s, TakeBatch(k)))
  {
    hide Total;
    var (sh, cs) := TakeIdle(s.sh, k);
    TakeIdleTotal(s, k);
    ForkTotal(s.(sh := sh), Batch(cs));
  }

  lemma BatchNextTotal(cfg: Config, s: State, t: Tid)
    requires |s.phases| == |s.sh.wants| && Enabled(s, BatchNext(t))
    ensures forall k :: Total(Apply(cfg, s, BatchNext(t)), k) == Total(s, k)
  {
    hide Total;
    var cs := s.phases[t].cs;
    assert cs == [cs[0]] + cs[1..];
    MoveTotal(s, t, Batch(cs[1..]));
    ForkTotal(Move(s, t, Batch(cs[1..])), Closing(Some(cs[0])));
  }

  lemma BatchNextKeeps(cfg: Config, s: State, t: Tid)
    requires Inv(cfg, s) && Enabled(s, BatchNext(t))
    ensures Inv(cfg, Apply(cfg, s, BatchNext(t)))
  {
    hide Total, Has;
    BatchNextTotal(cfg, s, t);
  }

  lemma SpawnKeeps(cfg: Config, s: State)
    requires Inv(cfg, s)
    ensures Inv(cfg, Apply(cfg, s, Spawn))
  {
    hide Total;
    ForkTotal(s, Start);
  }

  lemma StepKeepsInv(cfg: Config, s: State, a: Action)
    requires Inv(cfg, s) && Enabled(s, a)
    ensures Inv(cfg, Apply(cfg, s, a))
  {
    hide Inv, Apply;
    match a
    case Spawn => SpawnKeeps(cfg, s);
    case Acquire(t) => AcquireKeeps(cfg, s, t);
    case DialDone(t, ok) => DialDoneKeeps(cfg, s, t, ok);
    case QueueLock(t) => QueueLockKeeps(cfg, s, t);
    case QueueIter(t) => QueueIterKeeps(cfg, s, t);
    case Take(t) => TakeKeeps(cfg, s, t);
    case CancelWait(t, err) => CancelWaitKeeps(cfg, s, t, err);
    case Finish(t, reuse) => FinishKeeps(cfg, s, t, reuse);
    case RelLock(t) => RelLockKeeps(cfg, s, t);
    case RelIter(t) => RelIterKeeps(cfg, s, t);
    case Offer(t) => OfferKeeps(cfg, s, t);
    case DecLock(t) => DecLockKeeps(cfg, s, t);
    case DecIter(t) =>
      if s.sh.queue != [] && Waits(s.sh, s.sh.queue[0]) {
        DecDialKeeps(cfg, s, t);
      } else {
        DecIterKeeps(cfg, s, t);
      }
    case CloseSocket(t) => CloseSocketKeeps(cfg, s, t);
    case DialForDone(t, ok) => DialForDoneKeeps(cfg, s, t, ok);
    case Deliver(t) =>
      if s.phases[t].DialForGot? {
        DeliverConnKeeps(cfg, s, t);
      } else {
        DeliverErrKeeps(cfg, s, t);
      }
    case TakeBatch(k) => TakeBatchKeeps(cfg, s, k);
    case BatchNext(t) => BatchNextKeeps(cfg, s, t);
  }

  // ---------------------------------------------------------------------------
  // Over whole runs
  // ---------------------------------------------------------------------------

  lemma {:induction false} RunKeepsInv(cfg: Config, s: State, acts: seq<Action>)
    requires Inv(cfg, s) && Run(cfg, s, acts).Some?
    ensures Inv(cfg, Run(cfg, s, acts).value)
    decreases |acts|
  {
    if acts != [] {
      StepKeepsInv(cfg, s, acts[0]);
      RunKeepsInv(cfg, Apply(cfg, s, acts[0]), acts[1..]);
    }
  }

  lemma ReachableInv(cfg: Config, acts: seq<Action>, s: State)
    requires Run(cfg, INIT, acts) == Some(s)
    ensures Inv(cfg, s)
  {
    RunKeepsInv(cfg, INIT, acts);
  }

  lemma {:induction false} TallyTwo(ps: seq<Phase>, ws: seq<WantConn>, t: Tid, u: Tid, k: Token)
    requires t < u < |ps| == |ws|
    ensures Tally(ps, ws, k) >= Has(ps[t], ws[t], k) + Has(ps[u], ws[u], k)
  {
    var n := |ps|;
    if u == n - 1 {
      TallyMove(ps[..n - 1], ws[..n - 1], t, ps[t], ws[t], k);
    } else {
      TallyTwo(ps[..n - 1], ws[..n - 1], t, u, k);
    }
  }

  /** connsCount is bounded and counts exactly; a connection in use is open, is not idle,
      and is in use by one request only. */
  lemma PoolSafety(cfg: Config, acts: seq<Action>, s: State)
    requires Run(cfg, INIT, acts) == Some(s)
    ensures |s.phases| == |s.sh.wants|
    ensures 0 <= s.sh.connsCount <= cfg.Limit()
    ensures s.sh.connsCount == |s.sh.conns| + Tally(s.phases, s.sh.wants, Slot)
    ensures forall t | 0 <= t < |s.phases| && s.phases[t].Holding? ::
              var c := s.phases[t].c;
              && c < s.dialed && c !in s.closed && c !in s.sh.conns
              && (forall u | 0 <= u < |s.phases| && u != t :: Has(s.phases[u], s.sh.wants[u], Conn(c)) == 0)
    ensures forall c: ConnId | c < s.dialed && c !in s.closed :: Total(s, Conn(c)) == 1
    ensures multiset(s.sh.conns) == multiset(set c | c in s.sh.conns)
  {
    ReachableInv(cfg, acts, s);
    forall t | 0 <= t < |s.phases| && s.phases[t].Holding?
      ensures var c := s.phases[t].c;
              && c < s.dialed && c !in s.closed && c !in s.sh.conns
              && (forall u | 0 <= u < |s.phases| && u != t :: Has(s.phases[u], s.sh.wants[u], Conn(c)) == 0)
    {
      var c := s.phases[t].c;
      HasAtMostTotal(s, t, Conn(c));
      TallyMove(s.phases, s.sh.wants, t, s.phases[t], s.sh.wants[t], Conn(c));
      forall u | 0 <= u < |s.phases| && u != t
        ensures Has(s.phases[u], s.sh.wants[u], Conn(c)) == 0
      {
        TallyTwo(s.phases, s.sh.wants, if t < u then t else u, if t < u then u else t, Conn(c));
      }
    }
    IdleDistinct(cfg, s);
  }

  lemma IdleDistinct(cfg: Config, s: State)
    requires Inv(cfg, s)
    ensures multiset(s.sh.conns) == multiset(set c | c in s.sh.conns)
  {
    forall c: ConnId ensures multiset(s.sh.conns)[c] <= 1 {
      assert Total(s, Conn(c)) <= 1;
    }
  }

  predicate Delivers(a: Action) {
    a.Offer? || a.Deliver? || a.CancelWait?
  }

  lemma OthersKeepCells(cfg: Config, s: State, a: Action, w: Tid)
    requires |s.phases| == |s.sh.wants| && Enabled(s, a) && w < |s.sh.wants| && !Delivers(a)
    ensures var s' := Apply(cfg, s, a);
            && |s'.phases| == |s'.sh.wants| > w && s'.sh.wants[w] == s.sh.wants[w]
            && (s.phases[w].Waiting? && !s'.phases[w].Waiting? ==> s.sh.wants[w].closes > 0)
  {
  }

  lemma DeliveriesKeepCells(cfg: Config, s: State, a: Action, w: Tid)
    requires |s.phases| == |s.sh.wants| && Enabled(s, a) && w < |s.sh.wants| && Delivers(a)
    requires CellInv(s.sh.wants[w])
    ensures var s' := Apply(cfg, s, a);
            && |s'.phases| == |s'.sh.wants| > w && CellInv(s'.sh.wants[w])
            && (s.sh.wants[w].Resolved() ==> s'.sh.wants[w].closes == s.sh.wants[w].closes)
            && (s.sh.wants[w].err.Some? ==> s'.sh.wants[w].err.Some?)
            && (s.phases[w].Waiting? && !s'.phases[w].Waiting? ==> s'.sh.wants[w].closes > 0)
  {
  }

  /** A wantConn is resolved at most once and stays resolved; cancel only withdraws the connection. */
  lemma {:induction false} StepResolvesOnce(cfg: Config, s: State, a: Action, w: Tid)
    requires Inv(cfg, s) && Enabled(s, a) && w < |s.sh.wants|
    ensures var s' := Apply(cfg, s, a);
            && |s'.phases| == |s'.sh.wants| > w
            && s.sh.wants[w].closes <= s'.sh.wants[w].closes <= 1
            && (s.sh.wants[w].Resolved() ==> s'.sh.wants[w].closes == s.sh.wants[w].closes)
            && (s.sh.wants[w].err.Some? ==> s'.sh.wants[w].err.Some? && s'.sh.wants[w].conn.None?)
            && (s.phases[w].Waiting? && !s'.phases[w].Waiting? ==> s'.sh.wants[w].closes == 1)
  {
    hide LockInv, CountInv, OwnerInv, RouteInv, FreshInv, Apply;
    assert CellInv(s.sh.wants[w]);
    if Delivers(a) {
      DeliveriesKeepCells(cfg, s, a, w);
    } else {
      OthersKeepCells(cfg, s, a, w);
    }
  }

  /** Once a waiter is resolved its channel is never closed again, and once it has an error
      no connection is ever put into it, whatever races follow. */
  lemma {:induction false} ResolvedOnceOverRuns(cfg: Config, s: State, acts: seq<Action>, w: Tid)
    requires Inv(cfg, s) && w < |s.sh.wants| && Run(cfg, s, acts).Some?
    ensures var s' := Run(cfg, s, acts).value;
            && w < |s'.sh.wants|
            && s.sh.wants[w].closes <= s'.sh.wants[w].closes <= 1
            && (s.sh.wants[w].Resolved() ==> s'.sh.wants[w].Resolved())
            && (s.sh.wants[w].err.Some? ==> s'.sh.wants[w].err.Some? && s'.sh.wants[w].conn.None?)
    decreases |acts|
  {
    if acts != [] {
      StepResolvesOnce(cfg, s, acts[0], w);
      StepKeepsInv(cfg, s, acts[0]);
      ResolvedOnceOverRuns(cfg, Apply(cfg, s, acts[0]), acts[1..], w);
    } else {
      assert CellInv(s.sh.wants[w]);
    }
  }

  /** An unresolved waiter is never forgotten: it is in the queue exactly once, or exactly one
      goroutine is about to deliver to it; whoever has stopped waiting can get no delivery. */
  lemma WaiterNeverForgotten(cfg: Config, acts: seq<Action>, s: State, w: Tid)
    requires Run(cfg, INIT, acts) == Some(s) && w < |s.phases|
    ensures |s.phases| == |s.sh.wants|
    ensures s.phases[w].Waiting? && !s.sh.wants[w].Resolved() ==>
              multiset(s.sh.queue)[w] + Tally(s.phases, s.sh.wants, Route(w)) == 1
    ensures !s.phases[w].Waiting? ==>
              s.sh.wants[w].Resolved() || (w !in s.sh.queue && Tally(s.phases, s.sh.wants, Route(w)) == 0)
  {
    ReachableInv(cfg, acts, s);
    assert CellInv(s.sh.wants[w]);
    assert Total(s, Route(w)) <= 1;
  }
}
