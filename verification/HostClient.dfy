/** The HostClient methods that update the pool under its locks (client.go), on real fields
    and the two-stage queue. Each one is proved to make the step of the machine in ConnPool. */
module HostClients {
  import opened Options
  import opened ConnPool
  import opened ConnPoolSections
  import opened WantConnQueues

  /** Idle connections in the order of their last use. */
  ghost predicate ByLastUse(conns: seq<ConnId>, lastUse: map<ConnId, int>, clock: int) {
    && (forall i | 0 <= i < |conns| :: conns[i] in lastUse && lastUse[conns[i]] <= clock)
    && (forall i, j | 0 <= i < j < |conns| :: lastUse[conns[i]] <= lastUse[conns[j]])
  }

  lemma UsedNow(conns: seq<ConnId>, lastUse: map<ConnId, int>, clock: int, cc: ConnId, now: int)
    requires ByLastUse(conns, lastUse, clock) && cc !in conns && clock <= now
    ensures ByLastUse(conns, lastUse[cc := now], now)
    ensures ByLastUse(conns + [cc], lastUse[cc := now], now)
  {
    assert forall i | 0 <= i < |conns| :: conns[i] != cc;
  }

  lemma StillByLastUse(conns: seq<ConnId>, lastUse: map<ConnId, int>, clock: int, i: nat, j: nat)
    requires ByLastUse(conns, lastUse, clock) && i <= j <= |conns|
    ensures ByLastUse(conns[i..j], lastUse, clock)
  {
  }

  lemma RestIsRecent(conns: seq<ConnId>, lastUse: map<ConnId, int>, clock: int, i: nat, now: int, limit: int)
    requires ByLastUse(conns, lastUse, clock) && i <= |conns|
    requires i < |conns| ==> now - lastUse[conns[i]] <= limit
    ensures forall j | i <= j < |conns| :: now - lastUse[conns[j]] <= limit
  {
  }

  class HostClient {
    const cfg: Config
    var connsCount: int
    var conns: seq<ConnId>
    var connsWait: WantConnQueue?<Tid>
    var wants: seq<WantConn>
    var lastUseTime: map<ConnId, int>
    ghost var clock: int

    /** The clock does not go back, so the idle connections are in the order of their last use. */
    ghost predicate Valid()
      reads this, if connsWait == null then {} else connsWait.Repr()
    {
      && (connsWait != null ==> connsWait.Valid())
      && ByLastUse(conns, lastUseTime, clock)
    }

    ghost function Queue(): seq<Tid>
      reads this, if connsWait == null then {} else connsWait.Repr()
      requires Valid()
    {
      if connsWait == null then [] else connsWait.Contents()
    }

    ghost function View(): Shared
      reads this, if connsWait == null then {} else connsWait.Repr()
      requires Valid()
    {
      Shared(connsCount, conns, Queue(), wants)
    }

    ghost function Repr(): set<object>
      reads this, connsWait
    {
      {this} + if connsWait == null then {} else connsWait.Repr()
    }

    constructor (cfg: Config)
      ensures Valid() && fresh(Repr()) && this.cfg == cfg
      ensures View() == INIT.sh
    {
      this.cfg := cfg;
      connsCount, conns, connsWait, wants, lastUseTime, clock := 0, [], null, [], map[], 0;
    }

    /** The first locked section of acquireConn: the connection used last under LIFO, the one idle longest
        under FIFO; a new one exactly when none is idle and the limit is not reached. */
    method AcquireSlot() returns (cc: Option<ConnId>, createConn: bool)
      requires Valid()
      modifies this`conns, this`connsCount
      ensures Valid() && connsWait == old(connsWait)
      ensures var (sh, got) := AcquireSection(cfg, old(View()));
              && View() == sh
              && cc == (if got.Reuse? then Some(got.cc) else None)
              && createConn == got.MustDial?
      ensures cc.None? <==> old(conns) == []
      ensures cc.Some? ==>
                && old(conns) == (if cfg.strategy == Lifo then conns + [cc.value] else [cc.value] + conns)
                && cc.value in lastUseTime
                && (forall i | 0 <= i < |conns| ::
                      if cfg.strategy == Lifo then lastUseTime[conns[i]] <= lastUseTime[cc.value]
                      else lastUseTime[cc.value] <= lastUseTime[conns[i]])
      ensures createConn <==>
                old(conns) == [] && old(connsCount) < if cfg.maxConns <= 0 then 512 else cfg.maxConns
      ensures connsCount == old(connsCount) + if createConn then 1 else 0
    {
      cc, createConn := None, false;
      var n := |conns|;
      if n == 0 {
        var maxConns := cfg.maxConns;
        if maxConns <= 0 {
          maxConns := DEFAULT_MAX_CONNS_PER_HOST;
        }
        if connsCount < maxConns {
          connsCount := connsCount + 1;
          createConn := true;
        }
      } else {
        cc := TakeIdleConn();
      }
    }

    /** The newest or the oldest idle connection, by strategy. */
    method TakeIdleConn() returns (cc: Option<ConnId>)
      requires Valid() && conns != []
      modifies this`conns
      ensures Valid() && cc.Some? && cc.value in lastUseTime
      ensures old(conns) == if cfg.strategy == Lifo then conns + [cc.value] else [cc.value] + conns
      ensures forall i | 0 <= i < |conns| ::
                if cfg.strategy == Lifo then lastUseTime[conns[i]] <= lastUseTime[cc.value]
                else lastUseTime[cc.value] <= lastUseTime[conns[i]]
    {
      ghost var idle := conns;
      var n := |conns|;
      match cfg.strategy
      case Lifo =>
        n := n - 1;
        cc := Some(conns[n]);
        conns := conns[..n];
        assert idle == conns + [idle[n]];
      case Fifo =>
        cc := Some(conns[0]);
        conns := conns[1..];
        assert idle == [idle[0]] + conns;
        assert forall i | 0 <= i < |conns| :: conns[i] == idle[i + 1];
    }

    method QueueForIdle(w: Tid)
      requires Valid()
      modifies Repr()
      ensures Valid() && fresh(Repr() - old(Repr()))
      ensures View() == QueueSection(old(View()), w)
    {
      if connsWait == null {
        connsWait := new WantConnQueue<Tid>();
      }
      ghost var before := View();
      var current := wants;
      var _ := connsWait.ClearFront((t: Tid) => t < |current| && current[t].Waiting());
      connsWait.PushBack(w);
      QueueSectionDrops(before, w, (t: Tid) => t < |current| && current[t].Waiting());
    }

    /** The locked body of wantConn.tryDeliver. */
    method DeliverTo(w: Tid, conn: Option<ConnId>, err: Option<PoolError>) returns (delivered: bool)
      requires Valid() && w < |wants|
      requires conn.Some? || err.Some?
      modifies this`wants
      ensures Valid() && connsWait == old(connsWait)
      ensures var (want, ok) := TryDeliver(old(wants)[w], conn, err);
              View() == old(View()).(wants := old(wants)[w := want]) && delivered == ok
      ensures delivered <==> old(wants)[w].conn == None && old(wants)[w].err == None
      ensures wants == if delivered then old(wants)[w := WantConn(conn, err, old(wants)[w].closes + 1)] else old(wants)
    {
      if wants[w].conn.Some? || wants[w].err.Some? {
        return false;
      }
      wants := wants[w := WantConn(conn, err, wants[w].closes + 1)];
      return true;
    }

    /** wantConn.cancel up to its unlock; a connection that had been delivered is handed back. */
    method CancelWant(w: Tid, err: PoolError) returns (conn: Option<ConnId>)
      requires Valid() && w < |wants|
      modifies this`wants
      ensures Valid() && connsWait == old(connsWait)
      ensures var (want, delivered) := Cancel(old(wants)[w], err);
              View() == old(View()).(wants := old(wants)[w := want]) && conn == delivered
      ensures var was := old(wants)[w];
              && conn == was.conn
              && wants == old(wants)[w := WantConn(None, Some(err), was.closes
                                                   + if was.conn == None && was.err == None then 1 else 0)]
    {
      var want := wants[w];
      var closes := want.closes;
      if want.conn.None? && want.err.None? {
        closes := closes + 1;
      }
      conn := want.conn;
      wants := wants[w := WantConn(None, Some(err), closes)];
    }

    /** Takes the oldest waiter off the queue. */
    method PopWaiter() returns (w: Tid)
      requires Valid() && Queue() != []
      modifies Repr()
      ensures Valid() && Repr() == old(Repr()) && connsWait == old(connsWait)
      ensures w == old(Queue())[0] && View() == old(View()).(queue := old(Queue())[1..])
      ensures lastUseTime == old(lastUseTime) && clock == old(clock)
    {
      hide ByLastUse;
      var front := connsWait.PopFront();
      w := front.value;
    }

    /** The loop of releaseConn: offers the connection to the waiters, oldest first. */
    method OfferToWaiters(cc: ConnId) returns (delivered: bool)
      requires Valid()
      modifies Repr()
      ensures Valid() && Repr() == old(Repr()) && lastUseTime == old(lastUseTime) && clock == old(clock)
      ensures conns == old(conns)
      ensures ReleaseScan(old(View()), cc) == if delivered then View() else View().(conns := conns + [cc])
    {
      hide ByLastUse;
      delivered := false;
      if connsWait == null {
        return;
      }
      var len := connsWait.Len();
      while len > 0
        invariant connsWait != null && Valid() && Repr() == old(Repr())
        invariant len == |Queue()| && lastUseTime == old(lastUseTime) && clock == old(clock) && conns == old(conns)
        invariant ReleaseScan(View(), cc) == ReleaseScan(old(View()), cc)
        decreases len
      {
        var w := PopWaiter();
        if w < |wants| && wants[w].Waiting() {
          delivered := DeliverTo(w, Some(cc), None);
          return;
        }
        len := connsWait.Len();
      }
    }

    /** Whoever releases a connection held it, so it is not idle; the clock does not go back. */
    method ReleaseConn(cc: ConnId, now: int)
      requires Valid() && cc !in conns && clock <= now
      modifies Repr()
      ensures Valid() && Repr() == old(Repr())
      ensures View() == ReleaseSection(cfg, old(View()), cc)
      ensures lastUseTime == old(lastUseTime)[cc := now]
    {
      hide ReleaseScan, ByLastUse;
      UsedNow(conns, lastUseTime, clock, cc, now);
      lastUseTime, clock := lastUseTime[cc := now], now;
      if !cfg.waits {
        conns := conns + [cc];
        return;
      }
      var delivered := OfferToWaiters(cc);
      if delivered {
        return;
      }
      conns := conns + [cc];
    }

    /** The loop of decConnsCount: the oldest waiter that still waits, if any. */
    method NextWaiter() returns (w: Option<Tid>)
      requires Valid()
      modifies Repr()
      ensures Valid() && Repr() == old(Repr())
      ensures DecScanSection(old(View()))
           == (if w.Some? then View() else View().(connsCount := connsCount - 1), w)
    {
      hide ByLastUse;
      if connsWait == null {
        return None;
      }
      var len := connsWait.Len();
      while len > 0
        invariant connsWait != null && Valid() && Repr() == old(Repr())
        invariant len == |Queue()|
        invariant DecScanSection(View()) == DecScanSection(old(View()))
        decreases len
      {
        var front := PopWaiter();
        if front < |wants| && wants[front].Waiting() {
          return Some(front);
        }
        len := connsWait.Len();
      }
      return None;
    }

    /** Returns the waiter for which dialConnFor is started, if any. */
    method DecConnsCount() returns (dialFor: Option<Tid>)
      requires Valid()
      modifies Repr()
      ensures Valid() && Repr() == old(Repr())
      ensures (View(), dialFor) == DecSection(cfg, old(View()))
    {
      hide DecScanSection, ByLastUse;
      dialFor := None;
      if cfg.waits {
        dialFor := NextWaiter();
        if dialFor != None {
          return;
        }
      }
      connsCount := connsCount - 1;
    }

    /** The first locked section of a cleaner pass: every connection idle beyond the limit is taken and no
        other, from the front, and the rest keep their order. */
    method TakeExpired(currentTime: int, maxIdleConnDuration: int) returns (scratch: seq<ConnId>)
      requires Valid()
      modifies this`conns
      ensures Valid() && old(conns) == scratch + conns
      ensures (View(), scratch) == TakeIdle(old(View()), |scratch|)
      ensures forall i | 0 <= i < |scratch| ::
                scratch[i] in lastUseTime && currentTime - lastUseTime[scratch[i]] > maxIdleConnDuration
      ensures forall i | 0 <= i < |conns| :: currentTime - lastUseTime[conns[i]] <= maxIdleConnDuration
    {
      var n := |conns|;
      var i := 0;
      while i < n && currentTime - lastUseTime[conns[i]] > maxIdleConnDuration
        invariant 0 <= i <= n
        invariant forall j | 0 <= j < i :: currentTime - lastUseTime[conns[j]] > maxIdleConnDuration
      {
        i := i + 1;
      }
      scratch := conns[..i];
      RestIsRecent(conns, lastUseTime, clock, i, currentTime, maxIdleConnDuration);
      StillByLastUse(conns, lastUseTime, clock, i, n);
      assert conns[i..n] == conns[i..] && conns == scratch + conns[i..];
      hide ByLastUse;
      if i > 0 {
        conns := conns[i..];
      }
    }

    method CloseIdleConnections() returns (scratch: seq<ConnId>)
      requires Valid()
      modifies this
      ensures Valid() && connsWait == old(connsWait)
      ensures (View(), scratch) == TakeIdle(old(View()), |old(conns)|)
    {
      scratch := conns;
      assert conns[..|conns|] == conns && conns[|conns|..] == [];
      conns := [];
    }
  }

  /** queueForIdle's clearFront and pushBack are the queue scan of the machine. */
  lemma {:induction false} QueueSectionDrops(sh: Shared, w: Tid, waiting: Tid -> bool)
    requires forall t: Tid :: waiting(t) <==> Waits(sh, t)
    ensures QueueSection(sh, w) == sh.(queue := DropSettled(sh.queue, waiting) + [w])
    decreases |sh.queue|
  {
    if sh.queue != [] && !Waits(sh, sh.queue[0]) {
      QueueSectionDrops(sh.(queue := sh.queue[1..]), w, waiting);
    }
  }
}
