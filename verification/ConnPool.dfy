/** The HostClient connection pool as a state machine (client.go). One action is one
    section that runs without losing a lock, or one step outside the locks: the two
    sections of acquireConn, every turn of the loops that scan the waiters, tryDeliver,
    cancel, and the ends of dials. Timers and dials end nondeterministically. */
module ConnPool {
  import opened Counting
  import opened Options

  type ConnId = nat
  type Tid = nat

  const DEFAULT_MAX_CONNS_PER_HOST := 512

  datatype Strategy = Lifo | Fifo

  /** waits: MaxConnWaitTimeout > 0. */
  datatype Config = Config(maxConns: int, waits: bool, strategy: Strategy) {
    function Limit(): int { if maxConns <= 0 then DEFAULT_MAX_CONNS_PER_HOST else maxConns }
  }

  datatype PoolError = DialFailed | Timeout | NoFreeConns

  /** closes counts how often the channel ready was closed: a second close panics in Go. */
  datatype WantConn = WantConn(conn: Option<ConnId>, err: Option<PoolError>, closes: nat) {
    predicate Resolved() { conn.Some? || err.Some? }
    predicate Waiting() { closes == 0 }
  }

  const FRESH_WANT := WantConn(None, None, 0)

  /** What the locks protect. A *wantConn is an index into wants: the number of the
      acquireConn call that made it. */
  datatype Shared = Shared(connsCount: int, conns: seq<ConnId>, queue: seq<Tid>, wants: seq<WantConn>)

  // ---------------------------------------------------------------------------
  // The locked sections, as functions on the shared state
  // ---------------------------------------------------------------------------

  datatype Acquired = Reuse(cc: ConnId) | MustDial | NoneFree

  function AcquireSection(cfg: Config, sh: Shared): (Shared, Acquired) {
    var n := |sh.conns|;
    if n == 0 then
      if sh.connsCount < cfg.Limit() then
        (sh.(connsCount := sh.connsCount + 1), MustDial)
      else
        (sh, NoneFree)
    else
      match cfg.strategy
      case Lifo => (sh.(conns := sh.conns[..n - 1]), Reuse(sh.conns[n - 1]))
      case Fifo => (sh.(conns := sh.conns[1..]), Reuse(sh.conns[0]))
  }

  function TryDeliver(want: WantConn, conn: Option<ConnId>, err: Option<PoolError>): (WantConn, bool) {
    if want.Resolved() then (want, false) else (WantConn(conn, err, want.closes + 1), true)
  }

  function Cancel(want: WantConn, err: PoolError): (WantConn, Option<ConnId>) {
    (WantConn(None, Some(err), if want.Resolved() then want.closes else want.closes + 1), want.conn)
  }

  function Waits(sh: Shared, w: Tid): bool {
    w < |sh.wants| && sh.wants[w].Waiting()
  }

  /** An idle prefix is taken out by the cleaner or by CloseIdleConnections. */
  function TakeIdle(sh: Shared, k: nat): (Shared, seq<ConnId>)
    requires k <= |sh.conns|
  {
    (sh.(conns := sh.conns[k..]), sh.conns[..k])
  }

  // ---------------------------------------------------------------------------
  // Goroutines
  // ---------------------------------------------------------------------------

  datatype Phase =
    | Start                                  // before acquireConn
    | Dialing                                // acquireConn dials on its own account
    | Enqueue                                // unlocked, before queueForIdle
    | ClearScan                              // in queueForIdle's clearFront, lock held
    | Waiting                                // in the select, or its timer has just fired
    | Holding(c: ConnId)                     // the request uses the connection
    | Releasing(c: ConnId)                   // about to enter releaseConn
    | RelScan(c: ConnId)                     // scanning the waiters in releaseConn, lock held
    | Offering(c: ConnId, w: Tid)            // between waiting() and tryDeliver, lock held
    | Closing(after: Option<ConnId>)         // about to enter decConnsCount
    | DecScan(after: Option<ConnId>)         // scanning the waiters in decConnsCount, lock held
    | Shut(c: ConnId)                        // counted down, cc.c.Close() still to run
    | DialFor(w: Tid)                        // dialConnFor, dialling
    | DialForFailed(w: Tid)                  // dialConnFor, about to deliver the error
    | DialForGot(c: ConnId, w: Tid)          // dialConnFor, about to deliver the connection
    | Batch(cs: seq<ConnId>)                 // the cleaner's or CloseIdleConnections' scratch
    | Done

  /** dialed numbers the connections ever dialed; closed holds those whose socket is closed. */
  datatype State = State(sh: Shared, phases: seq<Phase>, lock: Option<Tid>, dialed: nat, closed: set<ConnId>)

  const INIT := State(Shared(0, [], [], []), [], None, 0, {})

  function AfterDec(after: Option<ConnId>): Phase {
    if after.Some? then Shut(after.value) else Done
  }

  datatype Action =
    | Spawn
    | Acquire(t: Tid)
    | DialDone(t: Tid, ok: bool)
    | QueueLock(t: Tid)
    | QueueIter(t: Tid)
    | Take(t: Tid)
    | CancelWait(t: Tid, err: PoolError)
    | Finish(t: Tid, reuse: bool)
    | RelLock(t: Tid)
    | RelIter(t: Tid)
    | Offer(t: Tid)
    | DecLock(t: Tid)
    | DecIter(t: Tid)
    | CloseSocket(t: Tid)
    | DialForDone(t: Tid, ok: bool)
    | Deliver(t: Tid)
    | TakeBatch(k: nat)
    | BatchNext(t: Tid)

  function Move(s: State, t: Tid, p: Phase): State
    requires t < |s.phases|
  {
    s.(phases := s.phases[t := p])
  }

  /** A new goroutine, with the wantConn it may come to own. */
  function Fork(s: State, p: Phase): State {
    s.(phases := s.phases + [p], sh := s.sh.(wants := s.sh.wants + [FRESH_WANT]))
  }

  function SetWant(s: State, w: Tid, want: WantConn): State
    requires w < |s.sh.wants|
  {
    s.(sh := s.sh.(wants := s.sh.wants[w := want]))
  }

  function PopQueue(s: State): State
    requires s.sh.queue != []
  {
    s.(sh := s.sh.(queue := s.sh.queue[1..]))
  }

  function PutIdle(s: State, c: ConnId): State {
    s.(sh := s.sh.(conns := s.sh.conns + [c]))
  }

  function CountDown(s: State): State {
    s.(sh := s.sh.(connsCount := s.sh.connsCount - 1))
  }

  function ActorOf(a: Action): Option<Tid> {
    match a
    case Spawn => None
    case TakeBatch(_) => None
    case Acquire(t) => Some(t)
    case DialDone(t, _) => Some(t)
    case QueueLock(t) => Some(t)
    case QueueIter(t) => Some(t)
    case Take(t) => Some(t)
    case CancelWait(t, _) => Some(t)
    case Finish(t, _) => Some(t)
    case RelLock(t) => Some(t)
    case RelIter(t) => Some(t)
    case Offer(t) => Some(t)
    case DecLock(t) => Some(t)
    case DecIter(t) => Some(t)
    case CloseSocket(t) => Some(t)
    case DialForDone(t, _) => Some(t)
    case Deliver(t) => Some(t)
    case BatchNext(t) => Some(t)
  }

  /** The phase an action starts from, and what it needs of the locks. */
  predicate Enabled(s: State, a: Action) {
    if ActorOf(a).None? then
      match a
      case TakeBatch(k) => s.lock.None? && k <= |s.sh.conns|
      case _ => true
    else
      var t := ActorOf(a).value;
      t < |s.phases| && t < |s.sh.wants| &&
      var p := s.phases[t];
      match a
      case Acquire(_) => p.Start? && s.lock.None?
      case DialDone(_, _) => p.Dialing?
      case QueueLock(_) => p.Enqueue? && s.lock.None?
      case QueueIter(_) => p.ClearScan? && s.lock == Some(t)
      case Take(_) => p.Waiting? && s.sh.wants[t].closes > 0 && s.sh.wants[t].conn.Some?
      case CancelWait(_, _) => p.Waiting?
      case Finish(_, _) => p.Holding?
      case RelLock(_) => p.Releasing? && s.lock.None?
      case RelIter(_) => p.RelScan? && s.lock == Some(t)
      case Offer(_) => p.Offering? && s.lock == Some(t) && p.w < |s.sh.wants|
      case DecLock(_) => p.Closing? && s.lock.None?
      case DecIter(_) => p.DecScan? && s.lock == Some(t)
      case CloseSocket(_) => p.Shut?
      case DialForDone(_, _) => p.DialFor?
      case Deliver(_) => (p.DialForFailed? || p.DialForGot?) && p.w < |s.sh.wants|
      case BatchNext(_) => p.Batch? && p.cs != []
  }

  function Apply(cfg: Config, s: State, a: Action): State
    requires Enabled(s, a)
  {
    match a
    case Spawn =>
      Fork(s, Start)
    case Acquire(t) =>
      var (sh, got) := AcquireSection(cfg, s.sh);
      Move(s.(sh := sh), t,
           match got
           case Reuse(c) => Holding(c)
           case MustDial => Dialing
           case NoneFree => if cfg.waits then Enqueue else Done)
    case DialDone(t, ok) =>
      if ok then Move(s.(dialed := s.dialed + 1), t, Holding(s.dialed)) else Move(s, t, Closing(None))
    case QueueLock(t) =>
      Move(s.(lock := Some(t)), t, ClearScan)
    case QueueIter(t) =>
      if s.sh.queue == [] || Waits(s.sh, s.sh.queue[0]) then
        Move(s.(lock := None, sh := s.sh.(queue := s.sh.queue + [t])), t, Waiting)
      else
        PopQueue(s)
    case Take(t) =>
      Move(s, t, Holding(s.sh.wants[t].conn.value))
    case CancelWait(t, err) =>
      var (want, conn) := Cancel(s.sh.wants[t], err);
      Move(SetWant(s, t, want), t, if conn.Some? then Releasing(conn.value) else Done)
    case Finish(t, reuse) =>
      var c := s.phases[t].c;
      Move(s, t, if reuse then Releasing(c) else Closing(Some(c)))
    case RelLock(t) =>
      var c := s.phases[t].c;
      if cfg.waits then Move(s.(lock := Some(t)), t, RelScan(c)) else Move(PutIdle(s, c), t, Done)
    case RelIter(t) =>
      var c := s.phases[t].c;
      if s.sh.queue == [] then
        Move(PutIdle(s, c).(lock := None), t, Done)
      else if Waits(s.sh, s.sh.queue[0]) then
        Move(PopQueue(s), t, Offering(c, s.sh.queue[0]))
      else
        PopQueue(s)
    case Offer(t) =>
      var Offering(c, w) := s.phases[t];
      var (want, delivered) := TryDeliver(s.sh.wants[w], Some(c), None);
      Move((if delivered then SetWant(s, w, want) else PutIdle(s, c)).(lock := None), t, Done)
    case DecLock(t) =>
      var after := s.phases[t].after;
      if cfg.waits then Move(s.(lock := Some(t)), t, DecScan(after)) else Move(CountDown(s), t, AfterDec(after))
    case DecIter(t) =>
      var after := s.phases[t].after;
      if s.sh.queue == [] then
        Move(CountDown(s).(lock := None), t, AfterDec(after))
      else if Waits(s.sh, s.sh.queue[0]) then
        Fork(Move(PopQueue(s).(lock := None), t, AfterDec(after)), DialFor(s.sh.queue[0]))
      else
        PopQueue(s)
    case CloseSocket(t) =>
      Move(s.(closed := s.closed + {s.phases[t].c}), t, Done)
    case DialForDone(t, ok) =>
      var w := s.phases[t].w;
      if ok then Move(s.(dialed := s.dialed + 1), t, DialForGot(s.dialed, w)) else Move(s, t, DialForFailed(w))
    case Deliver(t) =>
      var p := s.phases[t];
      var got := p.DialForGot?;
      var (want, delivered) := TryDeliver(s.sh.wants[p.w], if got then Some(p.c) else None,
                                          if got then None else Some(DialFailed));
      Move(SetWant(s, p.w, want), t,
           if !got then Closing(None) else if delivered then Done else Releasing(p.c))
    case TakeBatch(k) =>
      var (sh, cs) := TakeIdle(s.sh, k);
      Fork(s.(sh := sh), Batch(cs))
    case BatchNext(t) =>
      var cs := s.phases[t].cs;
      Fork(Move(s, t, Batch(cs[1..])), Closing(Some(cs[0])))
  }

  /** The state a list of actions leads to, None if one of them is not enabled. */
  function Run(cfg: Config, s: State, acts: seq<Action>): Option<State>
    decreases |acts|
  {
    if acts == [] then Some(s)
    else if Enabled(s, acts[0]) then Run(cfg, Apply(cfg, s, acts[0]), acts[1..])
    else None
  }

  // ---------------------------------------------------------------------------
  // Ownership, counted in tokens
  // ---------------------------------------------------------------------------

  /** Slot: a unit of connsCount. Conn(c): the ownership of connection c.
      Route(w): a way by which the waiter w is going to be served. */
  datatype Token = Slot | Conn(c: ConnId) | Route(w: Tid)

  function Has(p: Phase, want: WantConn, k: Token): nat {
    match k
    case Slot => (
      match p
      case Start | Enqueue | ClearScan | Shut(_) | Done => 0
      case Waiting => B(want.conn.Some?)
      case Batch(cs) => |cs|
      case _ => 1)
    case Conn(c) => (
      match p
      case Waiting => B(want.conn == Some(c))
      case Holding(d) => B(d == c)
      case Releasing(d) => B(d == c)
      case RelScan(d) => B(d == c)
      case Offering(d, _) => B(d == c)
      case Closing(after) => B(after == Some(c))
      case DecScan(after) => B(after == Some(c))
      case Shut(d) => B(d == c)
      case DialForGot(d, _) => B(d == c)
      case Batch(cs) => multiset(cs)[c]
      case _ => 0)
    case Route(w) => (
      match p
      case Offering(_, v) => B(v == w)
      case DialFor(v) => B(v == w)
      case DialForFailed(v) => B(v == w)
      case DialForGot(_, v) => B(v == w)
      case _ => 0)
  }

  function Tally(ps: seq<Phase>, ws: seq<WantConn>, k: Token): nat
    requires |ps| == |ws|
  {
    var n := |ps|;
    if n == 0 then 0 else Tally(ps[..n - 1], ws[..n - 1], k) + Has(ps[n - 1], ws[n - 1], k)
  }

  function Stored(sh: Shared, k: Token): nat {
    match k
    case Slot => |sh.conns|
    case Conn(c) => multiset(sh.conns)[c]
    case Route(w) => multiset(sh.queue)[w]
  }

  function Total(s: State, k: Token): nat
    requires |s.phases| == |s.sh.wants|
  {
    Stored(s.sh, k) + Tally(s.phases, s.sh.wants, k)
  }

  lemma {:induction false} TallyMove(ps: seq<Phase>, ws: seq<WantConn>, t: Tid, p: Phase, want: WantConn, k: Token)
    requires t < |ps| == |ws|
    ensures Tally(ps[t := p], ws[t := want], k) == Tally(ps, ws, k) - Has(ps[t], ws[t], k) + Has(p, want, k)
    ensures Tally(ps, ws, k) >= Has(ps[t], ws[t], k)
  {
    var n := |ps|;
    var ps', ws' := ps[t := p], ws[t := want];
    if t == n - 1 {
      assert ps'[..n - 1] == ps[..n - 1] && ws'[..n - 1] == ws[..n - 1];
    } else {
      TallyMove(ps[..n - 1], ws[..n - 1], t, p, want, k);
      assert ps'[..n - 1] == ps[..n - 1][t := p] && ws'[..n - 1] == ws[..n - 1][t := want];
    }
  }

  lemma TallyFork(ps: seq<Phase>, ws: seq<WantConn>, p: Phase, want: WantConn, k: Token)
    requires |ps| == |ws|
    ensures Tally(ps + [p], ws + [want], k) == Tally(ps, ws, k) + Has(p, want, k)
  {
    assert (ps + [p])[..|ps|] == ps && (ws + [want])[..|ws|] == ws;
  }

  // The bookkeeping of the state-changing helpers, for every token at once.

  lemma MoveTotal(s: State, t: Tid, p: Phase)
    requires t < |s.phases| == |s.sh.wants|
    ensures forall k :: Total(Move(s, t, p), k)
                        == Total(s, k) - Has(s.phases[t], s.sh.wants[t], k) + Has(p, s.sh.wants[t], k)
  {
    forall k ensures Total(Move(s, t, p), k)
                     == Total(s, k) - Has(s.phases[t], s.sh.wants[t], k) + Has(p, s.sh.wants[t], k) {
      TallyMove(s.phases, s.sh.wants, t, p, s.sh.wants[t], k);
      assert s.sh.wants[t := s.sh.wants[t]] == s.sh.wants;
    }
  }

  lemma SetWantTotal(s: State, w: Tid, want: WantConn)
    requires w < |s.phases| == |s.sh.wants|
    ensures forall k :: Total(SetWant(s, w, want), k)
                        == Total(s, k) - Has(s.phases[w], s.sh.wants[w], k) + Has(s.phases[w], want, k)
  {
    forall k ensures Total(SetWant(s, w, want), k)
                     == Total(s, k) - Has(s.phases[w], s.sh.wants[w], k) + Has(s.phases[w], want, k) {
      TallyMove(s.phases, s.sh.wants, w, s.phases[w], want, k);
      assert s.phases[w := s.phases[w]] == s.phases;
    }
  }

  lemma ForkTotal(s: State, p: Phase)
    requires |s.phases| == |s.sh.wants|
    ensures forall k :: Total(Fork(s, p), k) == Total(s, k) + Has(p, FRESH_WANT, k)
  {
    forall k ensures Total(Fork(s, p), k) == Total(s, k) + Has(p, FRESH_WANT, k) {
      TallyFork(s.phases, s.sh.wants, p, FRESH_WANT, k);
    }
  }

  lemma PopTotal(s: State)
    requires |s.phases| == |s.sh.wants| && s.sh.queue != []
    ensures forall k :: Total(PopQueue(s), k) == Total(s, k) - B(k == Route(s.sh.queue[0]))
  {
    assert s.sh.queue == [s.sh.queue[0]] + s.sh.queue[1..];
  }

  lemma HasAtMostTotal(s: State, t: Tid, k: Token)
    requires t < |s.phases| == |s.sh.wants|
    ensures Has(s.phases[t], s.sh.wants[t], k) <= Total(s, k)
  {
    TallyMove(s.phases, s.sh.wants, t, s.phases[t], s.sh.wants[t], k);
  }

  // ---------------------------------------------------------------------------
  // The invariant
  // ---------------------------------------------------------------------------

  predicate HoldsLock(p: Phase) {
    p.ClearScan? || p.RelScan? || p.Offering? || p.DecScan?
  }

  ghost predicate LockInv(s: State) {
    && (s.lock.Some? ==> s.lock.value < |s.phases|)
    && forall t | 0 <= t < |s.phases| :: HoldsLock(s.phases[t]) <==> s.lock == Some(t)
  }

  /** A cell is resolved if and only if its channel was closed, and it was closed once. */
  ghost predicate CellInv(want: WantConn) {
    && want.closes == B(want.Resolved())
    && !(want.conn.Some? && want.err.Some?)
  }

  /** connsCount is the number of connections and dials that are idle, held, offered,
      sitting in a resolved wantConn, in flight, or taken out and not yet counted down. */
  ghost predicate CountInv(cfg: Config, s: State)
    requires |s.phases| == |s.sh.wants|
  {
    s.sh.connsCount == Total(s, Slot) && s.sh.connsCount <= cfg.Limit()
  }

  /** Every open connection has exactly one owner, every other number has none. */
  ghost predicate OwnerInv(s: State)
    requires |s.phases| == |s.sh.wants|
  {
    && (forall c: ConnId :: Total(s, Conn(c)) == B(c < s.dialed && c !in s.closed))
    && (forall c | c in s.closed :: c < s.dialed)
  }

  /** An unresolved waiter has exactly one way of being served, a place in the queue, an offer
      or a dial of its own; whoever does not wait unresolved has none; nobody has two. */
  ghost predicate RouteInv(s: State)
    requires |s.phases| == |s.sh.wants|
  {
    && (forall w: Tid :: Total(s, Route(w)) <= B(w < |s.phases|))
    && (forall w: Tid | w < |s.phases| && s.sh.wants[w].Waiting() ::
          Total(s, Route(w)) == B(s.phases[w].Waiting?))
  }

  /** A call that has not queued yet has an untouched cell. */
  ghost predicate FreshInv(s: State)
    requires |s.phases| == |s.sh.wants|
  {
    forall t | 0 <= t < |s.phases| && (s.phases[t].Start? || s.phases[t].Enqueue? || s.phases[t].ClearScan?) ::
      s.sh.wants[t] == FRESH_WANT
  }

  ghost predicate Inv(cfg: Config, s: State) {
    && |s.phases| == |s.sh.wants|
    && LockInv(s)
    && FreshInv(s)
    && (forall t | 0 <= t < |s.sh.wants| :: CellInv(s.sh.wants[t]))
    && CountInv(cfg, s)
    && OwnerInv(s)
    && RouteInv(s)
  }
}
