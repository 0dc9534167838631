/** The worker pool (workerpool.go) as a state machine: the sections under wp.lock, the channel
    operations outside it, and the life of each worker. Taking the time of the last use and
    putting the channel back are one step, and the clock never goes back. */
module Workers {
  import opened Counting

  type WorkerId = nat
  type ConnId = nat

  datatype Message = Serve(c: ConnId) | Quit

  datatype WorkerPhase = Idle | Serving(c: ConnId) | Releasing | Exiting | Finished

  /** A worker and its channel; the channel of a finished worker is not modelled again when the
      pool of channels reuses it. */
  datatype Worker = Worker(phase: WorkerPhase, inbox: seq<Message>)

  /** The callers of Serve, numbered by the connection they bring. */
  datatype Caller = Arrived | Sending(w: WorkerId) | Sent | Rejected

  datatype Ready = Ready(w: WorkerId, lastUseTime: int)

  datatype State = State(maxWorkers: nat, workersCount: int, mustStop: bool, ready: seq<Ready>,
                         workers: seq<Worker>, callers: seq<Caller>, scratch: seq<Ready>, clock: int)

  function Init(maxWorkers: nat): State {
    State(maxWorkers, 0, false, [], [], [], [], 0)
  }

  // ---------------------------------------------------------------------------
  // The locked sections
  // ---------------------------------------------------------------------------

  /** The maximal prefix of channels whose last use is before the critical time. */
  function ExpiredPrefix(ready: seq<Ready>, criticalTime: int): (n: nat)
    ensures n <= |ready|
  {
    if ready == [] || ready[0].lastUseTime >= criticalTime then 0
    else 1 + ExpiredPrefix(ready[1..], criticalTime)
  }

  function Put(workers: seq<Worker>, w: WorkerId, m: Message): seq<Worker>
    requires w < |workers|
  {
    workers[w := workers[w].(inbox := workers[w].inbox + [m])]
  }

  function QuitAll(workers: seq<Worker>, ready: seq<Ready>): (r: seq<Worker>)
    requires forall i | 0 <= i < |ready| :: ready[i].w < |workers|
    ensures |r| == |workers|
  {
    if ready == [] then workers
    else Put(QuitAll(workers, ready[..|ready| - 1]), ready[|ready| - 1].w, Quit)
  }

  datatype Action =
    | Arrive
    | GetCh(i: ConnId)
    | Send(i: ConnId)
    | Receive(w: WorkerId)
    | Complete(w: WorkerId)   // WorkerFunc returns and the connection is closed or given away
    | Release(w: WorkerId)
    | Exit(w: WorkerId)
    | Clean(maxIdle: nat)    // the locked section of clean; the critical time may be read earlier
    | Notify
    | Stop
    | Tick

  ghost predicate WellFormed(s: State) {
    && (forall i | 0 <= i < |s.ready| :: s.ready[i].w < |s.workers|)
    && (forall i | 0 <= i < |s.scratch| :: s.scratch[i].w < |s.workers|)
    && (forall i | 0 <= i < |s.callers| && s.callers[i].Sending? :: s.callers[i].w < |s.workers|)
  }

  predicate Enabled(s: State, a: Action) {
    match a
    case Arrive => true
    case GetCh(i) => i < |s.callers| && s.callers[i].Arrived?
    case Send(i) => i < |s.callers| && s.callers[i].Sending?
    case Receive(w) => w < |s.workers| && s.workers[w].phase.Idle? && s.workers[w].inbox != []
    case Complete(w) => w < |s.workers| && s.workers[w].phase.Serving?
    case Release(w) => w < |s.workers| && s.workers[w].phase.Releasing?
    case Exit(w) => w < |s.workers| && s.workers[w].phase.Exiting?
    case Clean(_) => s.scratch == []
    case Notify => s.scratch != []
    case Stop => !s.mustStop
    case Tick => true
  }

  function SetPhase(s: State, w: WorkerId, p: WorkerPhase): State
    requires w < |s.workers|
  {
    s.(workers := s.workers[w := s.workers[w].(phase := p)])
  }

  function SetCaller(s: State, i: ConnId, c: Caller): State
    requires i < |s.callers|
  {
    s.(callers := s.callers[i := c])
  }

  function Apply(s: State, a: Action): State
    requires WellFormed(s) && Enabled(s, a)
  {
    match a
    case Arrive => s.(callers := s.callers + [Arrived])
    case GetCh(i) =>
      var n := |s.ready| - 1;
      if n < 0 then
        if s.workersCount < s.maxWorkers then
          SetCaller(s, i, Sending(|s.workers|)).(workersCount := s.workersCount + 1,
                                                 workers := s.workers + [Worker(Idle, [])])
        else SetCaller(s, i, Rejected)
      else SetCaller(s, i, Sending(s.ready[n].w)).(ready := s.ready[..n])
    case Send(i) => SetCaller(s, i, Sent).(workers := Put(s.workers, s.callers[i].w, Serve(i)))
    case Receive(w) =>
      var inbox := s.workers[w].inbox;
      var p := match inbox[0] case Serve(c) => Serving(c) case Quit => Exiting;
      s.(workers := s.workers[w := Worker(p, inbox[1..])])
    case Complete(w) => SetPhase(s, w, Releasing)
    case Release(w) =>
      if s.mustStop then SetPhase(s, w, Exiting)
      else SetPhase(s, w, Idle).(ready := s.ready + [Ready(w, s.clock)])
    case Exit(w) => SetPhase(s, w, Finished).(workersCount := s.workersCount - 1)
    case Clean(maxIdle) =>
      var n := ExpiredPrefix(s.ready, s.clock - maxIdle);
      s.(scratch := s.ready[..n], ready := s.ready[n..])
    case Notify => s.(workers := Put(s.workers, s.scratch[0].w, Quit), scratch := s.scratch[1..])
    case Stop => s.(workers := QuitAll(s.workers, s.ready), ready := [], mustStop := true)
    case Tick => s.(clock := s.clock + 1)
  }

  // ---------------------------------------------------------------------------
  // The invariant
  // ---------------------------------------------------------------------------

  function SendSum(cs: seq<Caller>, w: WorkerId): nat {
    if cs == [] then 0 else SendSum(cs[..|cs| - 1], w) + B(cs[|cs| - 1] == Sending(w))
  }

  function Count(ready: seq<Ready>, w: WorkerId): nat {
    if ready == [] then 0 else Count(ready[..|ready| - 1], w) + B(ready[|ready| - 1].w == w)
  }

  /** In how many hands the channel of w is: ready, a caller's, the cleaner's, a message's or its own. */
  function Hands(s: State, w: WorkerId): nat
    requires w < |s.workers|
  {
    Count(s.ready, w) + SendSum(s.callers, w) + Count(s.scratch, w)
    + |s.workers[w].inbox| + B(!s.workers[w].phase.Idle?)
  }

  function HasConn(w: Worker, c: ConnId): nat {
    B(w.phase == Serving(c)) + multiset(w.inbox)[Serve(c)]
  }

  function ConnSum(ws: seq<Worker>, c: ConnId): nat {
    if ws == [] then 0 else ConnSum(ws[..|ws| - 1], c) + HasConn(ws[|ws| - 1], c)
  }

  function Running(ws: seq<Worker>): nat {
    if ws == [] then 0 else Running(ws[..|ws| - 1]) + B(!ws[|ws| - 1].phase.Finished?)
  }

  ghost predicate Sorted(ready: seq<Ready>, clock: int) {
    && (forall i, j | 0 <= i < j < |ready| :: ready[i].lastUseTime <= ready[j].lastUseTime)
    && (forall i | 0 <= i < |ready| :: ready[i].lastUseTime <= clock)
  }

  ghost predicate Inv(s: State) {
    && WellFormed(s)
    && (forall w | 0 <= w < |s.workers| :: Hands(s, w) == 1)
    && s.workersCount == Running(s.workers) && s.workersCount <= s.maxWorkers
    && (forall c: ConnId | c >= |s.callers| || !s.callers[c].Sent? :: ConnSum(s.workers, c) == 0)
    && (forall c: ConnId :: ConnSum(s.workers, c) <= 1)
    && (s.mustStop ==> s.ready == [])
    && Sorted(s.ready, s.clock)
  }

  // ---------------------------------------------------------------------------
  // Runs
  // ---------------------------------------------------------------------------

  ghost predicate IsRun(s: State, acts: seq<Action>, s': State)
    decreases |acts|
  {
    if acts == [] then s' == s
    else WellFormed(s) && Enabled(s, acts[0]) && IsRun(Apply(s, acts[0]), acts[1..], s')
  }

  /** Does the action complete the serving of c? */
  function Finishes(s: State, a: Action, c: ConnId): nat
    requires Enabled(s, a)
  {
    B(a.Complete? && s.workers[a.w].phase == Serving(c))
  }

  /** How often c is served in a run. */
  ghost function Served(s: State, acts: seq<Action>, c: ConnId): nat
    decreases |acts|
  {
    if acts == [] || !WellFormed(s) || !Enabled(s, acts[0]) then 0
    else Finishes(s, acts[0], c) + Served(Apply(s, acts[0]), acts[1..], c)
  }

  /** Where c is: not served yet by the pool, rejected, or with a worker. */
  function Due(s: State, c: ConnId): nat {
    B(c >= |s.callers| || s.callers[c].Arrived? || s.callers[c].Sending?)
    + B(c < |s.callers| && s.callers[c].Rejected?) + ConnSum(s.workers, c)
  }
}
