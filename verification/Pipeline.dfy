/** The life of one pipelined connection (client.go, pipelineConnClient.worker): a writer and a
    reader goroutine joined by two bounded channels, the worker that stops and drains them,
    and callers that submit work or evict the oldest one. One action is one channel
    operation or one write, read or timer outcome. */
module Pipeline {
  import opened Counting

  type Work = nat

  datatype WriterPhase = WIdle | WHas(w: Work) | WWrote(w: Work) | WExited | WJoined
  datatype ReaderPhase = RIdle | RHas(w: Work) | RExited | RJoined
  datatype WorkerPhase = Running | JoinReader | JoinWriter | Draining | Returned

  /** The last six fields are history: everything put into chW, written to the connection,
      put into chR, taken out of chR and answered by a response read from the connection,
      each in order, and the done signals sent so far. */
  datatype State = State(
    capW: nat, capR: nat,
    chW: seq<Work>, chR: seq<Work>,
    writer: WriterPhase, reader: ReaderPhase, worker: WorkerPhase,
    stopW: bool, stopR: bool,
    submitted: seq<Work>, written: seq<Work>, pushed: seq<Work>, popped: seq<Work>, answered: seq<Work>,
    signals: multiset<Work>)

  function Init(capW: nat, capR: nat): State {
    State(capW, capR, [], [], WIdle, RIdle, Running, false, false, [], [], [], [], [], multiset{})
  }

  datatype Action =
    | Submit(w: Work)      // Do or DoDeadline puts a work item into chW
    | Evict                // Do replaces the oldest item of a full chW
    | WTake                // w = <-chW
    | WStop                // idle timer, stopCh or a failed flush while waiting for work
    | WExpire              // the deadline has passed
    | WWrite(ok: bool)     // SetWriteDeadline and req.Write
    | WPush                // chR <- w
    | WAbort               // stopCh or a failed flush while chR is full
    | RTake                // w = <-chR
    | RStop                // stopCh
    | RRead(ok: bool)      // SetReadDeadline and resp.Read
    | SeeWriter            // the worker receives from doneW first
    | SeeReader            // the worker receives from doneR first
    | Join                 // the worker receives from the other done channel
    | Drain                // one pending reader is told that the connection has stopped
    | Return

  predicate Enabled(s: State, a: Action) {
    match a
    case Submit(w) => w !in s.submitted && |s.chW| < s.capW
    case Evict => s.chW != []
    case WTake => s.writer.WIdle? && s.chW != []
    case WStop => s.writer.WIdle?
    case WExpire => s.writer.WHas?
    case WWrite(_) => s.writer.WHas?
    case WPush => s.writer.WWrote? && |s.chR| < s.capR
    case WAbort => s.writer.WWrote?
    case RTake => s.reader.RIdle? && s.chR != []
    case RStop => s.reader.RIdle? && s.stopR
    case RRead(_) => s.reader.RHas?
    case SeeWriter => s.worker.Running? && s.writer.WExited?
    case SeeReader => s.worker.Running? && s.reader.RExited?
    case Join => if s.worker.JoinReader? then s.reader.RExited? else s.worker.JoinWriter? && s.writer.WExited?
    case Drain => s.worker.Draining? && s.chR != []
    case Return => s.worker.Draining? && s.chR == []
  }

  function Signal(s: State, w: Work): State {
    s.(signals := s.signals + multiset{w})
  }

  function Apply(s: State, a: Action): State
    requires Enabled(s, a)
  {
    match a
    case Submit(w) => s.(chW := s.chW + [w], submitted := s.submitted + [w])
    case Evict => Signal(s, s.chW[0]).(chW := s.chW[1..])
    case WTake => s.(writer := WHas(s.chW[0]), chW := s.chW[1..])
    case WStop => s.(writer := WExited)
    case WExpire => Signal(s, s.writer.w).(writer := WIdle)
    case WWrite(ok) =>
      if ok then s.(writer := WWrote(s.writer.w), written := s.written + [s.writer.w])
      else Signal(s, s.writer.w).(writer := WExited)
    case WPush => s.(writer := WIdle, chR := s.chR + [s.writer.w], pushed := s.pushed + [s.writer.w])
    case WAbort => Signal(s, s.writer.w).(writer := WExited)
    case RTake => s.(reader := RHas(s.chR[0]), chR := s.chR[1..], popped := s.popped + [s.chR[0]])
    case RStop => s.(reader := RExited)
    case RRead(ok) =>
      if ok then Signal(s, s.reader.w).(reader := RIdle, answered := s.answered + [s.reader.w])
      else Signal(s, s.reader.w).(reader := RExited)
    case SeeWriter => s.(worker := JoinReader, writer := WJoined, stopR := true)
    case SeeReader => s.(worker := JoinWriter, reader := RJoined, stopW := true)
    case Join =>
      if s.worker.JoinReader? then s.(worker := Draining, reader := RJoined)
      else s.(worker := Draining, writer := WJoined)
    case Drain => Signal(s, s.chR[0]).(chR := s.chR[1..], popped := s.popped + [s.chR[0]])
    case Return => s.(worker := Returned)
  }

  ghost predicate IsRun(s: State, acts: seq<Action>, s': State)
    decreases |acts|
  {
    if acts == [] then s' == s
    else Enabled(s, acts[0]) && IsRun(Apply(s, acts[0]), acts[1..], s')
  }

  // ---------------------------------------------------------------------------
  // The invariant
  // ---------------------------------------------------------------------------

  /** In how many places the work item w is pending: a channel or the hands of a goroutine. */
  function Pending(s: State, w: Work): nat {
    multiset(s.chW)[w] + B(s.writer == WHas(w) || s.writer == WWrote(w))
    + multiset(s.chR)[w] + B(s.reader == RHas(w))
  }

  ghost predicate Distinct(ws: seq<Work>) {
    forall i, j | 0 <= i < j < |ws| :: ws[i] != ws[j]
  }

  /** Every submitted item is pending in one place or signalled once, never both. */
  ghost predicate Conserved(s: State) {
    && Distinct(s.submitted)
    && (forall w :: Pending(s, w) + s.signals[w] == multiset(s.submitted)[w])
  }

  /** The four histories are prefixes of one another, and exactly how far apart they are. */
  ghost predicate InOrder(s: State) {
    && s.pushed <= s.written && s.answered <= s.popped
    && s.pushed == s.popped + s.chR
    && (s.writer.WIdle? || s.writer.WHas? ==> s.written == s.pushed)
    && (s.writer.WWrote? ==> s.written == s.pushed + [s.writer.w])
    && (s.reader.RIdle? ==> s.popped == s.answered)
    && (s.reader.RHas? ==> s.popped == s.answered + [s.reader.w])
  }

  ghost predicate Joined(s: State) {
    && (s.worker.JoinReader? ==> s.writer.WJoined?)
    && (s.worker.JoinWriter? ==> s.reader.RJoined?)
    && (s.worker.Draining? || s.worker.Returned? ==> s.writer.WJoined? && s.reader.RJoined?)
    && (s.worker.Returned? ==> s.chR == [])
    && |s.chR| <= s.capR
  }

  ghost predicate Inv(s: State) {
    Conserved(s) && InOrder(s) && Joined(s)
  }
}
