/** The order in which work leaves chW: the oldest item is taken or evicted, and requests are
    written in the order in which they were submitted. */
module PipelineOrder {
  import opened Counting
  import opened Pipeline
  import opened PipelineSafety

  /** xs in the order of ys, possibly with gaps. */
  predicate Within(xs: seq<Work>, ys: seq<Work>) {
    xs == [] ||
    (ys != [] &&
     var x, y := |xs| - 1, |ys| - 1;
     (xs[x] == ys[y] && Within(xs[..x], ys[..y])) || Within(xs, ys[..y]))
  }

  lemma WithinGrows(xs: seq<Work>, ys: seq<Work>, y: Work)
    requires Within(xs, ys)
    ensures Within(xs, ys + [y]) && Within(xs + [y], ys + [y])
  {
    assert (ys + [y])[..|ys|] == ys && (xs + [y])[..|xs|] == xs;
  }

  lemma {:induction false} WithinDrop(xs: seq<Work>, x: Work, ys: seq<Work>)
    requires Within(xs + [x], ys)
    ensures Within(xs, ys)
    decreases |ys|
  {
    var y := |ys| - 1;
    assert (xs + [x])[..|xs|] == xs;
    assert ys == ys[..y] + [ys[y]];
    if Within(xs, ys[..y]) {
      WithinGrows(xs, ys[..y], ys[y]);
    } else {
      WithinDrop(xs, x, ys[..y]);
    }
  }

  lemma {:induction false} WithinPlaces(xs: seq<Work>, ys: seq<Work>, i: nat, j: nat) returns (k: nat, l: nat)
    requires Within(xs, ys) && i < j < |xs|
    ensures k < l < |ys| && ys[k] == xs[i] && ys[l] == xs[j]
    decreases |ys|
  {
    var x, y := |xs| - 1, |ys| - 1;
    if Within(xs, ys[..y]) {
      k, l := WithinPlaces(xs, ys[..y], i, j);
    } else if j < x {
      k, l := WithinPlaces(xs[..x], ys[..y], i, j);
    } else {
      l := y;
      k := WithinPlace(xs[..x], ys[..y], i);
    }
  }

  lemma {:induction false} WithinPlace(xs: seq<Work>, ys: seq<Work>, i: nat) returns (k: nat)
    requires Within(xs, ys) && i < |xs|
    ensures k < |ys| && ys[k] == xs[i]
    decreases |ys|
  {
    var x, y := |xs| - 1, |ys| - 1;
    if Within(xs, ys[..y]) {
      k := WithinPlace(xs, ys[..y], i);
    } else if i < x {
      k := WithinPlace(xs[..x], ys[..y], i);
    } else {
      k := y;
    }
  }

  // ---------------------------------------------------------------------------
  // The invariant
  // ---------------------------------------------------------------------------

  /** What has been written, and what the writer is about to write. */
  function Begun(s: State): seq<Work> {
    if s.writer.WHas? then s.written + [s.writer.w] else s.written
  }

  ghost predicate InQueue(submitted: seq<Work>, chW: seq<Work>, begun: seq<Work>) {
    && |chW| <= |submitted|
    && chW == submitted[|submitted| - |chW|..]
    && Within(begun, submitted[..|submitted| - |chW|])
  }

  ghost predicate Fifo(s: State) {
    InQueue(s.submitted, s.chW, Begun(s))
  }

  /** The front of chW leaves the queue, into the hands of the writer or not. */
  lemma FrontLeaves(submitted: seq<Work>, chW: seq<Work>, begun: seq<Work>)
    requires InQueue(submitted, chW, begun) && chW != []
    ensures var n := |submitted| - |chW|;
            chW[0] == submitted[n] && chW[1..] == submitted[n + 1..]
    ensures InQueue(submitted, chW[1..], begun) && InQueue(submitted, chW[1..], begun + [chW[0]])
  {
    hide Within;
    var n := |submitted| - |chW|;
    WithinGrows(begun, submitted[..n], submitted[n]);
    assert submitted[..n + 1] == submitted[..n] + [submitted[n]];
  }

  lemma BegunByFront(s: State, a: Action)
    requires Enabled(s, a) && (a.Evict? || a.WTake?)
    ensures var s' := Apply(s, a);
            && s'.submitted == s.submitted && s.chW != [] && s'.chW == s.chW[1..]
            && Begun(s') == if a.WTake? then Begun(s) + [s.chW[0]] else Begun(s)
  {
  }

  lemma FrontKeepsFifo(s: State, a: Action)
    requires Fifo(s) && Enabled(s, a) && (a.Evict? || a.WTake?)
    ensures Fifo(Apply(s, a))
  {
    hide Apply, Enabled, InQueue, Begun;
    BegunByFront(s, a);
    FrontLeaves(s.submitted, s.chW, Begun(s));
  }

  lemma SubmitKeepsFifo(s: State, w: Work)
    requires Fifo(s) && Enabled(s, Submit(w))
    ensures Fifo(Apply(s, Submit(w)))
  {
    hide Within;
    var n := |s.submitted| - |s.chW|;
    assert (s.submitted + [w])[..n] == s.submitted[..n];
    assert (s.submitted + [w])[n..] == s.submitted[n..] + [w];
  }

  lemma BegunByOthers(s: State, a: Action)
    requires Enabled(s, a) && !a.Evict? && !a.WTake? && !a.Submit?
    ensures var s' := Apply(s, a);
            && s'.chW == s.chW && s'.submitted == s.submitted
            && (Begun(s') == Begun(s) || (s.writer.WHas? && Begun(s') == s.written))
  {
  }

  lemma StepKeepsFifo(s: State, a: Action)
    requires Fifo(s) && Enabled(s, a)
    ensures Fifo(Apply(s, a))
  {
    hide Apply, Enabled, Within;
    if a.Evict? || a.WTake? {
      FrontKeepsFifo(s, a);
    } else if a.Submit? {
      SubmitKeepsFifo(s, a.w);
    } else {
      BegunByOthers(s, a);
      if s.writer.WHas? {
        WithinDrop(s.written, s.writer.w, s.submitted[..|s.submitted| - |s.chW|]);
      }
    }
  }

  lemma {:induction false} RunKeepsFifo(s: State, acts: seq<Action>, s': State)
    requires Fifo(s) && IsRun(s, acts, s')
    ensures Fifo(s')
    decreases |acts|
  {
    if acts != [] {
      StepKeepsFifo(s, acts[0]);
      RunKeepsFifo(Apply(s, acts[0]), acts[1..], s');
    }
  }

  lemma FifoFromStart(capW: nat, capR: nat, acts: seq<Action>, s: State)
    requires IsRun(Init(capW, capR), acts, s)
    ensures Fifo(s)
  {
    RunKeepsFifo(Init(capW, capR), acts, s);
  }

  // ---------------------------------------------------------------------------
  // Main results
  // ---------------------------------------------------------------------------

  /** What leaves chW, to the writer or by an eviction, is the oldest item there: everything submitted
      after it, and nothing else, is still in chW. An evicted item is signalled. */
  lemma OldestLeaves(capW: nat, capR: nat, acts: seq<Action>, s: State, a: Action) returns (n: nat)
    requires IsRun(Init(capW, capR), acts, s) && Enabled(s, a) && (a.Evict? || a.WTake?)
    ensures n < |s.submitted|
    ensures var s' := Apply(s, a);
            && s.chW == s.submitted[n..] && s'.chW == s.submitted[n + 1..]
            && (a.WTake? ==> s'.writer == WHas(s.submitted[n]) && s'.signals == s.signals)
            && (a.Evict? ==> s'.writer == s.writer && s'.signals == s.signals + multiset{s.submitted[n]})
  {
    hide Within, IsRun, Init;
    FifoFromStart(capW, capR, acts, s);
    n := |s.submitted| - |s.chW|;
    FrontLeaves(s.submitted, s.chW, Begun(s));
  }

  /** Requests are written in the order of their submission, and so answered in it. */
  lemma WrittenInOrder(capW: nat, capR: nat, acts: seq<Action>, s: State, i: nat, j: nat)
    requires IsRun(Init(capW, capR), acts, s) && i < j < |s.written|
    ensures exists k, l ::
              0 <= k < l < |s.submitted| && s.submitted[k] == s.written[i] && s.submitted[l] == s.written[j]
    ensures j < |s.answered| ==> s.answered[i] == s.written[i] && s.answered[j] == s.written[j]
  {
    FifoFromStart(capW, capR, acts, s);
    hide Within, IsRun;
    assert Begun(s)[i] == s.written[i] && Begun(s)[j] == s.written[j];
    var k, l := WithinPlaces(Begun(s), s.submitted[..|s.submitted| - |s.chW|], i, j);
    assert s.submitted[k] == s.written[i] && s.submitted[l] == s.written[j];
    if j < |s.answered| {
      ResponsesMatchRequests(capW, capR, acts, s, i);
      ResponsesMatchRequests(capW, capR, acts, s, j);
    }
  }
}
