/** What every step of the pipelined client keeps, and what follows for the life of a connection. */
module PipelineSafety {
  import opened Counting
  import opened Pipeline

  lemma PopFront(q: seq<Work>)
    requires q != []
    ensures multiset(q) == multiset{q[0]} + multiset(q[1..])
  {
    assert q == [q[0]] + q[1..];
  }

  predicate OfWriter(a: Action) {
    a.WTake? || a.WStop? || a.WExpire? || a.WWrite? || a.WPush? || a.WAbort?
  }

  lemma WTakeMoves(s: State, w: Work)
    requires Enabled(s, WTake)
    ensures var s' := Apply(s, WTake);
            Pending(s', w) == Pending(s, w) && s'.signals == s.signals
  {
    PopFront(s.chW);
  }

  lemma WPushMoves(s: State, w: Work)
    requires Enabled(s, WPush)
    ensures var s' := Apply(s, WPush);
            Pending(s', w) == Pending(s, w) && s'.signals == s.signals
  {
    assert multiset(s.chR + [s.writer.w])[w] == multiset(s.chR)[w] + B(s.writer.w == w);
  }

  lemma WriterMoves(s: State, a: Action, w: Work)
    requires Enabled(s, a) && (a.WStop? || a.WExpire? || a.WWrite? || a.WAbort?)
    ensures var s' := Apply(s, a);
            Pending(s', w) + s'.signals[w] == Pending(s, w) + s.signals[w]
  {
    assert Apply(s, a).chW == s.chW && Apply(s, a).chR == s.chR;
  }

  lemma ReadMoves(s: State, a: Action, w: Work)
    requires Enabled(s, a) && (a.RStop? || a.RRead?)
    ensures var s' := Apply(s, a);
            Pending(s', w) + s'.signals[w] == Pending(s, w) + s.signals[w]
  {
    assert Apply(s, a).chW == s.chW && Apply(s, a).chR == s.chR;
  }

  lemma RTakeMoves(s: State, w: Work)
    requires Enabled(s, RTake)
    ensures var s' := Apply(s, RTake);
            Pending(s', w) == Pending(s, w) && s'.signals == s.signals
  {
    PopFront(s.chR);
  }

  lemma SubmitMoves(s: State, v: Work, w: Work)
    requires Enabled(s, Submit(v))
    ensures Pending(Apply(s, Submit(v)), w) == Pending(s, w) + B(v == w)
  {
  }

  lemma EvictMoves(s: State, w: Work)
    requires Enabled(s, Evict)
    ensures var s' := Apply(s, Evict);
            Pending(s', w) + s'.signals[w] == Pending(s, w) + s.signals[w]
  {
    PopFront(s.chW);
  }

  lemma DrainMoves(s: State, w: Work)
    requires Enabled(s, Drain)
    ensures var s' := Apply(s, Drain);
            Pending(s', w) + s'.signals[w] == Pending(s, w) + s.signals[w]
  {
    PopFront(s.chR);
  }

  lemma WorkerMovesNothing(s: State, a: Action, w: Work)
    requires Enabled(s, a) && (a.SeeWriter? || a.SeeReader? || a.Join? || a.Return?)
    ensures var s' := Apply(s, a);
            Pending(s', w) == Pending(s, w) && s'.signals == s.signals
  {
  }

  lemma StepMoves(s: State, a: Action, w: Work)
    requires Enabled(s, a)
    ensures var s' := Apply(s, a);
            Pending(s', w) + s'.signals[w] == Pending(s, w) + s.signals[w] + B(a == Submit(w))
  {
    hide Pending;
    if a.WTake? {
      WTakeMoves(s, w);
    } else if a.WPush? {
      WPushMoves(s, w);
    } else if OfWriter(a) {
      WriterMoves(s, a, w);
    } else if a.RTake? {
      RTakeMoves(s, w);
    } else if a.RStop? || a.RRead? {
      ReadMoves(s, a, w);
    } else if a.Submit? {
      SubmitMoves(s, a.w, w);
    } else if a.Evict? {
      EvictMoves(s, w);
    } else if a.Drain? {
      DrainMoves(s, w);
    } else {
      WorkerMovesNothing(s, a, w);
    }
  }

  lemma {:induction false} StepConserves(s: State, a: Action)
    requires Conserved(s) && Enabled(s, a)
    ensures Conserved(Apply(s, a))
  {
    hide Pending;
    forall w ensures var s' := Apply(s, a);
                     Pending(s', w) + s'.signals[w] == multiset(s'.submitted)[w] {
      StepMoves(s, a, w);
    }
  }

  lemma WriterKeepsOrder(s: State, a: Action)
    requires InOrder(s) && Enabled(s, a) && OfWriter(a)
    ensures InOrder(Apply(s, a))
  {
    if a.WPush? {
      assert s.popped + (s.chR + [s.writer.w]) == (s.popped + s.chR) + [s.writer.w];
    }
  }

  lemma OthersKeepOrder(s: State, a: Action)
    requires InOrder(s) && Joined(s) && Enabled(s, a) && !OfWriter(a)
    ensures InOrder(Apply(s, a))
  {
    if a.RTake? || a.Drain? {
      assert s.popped + s.chR == (s.popped + [s.chR[0]]) + s.chR[1..];
    }
  }

  lemma StepKeepsJoined(s: State, a: Action)
    requires Joined(s) && Enabled(s, a)
    ensures Joined(Apply(s, a))
  {
  }

  lemma {:induction false} StepKeepsOrder(s: State, a: Action)
    requires InOrder(s) && Joined(s) && Enabled(s, a)
    ensures InOrder(Apply(s, a)) && Joined(Apply(s, a))
  {
    StepKeepsJoined(s, a);
    if OfWriter(a) {
      WriterKeepsOrder(s, a);
    } else {
      OthersKeepOrder(s, a);
    }
  }

  lemma {:induction false} RunKeepsInv(s: State, acts: seq<Action>, s': State)
    requires Inv(s) && IsRun(s, acts, s')
    ensures Inv(s')
    decreases |acts|
  {
    if acts != [] {
      StepConserves(s, acts[0]);
      StepKeepsOrder(s, acts[0]);
      RunKeepsInv(Apply(s, acts[0]), acts[1..], s');
    }
  }

  // ---------------------------------------------------------------------------
  // Main results
  // ---------------------------------------------------------------------------

  /** The i-th response read from the connection answers the i-th request written to it. */
  lemma ResponsesMatchRequests(capW: nat, capR: nat, acts: seq<Action>, s: State, i: nat)
    requires IsRun(Init(capW, capR), acts, s) && i < |s.answered|
    ensures i < |s.written| && s.answered[i] == s.written[i]
  {
    RunKeepsInv(Init(capW, capR), acts, s);
    assert s.answered[i] == s.popped[i] == s.pushed[i] == s.written[i];
  }

  /** No work item is ever signalled twice, nor while it is still somewhere in the pipeline. */
  lemma SignalledAtMostOnce(capW: nat, capR: nat, acts: seq<Action>, s: State, w: Work)
    requires IsRun(Init(capW, capR), acts, s)
    ensures s.signals[w] + Pending(s, w) == if w in s.submitted then 1 else 0
  {
    RunKeepsInv(Init(capW, capR), acts, s);
    DistinctCount(s.submitted, w);
  }

  /** When worker returns, exactly the items still in chW are unsignalled: every item the writer
      took, and every evicted one, has received one done signal, whatever path it took. */
  lemma AllSignalledOnReturn(capW: nat, capR: nat, acts: seq<Action>, s: State, w: Work)
    requires IsRun(Init(capW, capR), acts, s) && s.worker.Returned?
    ensures s.signals[w] == (if w in s.submitted && w !in s.chW then 1 else 0)
  {
    RunKeepsInv(Init(capW, capR), acts, s);
    DistinctCount(s.submitted, w);
    assert Pending(s, w) == multiset(s.chW)[w];
  }

  lemma {:induction false} DistinctCount(ws: seq<Work>, w: Work)
    requires Distinct(ws)
    ensures multiset(ws)[w] == if w in ws then 1 else 0
  {
    if ws != [] {
      PopFront(ws);
      assert Distinct(ws[1..]);
      DistinctCount(ws[1..], w);
      assert w in ws <==> w == ws[0] || w in ws[1..];
    }
  }
}
