/** The loop bodies of the pipelined client on its own fields (client.go): each method is one
    stretch of code that a goroutine runs, and makes a run of the machine in Pipeline. */
module PipelineConns {
  import opened Counting
  import opened Pipeline
  import opened PipelineSafety

  /** The eviction in Do. */
  function Evicted(s: State): State {
    if s.chW == [] then s else Apply(s, Evict)
  }

  lemma EvictedLength(s: State)
    ensures |Evicted(s).chW| == if s.chW == [] then 0 else |s.chW| - 1
    ensures Evicted(s).submitted == s.submitted
  {
  }

  function Submits(acts: seq<Action>): nat {
    if acts == [] then 0 else B(acts[0].Submit?) + Submits(acts[1..])
  }

  /** How many items leave chW. */
  function Leaves(acts: seq<Action>): nat {
    if acts == [] then 0 else B(acts[0].WTake? || acts[0].Evict?) + Leaves(acts[1..])
  }

  lemma StepKeepsCapacities(s: State, a: Action)
    requires Enabled(s, a)
    ensures Apply(s, a).capW == s.capW && Apply(s, a).capR == s.capR
    ensures |Apply(s, a).chW| == |s.chW| + B(a.Submit?) - B(a.WTake? || a.Evict?)
  {
  }

  lemma {:induction false} RunKeepsCapacities(s: State, acts: seq<Action>, s': State)
    requires IsRun(s, acts, s')
    ensures s'.capW == s.capW && s'.capR == s.capR
    decreases |acts|
  {
    hide Apply, Enabled;
    if acts != [] {
      StepKeepsCapacities(s, acts[0]);
      RunKeepsCapacities(Apply(s, acts[0]), acts[1..], s');
    }
  }

  lemma {:induction false} QueueLength(s: State, acts: seq<Action>, s': State)
    requires IsRun(s, acts, s')
    ensures |s'.chW| == |s.chW| + Submits(acts) - Leaves(acts)
    decreases |acts|
  {
    hide Apply, Enabled;
    if acts != [] {
      StepKeepsCapacities(s, acts[0]);
      QueueLength(Apply(s, acts[0]), acts[1..], s');
    }
  }

  class PipelineConn {
    const capW: nat
    const capR: nat
    var chW: seq<Work>
    var chR: seq<Work>
    var writer: WriterPhase
    var reader: ReaderPhase
    var worker: WorkerPhase
    var stopW: bool
    var stopR: bool
    var signals: multiset<Work>
    ghost var submitted: seq<Work>
    ghost var written: seq<Work>
    ghost var pushed: seq<Work>
    ghost var popped: seq<Work>
    ghost var answered: seq<Work>

    ghost function View(): State
      reads this
    {
      State(capW, capR, chW, chR, writer, reader, worker, stopW, stopR,
            submitted, written, pushed, popped, answered, signals)
    }

    constructor (maxPendingRequests: nat)
      ensures View() == Init(maxPendingRequests, maxPendingRequests)
    {
      capW, capR := maxPendingRequests, maxPendingRequests;
      chW, chR, writer, reader, worker := [], [], WIdle, RIdle, Running;
      stopW, stopR, signals := false, false, multiset{};
      submitted, written, pushed, popped, answered := [], [], [], [], [];
    }

    /** A send on chW that does not wait. */
    method TrySend(w: Work) returns (ok: bool)
      requires w !in submitted
      modifies this`chW, this`submitted
      ensures ok <==> |old(chW)| < capW
      ensures ok ==> Enabled(old(View()), Submit(w)) && View() == Apply(old(View()), Submit(w))
      ensures !ok ==> View() == old(View())
    {
      if |chW| >= capW {
        return false;
      }
      chW, submitted := chW + [w], submitted + [w];
      return true;
    }

    /** Takes the oldest item, if any, and signals it with an overflow. */
    method EvictOldest()
      modifies this`chW, this`signals
      ensures View() == Evicted(old(View()))
      ensures old(chW) != [] ==> chW == old(chW)[1..] && signals == old(signals) + multiset{old(chW)[0]}
    {
      if |chW| > 0 {
        signals := signals + multiset{chW[0]};
        chW := chW[1..];
      }
    }

    method SetChannels(s': State)
      modifies this`chW, this`chR, this`stopW, this`stopR, this`signals
      ensures chW == s'.chW && chR == s'.chR && stopW == s'.stopW && stopR == s'.stopR && signals == s'.signals
    {
      chW, chR := s'.chW, s'.chR;
      stopW, stopR, signals := s'.stopW, s'.stopR, s'.signals;
    }

    method SetPhases(s': State)
      modifies this`writer, this`reader, this`worker
      ensures writer == s'.writer && reader == s'.reader && worker == s'.worker
    {
      writer, reader, worker := s'.writer, s'.reader, s'.worker;
    }

    ghost method SetHistory(s': State)
      modifies this`submitted, this`written, this`pushed, this`popped, this`answered
      ensures submitted == s'.submitted && written == s'.written && pushed == s'.pushed
      ensures popped == s'.popped && answered == s'.answered
    {
      submitted, written, pushed := s'.submitted, s'.written, s'.pushed;
      popped, answered := s'.popped, s'.answered;
    }

    /** What other goroutines do between two channel operations of this one. */
    method Others(s': State, ghost acts: seq<Action>)
      requires IsRun(View(), acts, s')
      modifies this
      ensures View() == s'
    {
      RunKeepsCapacities(View(), acts, s');
      hide IsRun;
      SetChannels(s');
      SetPhases(s');
      SetHistory(s');
    }

    /** The queueing part of Do, with anything the other goroutines may do between its three channel
        operations: they leave mid1 before the eviction and mid2 before the second send. False is
        ErrPipelineOverflow: exactly when the others have filled the room the eviction made, or when
        there is no capacity at all. */
    method Put(w: Work, mid1: State, mid2: State, ghost acts1: seq<Action>, ghost acts2: seq<Action>)
      returns (ok: bool)
      requires w !in submitted && w !in mid1.submitted && w !in mid2.submitted
      requires |chW| >= capW ==> IsRun(View(), acts1, mid1) && IsRun(Evicted(mid1), acts2, mid2)
      modifies this
      ensures |old(chW)| < capW ==> ok && View() == Apply(old(View()), Submit(w))
      ensures |old(chW)| >= capW ==>
                && (ok <==> |Evicted(mid1).chW| + Submits(acts2) - Leaves(acts2) < capW)
                && (ok ==> Enabled(mid2, Submit(w)) && View() == Apply(mid2, Submit(w)))
                && (!ok ==> View() == mid2)
      ensures |old(chW)| == capW && acts1 == acts2 == [] ==> (ok <==> capW > 0)
    {
      hide Apply, Enabled, Evicted;
      ok := TrySend(w);
      if ok {
        return;
      }
      EvictedLength(mid1);
      Others(mid1, acts1);
      EvictOldest();
      Others(mid2, acts2);
      QueueLength(Evicted(mid1), acts2, mid2);
      ok := TrySend(w);
    }

    /** One step of a goroutine on its own. */
    method Expire()
      requires writer.WHas?
      modifies this`signals, this`writer
      ensures View() == Apply(old(View()), WExpire)
    {
      signals, writer := signals + multiset{writer.w}, WIdle;
    }

    method Write(ok: bool)
      requires writer.WHas?
      modifies this`signals, this`writer, this`written
      ensures View() == Apply(old(View()), WWrite(ok))
      ensures if ok then writer == WWrote(old(writer).w) else writer == WExited
    {
      if ok {
        written, writer := written + [writer.w], WWrote(writer.w);
      } else {
        signals, writer := signals + multiset{writer.w}, WExited;
      }
    }

    method Push()
      requires writer.WWrote? && |chR| < capR
      modifies this`chR, this`pushed, this`writer
      ensures View() == Apply(old(View()), WPush)
    {
      chR, pushed, writer := chR + [writer.w], pushed + [writer.w], WIdle;
    }

    method Abort()
      requires writer.WWrote?
      modifies this`signals, this`writer
      ensures View() == Apply(old(View()), WAbort)
    {
      signals, writer := signals + multiset{writer.w}, WExited;
    }

    /** The writer's loop body for an item it holds. expired, ok and keepWaiting are what the
        clock, the connection and the stop channel answer. It ends blocked in WWrote when
        chR is full and nothing tells it to stop. */
    method WriteItem(expired: bool, ok: bool, keepWaiting: bool) returns (ghost acts: seq<Action>)
      requires writer.WHas?
      modifies this
      ensures IsRun(old(View()), acts, View())
      ensures acts == if expired then [WExpire]
                      else if !ok then [WWrite(false)]
                      else if |old(chR)| < capR then [WWrite(true), WPush]
                      else if keepWaiting then [WWrite(true)]
                      else [WWrite(true), WAbort]
    {
      hide Apply, IsRun;
      ghost var before := View();
      if expired {
        Expire();
        RunOfOne(before, WExpire);
        return [WExpire];
      }
      Write(ok);
      RunOfOne(before, WWrite(ok));
      if !ok {
        return [WWrite(false)];
      }
      ghost var mid := View();
      if |chR| < capR {
        Push();
        RunOfTwo(before, WWrite(true), mid, WPush);
        return [WWrite(true), WPush];
      }
      if !keepWaiting {
        Abort();
        RunOfTwo(before, WWrite(true), mid, WAbort);
        return [WWrite(true), WAbort];
      }
      return [WWrite(true)];
    }

    method TakeNext()
      requires reader.RIdle? && chR != []
      modifies this`chR, this`popped, this`reader
      ensures View() == Apply(old(View()), RTake) && reader == RHas(old(chR)[0])
    {
      chR, popped, reader := chR[1..], popped + [chR[0]], RHas(chR[0]);
    }

    method Read(ok: bool)
      requires reader.RHas?
      modifies this`signals, this`reader, this`answered
      ensures View() == Apply(old(View()), RRead(ok))
    {
      var w := reader.w;
      signals := signals + multiset{w};
      if ok {
        answered, reader := answered + [w], RIdle;
      } else {
        reader := RExited;
      }
    }

    /** The reader's loop body once there is an item; ok is what the connection answers. */
    method ReadItem(ok: bool)
      requires reader.RIdle? && chR != []
      modifies this
      ensures IsRun(old(View()), [RTake, RRead(ok)], View())
    {
      hide Apply, IsRun;
      ghost var before := View();
      TakeNext();
      ghost var mid := View();
      Read(ok);
      RunOfTwo(before, RTake, mid, RRead(ok));
    }

    method DrainOne()
      requires worker.Draining? && chR != []
      modifies this
      ensures View() == Apply(old(View()), Drain)
    {
      var w := chR[0];
      chR, popped := chR[1..], popped + [w];
      signals := signals + multiset{w};
    }

    /** The end of worker: every pending reader is told that the connection has stopped. */
    method DrainReaders() returns (ghost acts: seq<Action>)
      requires worker.Draining?
      modifies this
      ensures IsRun(old(View()), acts, View())
      ensures worker.Returned? && chR == [] && chW == old(chW)
      ensures signals == old(signals) + multiset(old(chR))
    {
      acts := [];
      while |chR| > 0
        invariant worker.Draining? && chW == old(chW)
        invariant signals + multiset(chR) == old(signals) + multiset(old(chR))
        invariant IsRun(old(View()), acts, View())
      {
        hide IsRun;
        PopFront(chR);
        RunThen(old(View()), acts, View(), Drain);
        DrainOne();
        acts := acts + [Drain];
      }
      RunThen(old(View()), acts, View(), Return);
      worker := Returned;
      acts := acts + [Return];
    }
  }

  lemma RunOfOne(s: State, a: Action)
    requires Enabled(s, a)
    ensures IsRun(s, [a], Apply(s, a))
  {
    assert [a][1..] == [];
    assert IsRun(Apply(s, a), [], Apply(s, a));
  }

  lemma RunOfTwo(s: State, a: Action, mid: State, b: Action)
    requires Enabled(s, a) && mid == Apply(s, a) && Enabled(mid, b)
    ensures IsRun(s, [a, b], Apply(mid, b))
  {
    hide Apply;
    RunOfOne(mid, b);
    assert [a, b][1..] == [b];
  }

  lemma {:induction false} RunThen(s: State, acts: seq<Action>, mid: State, a: Action)
    requires IsRun(s, acts, mid) && Enabled(mid, a)
    ensures IsRun(s, acts + [a], Apply(mid, a))
    decreases |acts|
  {
    if acts == [] {
      assert (acts + [a])[1..] == [];
    } else {
      RunThen(Apply(s, acts[0]), acts[1..], mid, a);
      assert (acts + [a])[1..] == acts[1..] + [a];
    }
  }
}
