/** The methods of workerPool on its own fields (workerpool.go), each proved to be the step of the
    machine in Workers. */
module WorkerPools {
  import opened Options
  import opened Workers
  import opened WorkerPoolSafety

  /** The binary search of clean: the last expired channel, -1 when there is none. */
  method LastExpired(ready: seq<Ready>, clock: int, criticalTime: int) returns (i: int)
    requires Sorted(ready, clock)
    ensures -1 <= i < |ready|
    ensures forall k | 0 <= k < |ready| :: k <= i <==> ready[k].lastUseTime < criticalTime
    ensures i == ExpiredPrefix(ready, criticalTime) - 1
  {
    var l, r := 0, |ready| - 1;
    while l <= r
      invariant 0 <= l <= r + 1 <= |ready|
      invariant forall k | 0 <= k < l :: ready[k].lastUseTime < criticalTime
      invariant forall k | r < k < |ready| :: ready[k].lastUseTime >= criticalTime
    {
      var mid := (l + r) / 2;
      if criticalTime > ready[mid].lastUseTime {
        l := mid + 1;
      } else {
        r := mid - 1;
      }
    }
    i := r;
    PrefixEnd(ready, clock, criticalTime, i + 1);
  }

  lemma PrefixEnd(ready: seq<Ready>, clock: int, criticalTime: int, n: nat)
    requires Sorted(ready, clock) && n <= |ready|
    requires forall k | 0 <= k < |ready| :: k < n <==> ready[k].lastUseTime < criticalTime
    ensures ExpiredPrefix(ready, criticalTime) == n
  {
    var m := ExpiredPrefix(ready, criticalTime);
    if n < m {
      ExpiredExactly(ready, clock, criticalTime, n);
    } else if m < n {
      ExpiredExactly(ready, clock, criticalTime, m);
    }
  }

  lemma CleanTakes(s: State, maxIdle: nat, n: nat)
    requires WellFormed(s) && Enabled(s, Action.Clean(maxIdle)) && n == ExpiredPrefix(s.ready, s.clock - maxIdle)
    ensures s.scratch == [] && Apply(s, Action.Clean(maxIdle)) == s.(scratch := s.ready[..n], ready := s.ready[n..])
  {
  }

  lemma CutReady(ready: seq<Ready>, n: nat, criticalTime: int)
    requires n <= |ready|
    requires forall k | 0 <= k < |ready| :: k < n <==> ready[k].lastUseTime < criticalTime
    ensures ready == ready[..n] + ready[n..]
    ensures forall k | 0 <= k < n :: ready[..n][k].lastUseTime < criticalTime
    ensures forall k | 0 <= k < |ready| - n :: ready[n..][k].lastUseTime >= criticalTime
  {
  }

  ghost function NotifyAll(s: State): State
    requires WellFormed(s)
    decreases |s.scratch|
  {
    if s.scratch == [] then s else NotifyAll(Apply(s, Notify))
  }

  /** Telling all the obsolete workers, uninterrupted, is a run. */
  lemma {:induction false} NotifyAllIsRun(s: State)
    requires WellFormed(s)
    ensures IsRun(s, seq(|s.scratch|, _ => Notify), NotifyAll(s))
    decreases |s.scratch|
  {
    var acts := seq(|s.scratch|, _ => Notify);
    if s.scratch != [] {
      NotifyAllIsRun(Apply(s, Notify));
      assert acts[1..] == seq(|s.scratch| - 1, _ => Notify);
    }
  }

  class WorkerPool {
    const maxWorkersCount: nat
    var workersCount: int
    var mustStop: bool
    var ready: seq<Ready>
    var workers: seq<Worker>
    var scratch: seq<Ready>

    /** The fields are those of a state of the machine. */
    ghost predicate Shows(s: State)
      reads this
    {
      && maxWorkersCount == s.maxWorkers && workersCount == s.workersCount && mustStop == s.mustStop
      && ready == s.ready && workers == s.workers && scratch == s.scratch
    }

    constructor (maxWorkersCount: nat)
      ensures Shows(Init(maxWorkersCount))
    {
      this.maxWorkersCount := maxWorkersCount;
      workersCount, mustStop, ready, workers, scratch := 0, false, [], [], [];
    }

    /** None when the pool is full and nobody is ready. */
    method GetCh(ghost s: State, ghost i: ConnId) returns (ch: Option<WorkerId>)
      requires Shows(s) && WellFormed(s) && Enabled(s, Action.GetCh(i))
      modifies this
      ensures Shows(Apply(s, Action.GetCh(i)))
      ensures Apply(s, Action.GetCh(i)).callers[i] == if ch.Some? then Sending(ch.value) else Rejected
      ensures ch.None? <==> old(ready) == [] && old(workersCount) >= maxWorkersCount
      ensures old(ready) != [] ==> old(ready) == ready + [old(ready)[|ready|]] && ch == Some(old(ready)[|ready|].w)
      ensures workersCount == old(workersCount) + if ch.Some? && old(ready) == [] then 1 else 0
    {
      var createWorker := false;
      var n := |ready| - 1;
      ch := None;
      if n < 0 {
        if workersCount < maxWorkersCount {
          createWorker := true;
          workersCount := workersCount + 1;
        }
      } else {
        ch := Some(ready[n].w);
        ready := ready[..n];
      }
      if ch == None {
        if !createWorker {
          return;
        }
        ch := Some(|workers|);
        workers := workers + [Worker(Idle, [])];
      }
    }

    /** Serve, once it has a channel. */
    method Serve(ghost s: State, c: ConnId, w: WorkerId)
      requires Shows(s) && WellFormed(s) && Enabled(s, Action.Send(c)) && s.callers[c] == Sending(w)
      modifies this`workers
      ensures Shows(Apply(s, Action.Send(c)))
    {
      workers := workers[w := workers[w].(inbox := workers[w].inbox + [Message.Serve(c)])];
    }

    /** False when the pool is stopping and the worker must exit. */
    method Release(ghost s: State, w: WorkerId, now: int) returns (ok: bool)
      requires Shows(s) && WellFormed(s) && Enabled(s, Action.Release(w)) && now == s.clock
      modifies this`ready, this`workers
      ensures Shows(Apply(s, Action.Release(w))) && ok == !old(mustStop)
      ensures ready == old(ready) + (if ok then [Ready(w, now)] else [])
      ensures workers == old(workers)[w := old(workers)[w].(phase := if ok then Idle else Exiting)]
    {
      if mustStop {
        workers := workers[w := workers[w].(phase := Exiting)];
        return false;
      }
      workers := workers[w := workers[w].(phase := Idle)];
      ready := ready + [Ready(w, now)];
      return true;
    }

    /** The locked section of clean. */
    method Clean(ghost s: State, maxIdle: nat, now: int)
      requires Shows(s) && Inv(s) && Enabled(s, Action.Clean(maxIdle)) && now == s.clock
      modifies this`ready, this`scratch
      ensures Shows(Apply(s, Action.Clean(maxIdle)))
      ensures old(ready) == scratch + ready
      ensures forall i | 0 <= i < |scratch| :: now - scratch[i].lastUseTime > maxIdle
      ensures forall i | 0 <= i < |ready| :: now - ready[i].lastUseTime <= maxIdle
    {
      assert Sorted(ready, now);
      hide Inv, Apply, Enabled, ExpiredPrefix;
      var i := LastExpired(ready, now, now - maxIdle);
      CleanTakes(s, maxIdle, i + 1);
      if i == -1 {
        assert ready == scratch + ready;
        return;
      }
      CutReady(ready, i + 1, now - maxIdle);
      scratch := ready[..i + 1];
      ready := ready[i + 1..];
    }

    /** The part of clean after the unlock. */
    method NotifyObsolete(ghost s: State)
      requires Shows(s) && WellFormed(s)
      modifies this`workers, this`scratch
      ensures Shows(NotifyAll(s))
    {
      ghost var t := s;
      while scratch != []
        invariant WellFormed(t) && Shows(t) && NotifyAll(t) == NotifyAll(s)
        decreases |scratch|
        modifies this`workers, this`scratch
      {
        t := Apply(t, Notify);
        workers := Put(workers, scratch[0].w, Quit);
        scratch := scratch[1..];
      }
    }

    /** Under the lock every waiting worker is told to quit. */
    method Stop(ghost s: State)
      requires Shows(s) && WellFormed(s) && Enabled(s, Action.Stop)
      modifies this`workers, this`ready, this`mustStop
      ensures Shows(Apply(s, Action.Stop))
    {
      var i := 0;
      while i < |ready|
        invariant 0 <= i <= |ready| && ready == s.ready && |workers| == |s.workers|
        invariant workers == QuitAll(s.workers, s.ready[..i])
        modifies this`workers
      {
        assert s.ready[..i + 1][..i] == s.ready[..i];
        workers := Put(workers, ready[i].w, Quit);
        i := i + 1;
      }
      assert s.ready[..i] == s.ready;
      ready := [];
      mustStop := true;
    }
  }
}
