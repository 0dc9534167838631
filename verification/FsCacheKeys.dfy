/** A request is served from a file that was opened for what it asked for, over every interleaving. */
module FsCacheKeys {
  import opened FsCache
  import opened FsCacheSafety

  /** What each request asked for, and what each file was opened for. */
  datatype Log = Log(asked: seq<Key>, files: seq<Key>)

  const NOTHING := Log([], [])

  function Logged(log: Log, a: Action): Log {
    match a
    case Request(k) => log.(asked := log.asked + [k])
    case Open(t, ok) =>
      if ok && t < |log.asked| then log.(files := log.files + [log.asked[t]]) else log
    case _ => log
  }

  function Logs(log: Log, acts: seq<Action>): Log
    decreases |acts|
  {
    if acts == [] then log else Logs(Logged(log, acts[0]), acts[1..])
  }

  predicate OpenedFor(log: Log, f: FileId, k: Key) {
    f < |log.files| && log.files[f] == k
  }

  predicate PhaseMatches(p: Phase, k: Key, log: Log) {
    match p
    case Lookup(j) => j == k
    case Opening(j) => j == k
    case Opened(j, f) => j == k && OpenedFor(log, f, k)
    case Losing(f, g) => OpenedFor(log, f, k) && OpenedFor(log, g, k)
    case Using(f) => OpenedFor(log, f, k)
    case Leaked(f) => OpenedFor(log, f, k)
    case Done => true
  }

  ghost predicate Matches(s: State, log: Log) {
    && |log.asked| == |s.phases| && |log.files| == |s.sh.files|
    && (forall k | k in s.sh.cache :: OpenedFor(log, s.sh.cache[k], k))
    && (forall t | 0 <= t < |s.phases| :: PhaseMatches(s.phases[t], log.asked[t], log))
  }

  lemma {:induction false} EvictAllTakes(files: seq<int>, acc: Sorted, stale: seq<Key>)
    requires InRange(files, acc.cache)
    ensures forall k | k in EvictAll(files, acc, stale).cache ::
              k in acc.cache && acc.cache[k] == EvictAll(files, acc, stale).cache[k]
    decreases |stale|
  {
    if stale != [] {
      EvictAllTakes(files, if stale[0] in acc.cache then Evict(files, acc, stale[0]) else acc, stale[1..]);
    }
  }

  lemma CleanTakes(sh: Shared, pending: seq<FileId>, stale: seq<Key>)
    requires InRange(sh.files, sh.cache) && Below(pending, |sh.files|)
    ensures forall k | k in CleanSection(sh, pending, stale).cache ::
              k in sh.cache && sh.cache[k] == CleanSection(sh, pending, stale).cache[k]
  {
    hide EvictAll, SortPending;
    SortPendingCache(sh.files, pending, Sorted(sh.cache, [], []));
    EvictAllTakes(sh.files, SortPending(sh.files, pending, Sorted(sh.cache, [], [])), stale);
  }

  lemma GrownLog(log: Log, a: Action, p: Phase, k: Key)
    requires PhaseMatches(p, k, log)
    ensures PhaseMatches(p, k, Logged(log, a))
  {
  }

  lemma OthersMatch(s: State, log: Log, a: Action, t: Tid)
    requires WellFormed(s) && Enabled(s, a) && Matches(s, log)
    requires t < |s.phases| && (a.Request? || a.Clean? || a.ReleaseNext? || t != ActorOf(a))
    ensures |Apply(s, a).phases| >= |s.phases|
    ensures PhaseMatches(Apply(s, a).phases[t], log.asked[t], Logged(log, a))
  {
    assert Apply(s, a).phases[t] == s.phases[t];
    GrownLog(log, a, s.phases[t], log.asked[t]);
  }

  lemma ActorMatches(s: State, log: Log, a: Action)
    requires WellFormed(s) && Enabled(s, a) && Matches(s, log) && ActorOf(a) >= 0
    ensures var t := ActorOf(a);
            PhaseMatches(Apply(s, a).phases[t], log.asked[t], Logged(log, a))
  {
    assert PhaseMatches(s.phases[ActorOf(a)], log.asked[ActorOf(a)], log);
  }

  lemma StepKeepsMatch(s: State, log: Log, a: Action)
    requires WellFormed(s) && Enabled(s, a) && Matches(s, log)
    ensures Matches(Apply(s, a), Logged(log, a))
  {
    var s', log' := Apply(s, a), Logged(log, a);
    if a.Clean? {
      CleanTakes(s.sh, s.pending, a.stale);
    }
    CacheMatches(s, log, a);
    LogGrows(s, log, a);
    hide Apply, Logged, Enabled, PhaseMatches;
    forall t | 0 <= t < |s'.phases| ensures PhaseMatches(s'.phases[t], log'.asked[t], log') {
      if t == |s.phases| {
        NewMatches(s, log, a);
      } else if t == ActorOf(a) {
        ActorMatches(s, log, a);
      } else {
        OthersMatch(s, log, a, t);
      }
    }
  }

  lemma LogGrows(s: State, log: Log, a: Action)
    requires WellFormed(s) && Enabled(s, a) && Matches(s, log)
    ensures var s', log' := Apply(s, a), Logged(log, a);
            && |log'.asked| == |s'.phases| && |log'.files| == |s'.sh.files| && log.asked <= log'.asked
            && |s'.phases| == |s.phases| + (if a.Request? then 1 else 0)
  {
  }

  lemma NewMatches(s: State, log: Log, a: Action)
    requires WellFormed(s) && Enabled(s, a) && Matches(s, log) && |Apply(s, a).phases| > |s.phases|
    ensures |Logged(log, a).asked| > |s.phases|
    ensures PhaseMatches(Apply(s, a).phases[|s.phases|], Logged(log, a).asked[|s.phases|], Logged(log, a))
  {
  }

  lemma CacheMatches(s: State, log: Log, a: Action)
    requires WellFormed(s) && Enabled(s, a) && Matches(s, log)
    ensures forall k | k in Apply(s, a).sh.cache :: OpenedFor(Logged(log, a), Apply(s, a).sh.cache[k], k)
  {
    if a.Clean? {
      CleanTakes(s.sh, s.pending, a.stale);
    } else if a.Insert? {
      assert PhaseMatches(s.phases[a.t], log.asked[a.t], log);
    }
  }

  lemma {:induction false} RunKeepsMatch(s: State, log: Log, acts: seq<Action>, s': State)
    requires Matches(s, log) && IsRun(s, acts, s')
    ensures Matches(s', Logs(log, acts))
    decreases |acts|
  {
    hide Matches, Logged, Apply, Enabled;
    if acts != [] {
      StepKeepsMatch(s, log, acts[0]);
      RunKeepsMatch(Apply(s, acts[0]), Logged(log, acts[0]), acts[1..], s');
    }
  }

  /** In every reachable state the t-th request holds, if any, a file that was opened for the path and encoding
      it asked for, be it its own, one it found or one of a faster request; and a cached file is
      found under what it was opened for. */
  lemma ServesWhatWasAsked(acts: seq<Action>, s: State, t: Tid)
    requires IsRun(INIT, acts, s) && t < |s.phases|
    ensures var log := Logs(NOTHING, acts);
            && |log.asked| == |s.phases| && |log.files| == |s.sh.files|
            && (s.phases[t].Using? ==> OpenedFor(log, s.phases[t].f, log.asked[t]))
            && (forall k | k in s.sh.cache :: OpenedFor(log, s.sh.cache[k], k))
  {
    RunKeepsMatch(INIT, NOTHING, acts, s);
    assert PhaseMatches(s.phases[t], Logs(NOTHING, acts).asked[t], Logs(NOTHING, acts));
  }
}
