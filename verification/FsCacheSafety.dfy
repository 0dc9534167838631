/** File-handle safety over every interleaving of requests, reader closes and cleaner passes. */
module FsCacheSafety {
  import opened Counting
  import opened FsCache

  lemma SumAtLeast(ps: seq<Phase>, t: Tid, f: FileId)
    requires t < |ps|
    ensures RefSum(ps, f) >= Refs(ps[t], f) && HandSum(ps, f) >= Hand(ps[t], f)
  {
    SumMove(ps, t, ps[t], f);
  }

  lemma FindKeeps(s: State, t: Tid)
    requires Inv(s) && Enabled(s, Find(t))
    ensures Inv(Apply(s, Find(t)))
  {
    var s' := Apply(s, Find(t));
    forall f | 0 <= f < |s'.sh.files|
      ensures Places(s', f) == 1 && s'.sh.files[f] == RefSum(s'.phases, f)
    {
      SumMove(s.phases, t, s'.phases[t], f);
      assert Places(s, f) == 1;
    }
  }

  lemma OpenKeeps(s: State, t: Tid, ok: bool)
    requires Inv(s) && Enabled(s, Open(t, ok))
    ensures Inv(Apply(s, Open(t, ok)))
  {
    var s' := Apply(s, Open(t, ok));
    forall f | 0 <= f < |s'.sh.files|
      ensures Places(s', f) == 1 && s'.sh.files[f] == RefSum(s'.phases, f)
    {
      SumMove(s.phases, t, s'.phases[t], f);
      if f < |s.sh.files| {
        assert Places(s, f) == 1;
      } else {
        NewIsNowhere(s, f);
      }
    }
  }

  /** A handle that has not been opened yet is nowhere. */
  lemma NewIsNowhere(s: State, f: FileId)
    requires WellFormed(s) && f >= |s.sh.files|
    ensures f !in s.sh.cache.Values && f !in s.pending && f !in s.toRelease
    ensures RefSum(s.phases, f) == 0 && HandSum(s.phases, f) == 0
  {
    SumsZero(s.phases, f, |s.sh.files|);
  }

  lemma {:induction false} SumsZero(ps: seq<Phase>, f: FileId, n: nat)
    requires n <= f && forall t | 0 <= t < |ps| :: PhaseInRange(ps[t], n)
    ensures RefSum(ps, f) == 0 && HandSum(ps, f) == 0
  {
    if ps != [] {
      assert PhaseInRange(ps[|ps| - 1], n);
      SumsZero(ps[..|ps| - 1], f, n);
    }
  }

  lemma ValuesOfUpdate(m: map<Key, FileId>, k: Key, f: FileId)
    requires k !in m
    ensures m[k := f].Values == m.Values + {f}
  {
    var m' := m[k := f];
    assert m'[k] == f;
    forall g | g in m.Values ensures g in m'.Values {
      var j :| j in m && m[j] == g;
      assert m'[j] == g;
    }
  }

  lemma InsertMissKeeps(s: State, t: Tid)
    requires Inv(s) && Enabled(s, Insert(t)) && s.phases[t].k !in s.sh.cache
    ensures Inv(Apply(s, Insert(t)))
  {
    hide RefSum, HandSum;
    var s' := Apply(s, Insert(t));
    var Opened(k, new_file) := s.phases[t];
    assert Places(s, new_file) == 1;
    SumMove(s.phases, t, s'.phases[t], new_file);
    ValuesOfUpdate(s.sh.cache, k, new_file);
    assert s'.sh.cache == s.sh.cache[k := new_file];
    forall f | 0 <= f < |s'.sh.files|
      ensures Places(s', f) == 1 && s'.sh.files[f] == RefSum(s'.phases, f)
      ensures s'.sh.files[f] > 0 ==> f in s'.sh.cache.Values || f in s'.pending
    {
      SumMove(s.phases, t, s'.phases[t], f);
      assert Places(s, f) == 1;
    }
  }

  lemma InsertHitKeeps(s: State, t: Tid)
    requires Inv(s) && Enabled(s, Insert(t)) && s.phases[t].k in s.sh.cache
    ensures Inv(Apply(s, Insert(t)))
  {
    hide RefSum, HandSum;
    var s' := Apply(s, Insert(t));
    forall f | 0 <= f < |s'.sh.files|
      ensures Places(s', f) == 1 && s'.sh.files[f] == RefSum(s'.phases, f)
      ensures s'.sh.files[f] > 0 ==> f in s'.sh.cache.Values || f in s'.pending
    {
      SumMove(s.phases, t, s'.phases[t], f);
      assert Places(s, f) == 1;
    }
  }

  lemma MoveOnKeeps(s: State, a: Action)
    requires Inv(s) && Enabled(s, a) && (a.ReleaseLoser? || a.Leak? || a.Dec?)
    ensures Inv(Apply(s, a))
  {
    var s' := Apply(s, a);
    forall f | 0 <= f < |s'.sh.files|
      ensures Places(s', f) == 1 && s'.sh.files[f] == RefSum(s'.phases, f)
    {
      SumMove(s.phases, a.t, s'.phases[a.t], f);
      assert Places(s, f) == 1;
    }
  }

  lemma ReleaseNextKeeps(s: State)
    requires Inv(s) && Enabled(s, ReleaseNext)
    ensures Inv(Apply(s, ReleaseNext))
  {
    var s' := Apply(s, ReleaseNext);
    assert s.toRelease == [s.toRelease[0]] + s.toRelease[1..];
    forall f | 0 <= f < |s'.sh.files| ensures Places(s', f) == 1 {
      assert Places(s, f) == 1;
    }
  }

  // ---------------------------------------------------------------------------
  // The cleaner's pass
  // ---------------------------------------------------------------------------

  /** In how many places of the cleaner's lists and the caches f is. */
  function Held(acc: Sorted, f: FileId): nat {
    B(f in acc.cache.Values) + multiset(acc.pending)[f] + multiset(acc.toRelease)[f]
  }

  /** What is to be released has no readers, what is pending has. */
  ghost predicate ReleasesIdle(files: seq<int>, acc: Sorted) {
    && (forall f | f in acc.toRelease :: f < |files| && files[f] <= 0)
    && (forall f | f in acc.pending :: f < |files| && files[f] > 0)
  }

  lemma {:induction false} SortPendingHeld(files: seq<int>, old_pending: seq<FileId>, acc: Sorted, f: FileId)
    requires Below(old_pending, |files|) && ReleasesIdle(files, acc) && Below(acc.pending, |files|)
    ensures var r := SortPending(files, old_pending, acc);
            && Held(r, f) == Held(acc, f) + multiset(old_pending)[f]
            && r.cache == acc.cache && ReleasesIdle(files, r) && Below(r.pending, |files|)
    decreases |old_pending|
  {
    if old_pending != [] {
      var g := old_pending[0];
      assert old_pending == [g] + old_pending[1..];
      SortPendingHeld(files, old_pending[1..],
                      if files[g] > 0 then acc.(pending := acc.pending + [g])
                      else acc.(toRelease := acc.toRelease + [g]), f);
    }
  }

  lemma ValuesOfRemoval(m: map<Key, FileId>, k: Key)
    requires Injective(m) && k in m
    ensures (m - {k}).Values == m.Values - {m[k]} && Injective(m - {k})
  {
    var m' := m - {k};
    forall g | g in m.Values - {m[k]} ensures g in m'.Values {
      var j :| j in m && m[j] == g;
      assert m'[j] == g;
    }
  }

  lemma {:induction false} EvictAllHeld(files: seq<int>, acc: Sorted, stale: seq<Key>, f: FileId)
    requires InRange(files, acc.cache) && Injective(acc.cache)
    requires ReleasesIdle(files, acc) && Below(acc.pending, |files|)
    ensures var r := EvictAll(files, acc, stale);
            && Held(r, f) == Held(acc, f)
            && Injective(r.cache) && InRange(files, r.cache) && ReleasesIdle(files, r) && Below(r.pending, |files|)
            && (forall k | k in r.cache :: k in acc.cache && r.cache[k] == acc.cache[k] && k !in stale)
    decreases |stale|
  {
    if stale != [] {
      if stale[0] in acc.cache {
        ValuesOfRemoval(acc.cache, stale[0]);
        EvictAllHeld(files, Evict(files, acc, stale[0]), stale[1..], f);
      } else {
        EvictAllHeld(files, acc, stale[1..], f);
      }
    }
  }

  lemma CleanHeld(sh: Shared, pending: seq<FileId>, stale: seq<Key>, f: FileId)
    requires InRange(sh.files, sh.cache) && Injective(sh.cache) && Below(pending, |sh.files|)
    ensures var r := CleanSection(sh, pending, stale);
            && Held(r, f) == B(f in sh.cache.Values) + multiset(pending)[f]
            && Injective(r.cache) && InRange(sh.files, r.cache)
            && ReleasesIdle(sh.files, r) && Below(r.pending, |sh.files|)
            && (forall k | k in r.cache :: k in sh.cache && r.cache[k] == sh.cache[k] && k !in stale)
  {
    var start := Sorted(sh.cache, [], []);
    SortPendingHeld(sh.files, pending, start, f);
    EvictAllHeld(sh.files, SortPending(sh.files, pending, start), stale, f);
  }

  lemma CleanKeeps(s: State, stale: seq<Key>)
    requires Inv(s) && Enabled(s, Clean(stale))
    ensures Inv(Apply(s, Clean(stale)))
  {
    var r := CleanSection(s.sh, s.pending, stale);
    var s' := Apply(s, Clean(stale));
    CleanHeld(s.sh, s.pending, stale, 0);
    hide CleanSection;
    assert forall i | 0 <= i < |r.toRelease| :: r.toRelease[i] in r.toRelease;
    forall f | 0 <= f < |s.sh.files|
      ensures Places(s', f) == 1
      ensures s.sh.files[f] > 0 ==> f in r.cache.Values || f in r.pending
    {
      CleanHeld(s.sh, s.pending, stale, f);
      assert Places(s, f) == 1;
      SumMoveless(s, f);
    }
  }

  /** A handle with readers is in no request's hands and not released. */
  lemma SumMoveless(s: State, f: FileId)
    requires Inv(s) && f < |s.sh.files|
    ensures s.sh.files[f] > 0 ==> HandSum(s.phases, f) == 0 && s.sh.releases[f] == 0
  {
    assert Places(s, f) == 1;
  }

  // ---------------------------------------------------------------------------
  // Over whole runs
  // ---------------------------------------------------------------------------

  lemma StepKeepsInv(s: State, a: Action)
    requires Inv(s) && Enabled(s, a)
    ensures Inv(Apply(s, a))
  {
    match a
    case Request(k) =>
      forall f | 0 <= f < |s.sh.files|
        ensures Places(Apply(s, a), f) == 1 && s.sh.files[f] == RefSum(s.phases + [Lookup(k)], f)
      {
        SumFork(s.phases, Lookup(k), f);
        assert Places(s, f) == 1;
      }
    case Find(t) => FindKeeps(s, t);
    case Open(t, ok) => OpenKeeps(s, t, ok);
    case Insert(t) =>
      if s.phases[t].k in s.sh.cache {
        InsertHitKeeps(s, t);
      } else {
        InsertMissKeeps(s, t);
      }
    case ReleaseLoser(t) => MoveOnKeeps(s, a);
    case Leak(t) => MoveOnKeeps(s, a);
    case Dec(t) => MoveOnKeeps(s, a);
    case Clean(stale) => CleanKeeps(s, stale);
    case ReleaseNext => ReleaseNextKeeps(s);
  }

  ghost predicate IsRun(s: State, acts: seq<Action>, s': State)
    decreases |acts|
  {
    if acts == [] then s' == s
    else WellFormed(s) && Enabled(s, acts[0]) && IsRun(Apply(s, acts[0]), acts[1..], s')
  }

  lemma {:induction false} RunKeepsInv(s: State, acts: seq<Action>, s': State)
    requires Inv(s) && IsRun(s, acts, s')
    ensures Inv(s')
    decreases |acts|
  {
    if acts != [] {
      StepKeepsInv(s, acts[0]);
      RunKeepsInv(Apply(s, acts[0]), acts[1..], s');
    }
  }

  /** A handle is released at most once, never while it has readers and never while it is in a
      cache, waits to be released, or is used; its readersCount is the number of its users. */
  lemma HandleSafety(acts: seq<Action>, s: State, f: FileId)
    requires IsRun(INIT, acts, s) && f < |s.sh.files|
    ensures f < |s.sh.releases| && s.sh.releases[f] <= 1
    ensures s.sh.files[f] == RefSum(s.phases, f) >= 0
    ensures s.sh.releases[f] == 1 ==>
              && s.sh.files[f] == 0
              && f !in s.sh.cache.Values && f !in s.pending && f !in s.toRelease
              && (forall t | 0 <= t < |s.phases| :: Refs(s.phases[t], f) == 0 && Hand(s.phases[t], f) == 0)
    ensures f in s.toRelease ==> s.sh.files[f] == 0
  {
    assert Inv(INIT);
    RunKeepsInv(INIT, acts, s);
    assert Places(s, f) == 1;
    forall t | 0 <= t < |s.phases|
      ensures Refs(s.phases[t], f) <= RefSum(s.phases, f) && Hand(s.phases[t], f) <= HandSum(s.phases, f)
    {
      SumAtLeast(s.phases, t, f);
    }
  }

  /** The check for a negative readersCount never fires: whoever gives a count back owns one. */
  lemma NegativeCountUnreachable(acts: seq<Action>, s: State, t: Tid)
    requires IsRun(INIT, acts, s) && Enabled(s, Dec(t))
    ensures WellFormed(s) && s.sh.files[s.phases[t].f] >= 1
    ensures s.sh.releases[s.phases[t].f] == 0
  {
    assert Inv(INIT);
    RunKeepsInv(INIT, acts, s);
    var f := s.phases[t].f;
    SumAtLeast(s.phases, t, f);
    assert Places(s, f) == 1;
  }

  /** Every handle ever opened is in exactly one place, in every reachable state. */
  lemma HandleIsInOnePlace(acts: seq<Action>, s: State, f: FileId)
    requires IsRun(INIT, acts, s) && f < |s.sh.files|
    ensures WellFormed(s) && Places(s, f) == 1
  {
    assert Inv(INIT);
    RunKeepsInv(INIT, acts, s);
  }

  // ---------------------------------------------------------------------------
  // When a file is released
  // ---------------------------------------------------------------------------

  lemma {:induction false} NoRefs(ps: seq<Phase>, f: FileId)
    ensures RefSum(ps, f) == 0 <==> forall t | 0 <= t < |ps| :: Refs(ps[t], f) == 0
  {
    if ps != [] {
      NoRefs(ps[..|ps| - 1], f);
    }
  }

  /** A pass of the cleaner decides about each file that is pending, or cached under a stale key, by its
      owners alone: without any it is handed to release, otherwise it is pending until the next pass. */
  lemma PassDecides(acts: seq<Action>, s: State, stale: seq<Key>, f: FileId)
    requires IsRun(INIT, acts, s) && Enabled(s, Clean(stale))
    requires f in s.pending || exists k :: k in stale && k in s.sh.cache && s.sh.cache[k] == f
    ensures WellFormed(s)
    ensures var s' := Apply(s, Clean(stale));
            var idle := forall t | 0 <= t < |s.phases| :: Refs(s.phases[t], f) == 0;
            (f in s'.toRelease <==> idle) && (f in s'.pending <==> !idle)
  {
    assert Inv(INIT);
    RunKeepsInv(INIT, acts, s);
    assert f < |s.sh.files| by {
      if f in s.pending {
        assert exists i :: 0 <= i < |s.pending| && s.pending[i] == f;
      }
    }
    PassSorts(s, stale, f);
    NoRefs(s.phases, f);
  }

  lemma PassSorts(s: State, stale: seq<Key>, f: FileId)
    requires Inv(s) && Enabled(s, Clean(stale)) && f < |s.sh.files|
    requires f in s.pending || exists k :: k in stale && k in s.sh.cache && s.sh.cache[k] == f
    ensures var s' := Apply(s, Clean(stale));
            && (f in s'.toRelease <==> s.sh.files[f] == 0)
            && (f in s'.pending <==> s.sh.files[f] > 0)
  {
    hide RefSum, HandSum;
    assert Places(s, f) == 1;
    assert s.sh.files[f] == RefSum(s.phases, f);
    CleanHeld(s.sh, s.pending, stale, f);
    hide CleanSection;
    var r := CleanSection(s.sh, s.pending, stale);
    assert f !in r.cache.Values;
  }

  lemma LeakedIsHeld(s: State, t: Tid)
    requires Inv(s) && t < |s.phases| && s.phases[t].Leaked?
    ensures WellFormed(s) && s.sh.releases[s.phases[t].f] == 0
  {
    var f := s.phases[t].f;
    SumAtLeast(s.phases, t, f);
    assert Places(s, f) == 1;
  }

  /** A request that hits the guard of smallFileReader keeps its count for ever, so its file is not
      released in any later state. */
  lemma {:induction false} LeakedNeverReleased(s: State, acts: seq<Action>, s': State, t: Tid, f: FileId)
    requires Inv(s) && IsRun(s, acts, s') && t < |s.phases| && s.phases[t] == Leaked(f)
    ensures t < |s'.phases| && s'.phases[t] == Leaked(f)
    ensures f < |s'.sh.releases| && s'.sh.releases[f] == 0
    decreases |acts|
  {
    hide Inv;
    if acts == [] {
      LeakedIsHeld(s, t);
    } else {
      StepKeepsInv(s, acts[0]);
      LeakedNeverReleased(Apply(s, acts[0]), acts[1..], s', t, f);
    }
  }
}
