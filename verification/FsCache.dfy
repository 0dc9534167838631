/** The file handles of the static file handler (fs.go): reference counts changed under
    cacheLock, a cleaner that releases stale handles, and requests that race with it. */
module FsCache {
  import opened Counting

  type FileId = nat
  type Tid = nat

  datatype Encoding = Plain | Brotli | Gzip

  /** One of the three caches and a path in it. */
  datatype Key = Key(encoding: Encoding, path: string)

  /** What cacheLock protects, and what the cleaner and Release do. files numbers every handle
      opened so far by its readersCount; releases counts the calls of Release on it. */
  datatype Shared = Shared(cache: map<Key, FileId>, files: seq<int>, releases: seq<nat>)

  datatype Phase =
    | Lookup(k: Key)                    // before the first locked section
    | Opening(k: Key)                   // a miss, before openFSFile returns
    | Opened(k: Key, f: FileId)         // before the second locked section
    | Losing(f: FileId, g: FileId)      // another request was faster: f is to be released, g is used
    | Using(f: FileId)                  // owns one count of f, until a reader is closed or not needed
    | Leaked(f: FileId)                 // failed at the guard of smallFileReader, the count not given back
    | Done

  /** pending and toRelease belong to the cleaner: files taken out of the caches that had readers,
      and files it is releasing after the unlock. */
  datatype State = State(sh: Shared, phases: seq<Phase>, pending: seq<FileId>, toRelease: seq<FileId>)

  const INIT := State(Shared(map[], [], []), [], [], [])

  // ---------------------------------------------------------------------------
  // The cleaner's locked section
  // ---------------------------------------------------------------------------

  datatype Sorted = Sorted(cache: map<Key, FileId>, pending: seq<FileId>, toRelease: seq<FileId>)

  predicate Below(fs: seq<FileId>, n: nat) {
    forall i | 0 <= i < |fs| :: fs[i] < n
  }

  /** Files that could not be closed on the previous pass. */
  function SortPending(files: seq<int>, old_pending: seq<FileId>, acc: Sorted): Sorted
    requires Below(old_pending, |files|)
    decreases |old_pending|
  {
    if old_pending == [] then acc
    else
      var f := old_pending[0];
      SortPending(files, old_pending[1..],
                  if files[f] > 0 then acc.(pending := acc.pending + [f])
                  else acc.(toRelease := acc.toRelease + [f]))
  }

  function Evict(files: seq<int>, acc: Sorted, k: Key): Sorted
    requires k in acc.cache && acc.cache[k] < |files|
  {
    var f := acc.cache[k];
    var acc := if files[f] > 0 then acc.(pending := acc.pending + [f])
               else acc.(toRelease := acc.toRelease + [f]);
    acc.(cache := acc.cache - {k})
  }

  ghost predicate InRange(files: seq<int>, cache: map<Key, FileId>) {
    forall k | k in cache :: cache[k] < |files|
  }

  /** cleanCacheNolock on the stale keys, in the order in which the iteration meets them. */
  function EvictAll(files: seq<int>, acc: Sorted, stale: seq<Key>): Sorted
    requires InRange(files, acc.cache)
    decreases |stale|
  {
    if stale == [] then acc
    else EvictAll(files, if stale[0] in acc.cache then Evict(files, acc, stale[0]) else acc, stale[1..])
  }

  // ---------------------------------------------------------------------------
  // Actions
  // ---------------------------------------------------------------------------

  datatype Action =
    | Request(k: Key)
    | Find(t: Tid)                 // the first locked section of handleRequest
    | Open(t: Tid, ok: bool)
    | Insert(t: Tid)               // the second locked section
    | ReleaseLoser(t: Tid)
    | Leak(t: Tid)                 // that guard, which no reader trips that is not used after its close
    | Dec(t: Tid)                  // decReadersCount
    | Clean(stale: seq<Key>)       // the locked section of cleanCache
    | ReleaseNext                  // the cleaner releases one file

  function ActorOf(a: Action): (t: int) {
    match a
    case Find(t) => t
    case Open(t, _) => t
    case Insert(t) => t
    case ReleaseLoser(t) => t
    case Leak(t) => t
    case Dec(t) => t
    case _ => -1
  }

  /** The indices a state mentions exist. */
  ghost predicate WellFormed(s: State) {
    && |s.sh.files| == |s.sh.releases|
    && InRange(s.sh.files, s.sh.cache)
    && Below(s.pending, |s.sh.files|)
    && Below(s.toRelease, |s.sh.files|)
    && (forall t | 0 <= t < |s.phases| :: PhaseInRange(s.phases[t], |s.sh.files|))
  }

  predicate PhaseInRange(p: Phase, n: nat) {
    match p
    case Opened(_, f) => f < n
    case Losing(f, g) => f < n && g < n
    case Using(f) => f < n
    case Leaked(f) => f < n
    case _ => true
  }

  predicate Enabled(s: State, a: Action) {
    match a
    case Request(_) => true
    case Clean(_) => s.toRelease == []
    case ReleaseNext => s.toRelease != []
    case _ =>
      ActorOf(a) < |s.phases| &&
      var p := s.phases[ActorOf(a)];
      match a
      case Find(_) => p.Lookup?
      case Open(_, _) => p.Opening?
      case Insert(_) => p.Opened?
      case ReleaseLoser(_) => p.Losing?
      case Leak(_) => p.Using?
      case Dec(_) => p.Using?
  }

  function AddReader(sh: Shared, f: FileId, d: int): Shared
    requires f < |sh.files|
  {
    sh.(files := sh.files[f := sh.files[f] + d])
  }

  function Release(sh: Shared, f: FileId): Shared
    requires f < |sh.releases|
  {
    sh.(releases := sh.releases[f := sh.releases[f] + 1])
  }

  function FindSection(sh: Shared, k: Key): (Shared, Phase)
    requires InRange(sh.files, sh.cache)
  {
    if k in sh.cache then (AddReader(sh, sh.cache[k], 1), Using(sh.cache[k])) else (sh, Opening(k))
  }

  function InsertSection(sh: Shared, k: Key, f: FileId): (Shared, Phase)
    requires InRange(sh.files, sh.cache) && f < |sh.files|
  {
    if k in sh.cache then (AddReader(sh, sh.cache[k], 1), Losing(f, sh.cache[k]))
    else (AddReader(sh.(cache := sh.cache[k := f]), f, 1), Using(f))
  }

  function CleanSection(sh: Shared, pending: seq<FileId>, stale: seq<Key>): Sorted
    requires InRange(sh.files, sh.cache)
    requires Below(pending, |sh.files|)
  {
    SortPendingCache(sh.files, pending, Sorted(sh.cache, [], []));
    EvictAll(sh.files, SortPending(sh.files, pending, Sorted(sh.cache, [], [])), stale)
  }

  lemma {:induction false} SortPendingCache(files: seq<int>, old_pending: seq<FileId>, acc: Sorted)
    requires Below(old_pending, |files|)
    ensures SortPending(files, old_pending, acc).cache == acc.cache
    decreases |old_pending|
  {
    if old_pending != [] {
      var f := old_pending[0];
      SortPendingCache(files, old_pending[1..],
                       if files[f] > 0 then acc.(pending := acc.pending + [f])
                       else acc.(toRelease := acc.toRelease + [f]));
    }
  }

  function Apply(s: State, a: Action): State
    requires WellFormed(s) && Enabled(s, a)
  {
    match a
    case Request(k) => s.(phases := s.phases + [Lookup(k)])
    case Find(t) =>
      var (sh, p) := FindSection(s.sh, s.phases[t].k);
      s.(sh := sh, phases := s.phases[t := p])
    case Open(t, ok) =>
      if ok then
        s.(sh := s.sh.(files := s.sh.files + [0], releases := s.sh.releases + [0]),
           phases := s.phases[t := Opened(s.phases[t].k, |s.sh.files|)])
      else s.(phases := s.phases[t := Done])
    case Insert(t) =>
      var (sh, p) := InsertSection(s.sh, s.phases[t].k, s.phases[t].f);
      s.(sh := sh, phases := s.phases[t := p])
    case ReleaseLoser(t) =>
      s.(sh := Release(s.sh, s.phases[t].f), phases := s.phases[t := Using(s.phases[t].g)])
    case Leak(t) => s.(phases := s.phases[t := Leaked(s.phases[t].f)])
    case Dec(t) => s.(sh := AddReader(s.sh, s.phases[t].f, -1), phases := s.phases[t := Done])
    case Clean(stale) =>
      var sorted := CleanSection(s.sh, s.pending, stale);
      s.(sh := s.sh.(cache := sorted.cache), pending := sorted.pending, toRelease := sorted.toRelease)
    case ReleaseNext => s.(sh := Release(s.sh, s.toRelease[0]), toRelease := s.toRelease[1..])
  }

  // ---------------------------------------------------------------------------
  // The invariant
  // ---------------------------------------------------------------------------

  /** Does the goroutine own a count of f? */
  function Refs(p: Phase, f: FileId): nat {
    match p
    case Losing(_, g) => B(g == f)
    case Using(g) => B(g == f)
    case Leaked(g) => B(g == f)
    case _ => 0
  }

  /** Is the handle f in the goroutine's hands alone? */
  function Hand(p: Phase, f: FileId): nat {
    match p
    case Opened(_, g) => B(g == f)
    case Losing(g, _) => B(g == f)
    case _ => 0
  }

  function RefSum(ps: seq<Phase>, f: FileId): nat {
    if ps == [] then 0 else RefSum(ps[..|ps| - 1], f) + Refs(ps[|ps| - 1], f)
  }

  function HandSum(ps: seq<Phase>, f: FileId): nat {
    if ps == [] then 0 else HandSum(ps[..|ps| - 1], f) + Hand(ps[|ps| - 1], f)
  }

  lemma {:induction false} SumMove(ps: seq<Phase>, t: Tid, p: Phase, f: FileId)
    requires t < |ps|
    ensures RefSum(ps[t := p], f) == RefSum(ps, f) - Refs(ps[t], f) + Refs(p, f)
    ensures HandSum(ps[t := p], f) == HandSum(ps, f) - Hand(ps[t], f) + Hand(p, f)
    ensures RefSum(ps, f) >= Refs(ps[t], f) && HandSum(ps, f) >= Hand(ps[t], f)
  {
    var n := |ps|;
    var ps' := ps[t := p];
    if t == n - 1 {
      assert ps'[..n - 1] == ps[..n - 1];
    } else {
      SumMove(ps[..n - 1], t, p, f);
      assert ps'[..n - 1] == ps[..n - 1][t := p];
    }
  }

  lemma SumFork(ps: seq<Phase>, p: Phase, f: FileId)
    ensures RefSum(ps + [p], f) == RefSum(ps, f) + Refs(p, f)
    ensures HandSum(ps + [p], f) == HandSum(ps, f) + Hand(p, f)
  {
    assert (ps + [p])[..|ps|] == ps;
  }

  /** In how many places the handle f is. */
  function Places(s: State, f: FileId): nat
    requires f < |s.sh.releases|
  {
    B(f in s.sh.cache.Values) + multiset(s.pending)[f] + multiset(s.toRelease)[f]
    + HandSum(s.phases, f) + s.sh.releases[f]
  }

  ghost predicate Injective(m: map<Key, FileId>) {
    forall j, k | j in m && k in m && m[j] == m[k] :: j == k
  }

  /** Each opened handle is in exactly one of: a cache, the pending files, the files being released, the
      hands of the request that opened it, released. readersCount is the number of owners,
      and a handle with readers is cached or pending. */
  ghost predicate Inv(s: State) {
    && WellFormed(s)
    && Injective(s.sh.cache)
    && (forall f | 0 <= f < |s.sh.files| :: Places(s, f) == 1)
    && (forall f | 0 <= f < |s.sh.files| :: s.sh.files[f] == RefSum(s.phases, f))
    && (forall f | 0 <= f < |s.sh.files| && s.sh.files[f] > 0 :: f in s.sh.cache.Values || f in s.pending)
  }
}
