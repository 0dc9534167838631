/** The locked sections of the static file handler on its own fields (fs.go), each proved to be
    the step of the machine in FsCache. */
module FsHandlers {
  import opened FsCache
  import opened FsCacheSafety

  class FsHandler {
    var cache: map<Key, FileId>
    var readersCount: seq<int>
    var openedAt: seq<int>
    var releases: seq<nat>
    var pendingFiles: seq<FileId>

    ghost predicate Valid()
      reads this
    {
      && |readersCount| == |openedAt| == |releases|
      && InRange(readersCount, cache) && Below(pendingFiles, |readersCount|)
    }

    ghost function View(): Shared
      reads this
    {
      Shared(cache, readersCount, releases)
    }

    constructor ()
      ensures Valid() && View() == INIT.sh && pendingFiles == []
    {
      cache, readersCount, openedAt, releases, pendingFiles := map[], [], [], [], [];
    }

    /** The first locked section of handleRequest. */
    method Find(k: Key) returns (next: Phase)
      requires Valid()
      modifies this`readersCount
      ensures Valid() && (View(), next) == FindSection(old(View()), k)
      ensures if k in cache then
                var ff := cache[k];
                next == Using(ff) && readersCount == old(readersCount)[ff := old(readersCount)[ff] + 1]
              else next == Opening(k) && readersCount == old(readersCount)
    {
      if k in cache {
        var ff := cache[k];
        readersCount := readersCount[ff := readersCount[ff] + 1];
        return Using(ff);
      }
      return Opening(k);
    }

    /** openFSFile: a new handle, used by nobody yet. */
    method Open(now: int) returns (ff: FileId)
      requires Valid()
      modifies this`readersCount, this`openedAt, this`releases
      ensures Valid() && ff == |old(readersCount)|
      ensures View() == old(View()).(files := old(readersCount) + [0], releases := old(releases) + [0])
    {
      ff := |readersCount|;
      readersCount, openedAt, releases := readersCount + [0], openedAt + [now], releases + [0];
    }

    /** The second locked section of handleRequest. */
    method Insert(k: Key, ff: FileId) returns (next: Phase)
      requires Valid() && ff < |readersCount|
      modifies this`cache, this`readersCount
      ensures Valid() && (View(), next) == InsertSection(old(View()), k, ff)
      ensures cache == if k in old(cache) then old(cache) else old(cache)[k := ff]
      ensures next == if k in old(cache) then Losing(ff, cache[k]) else Using(ff)
      ensures var used := cache[k];
              readersCount == old(readersCount)[used := old(readersCount)[used] + 1]
    {
      if k !in cache {
        cache := cache[k := ff];
        readersCount := readersCount[ff := readersCount[ff] + 1];
        return Using(ff);
      }
      var ff1 := cache[k];
      readersCount := readersCount[ff1 := readersCount[ff1] + 1];
      return Losing(ff, ff1);
    }

    /** Whoever gives a count back owns one: the negative-count panic is not reached, and the count is
        again the number of its owners. */
    method DecReadersCount(ff: FileId, ghost s: State, ghost t: Tid) returns (panics: bool)
      requires Inv(s) && Enabled(s, Dec(t)) && ff == s.phases[t].f
      requires Valid() && View() == s.sh
      modifies this`readersCount
      ensures Valid() && View() == Apply(s, Dec(t)).sh
      ensures !panics && readersCount[ff] == RefSum(s.phases[t := Done], ff)
      ensures Inv(Apply(s, Dec(t)))
    {
      StepKeepsInv(s, Dec(t));
      readersCount := readersCount[ff := readersCount[ff] - 1];
      panics := readersCount[ff] < 0;
    }

    /** The locked section of cleanCache. order is the order in which the map iteration meets the
        keys; after the pass no cached handle is older than cacheDuration. */
    method CleanCache(order: seq<Key>, now: int, cacheDuration: int)
      returns (filesToRelease: seq<FileId>, ghost stale: seq<Key>)
      requires Valid()
      requires forall k | k in cache :: k in order
      modifies this`cache, this`pendingFiles
      ensures Valid()
      ensures Sorted(cache, pendingFiles, filesToRelease) == CleanSection(old(View()), old(pendingFiles), stale)
      ensures forall k | k in stale :: k in old(cache) && now - openedAt[old(cache)[k]] > cacheDuration
      ensures forall k | k in cache :: now - openedAt[cache[k]] <= cacheDuration
    {
      SortPendingCache(readersCount, pendingFiles, Sorted(cache, [], []));
      var remaining: seq<FileId> := [];
      filesToRelease := [];
      for i := 0 to |pendingFiles|
        invariant SortPending(readersCount, pendingFiles[i..], Sorted(cache, remaining, filesToRelease))
               == SortPending(readersCount, pendingFiles, Sorted(cache, [], []))
        invariant Below(remaining, |readersCount|)
      {
        var ff := pendingFiles[i];
        assert pendingFiles[i..][0] == ff && pendingFiles[i..][1..] == pendingFiles[i + 1..];
        if readersCount[ff] > 0 {
          remaining := remaining + [ff];
        } else {
          filesToRelease := filesToRelease + [ff];
        }
      }
      pendingFiles := remaining;
      filesToRelease, stale := CleanCacheNolock(order, filesToRelease, now, cacheDuration);
    }

    /** cleanCacheNolock. */
    method CleanCacheNolock(order: seq<Key>, releaseFirst: seq<FileId>, now: int, cacheDuration: int)
      returns (filesToRelease: seq<FileId>, ghost stale: seq<Key>)
      requires Valid()
      requires forall k | k in cache :: k in order
      modifies this`cache, this`pendingFiles
      ensures Valid()
      ensures Sorted(cache, pendingFiles, filesToRelease)
           == EvictAll(readersCount, Sorted(old(cache), old(pendingFiles), releaseFirst), stale)
      ensures forall k | k in stale :: k in old(cache) && now - openedAt[old(cache)[k]] > cacheDuration
      ensures forall k | k in cache :: now - openedAt[cache[k]] <= cacheDuration
    {
      ghost var start := Sorted(cache, pendingFiles, releaseFirst);
      filesToRelease, stale := releaseFirst, [];
      for i := 0 to |order|
        invariant Valid() && cache.Keys <= old(cache).Keys && forall k | k in cache :: cache[k] == old(cache)[k]
        invariant Sorted(cache, pendingFiles, filesToRelease) == EvictAll(readersCount, start, stale)
        invariant forall k | k in stale :: k in old(cache) && now - openedAt[old(cache)[k]] > cacheDuration
        invariant forall j | 0 <= j < i && order[j] in cache :: now - openedAt[cache[order[j]]] <= cacheDuration
      {
        var k := order[i];
        if k in cache && now - openedAt[cache[k]] > cacheDuration {
          var ff := cache[k];
          EvictOneMore(readersCount, start, stale, k);
          stale := stale + [k];
          if readersCount[ff] > 0 {
            pendingFiles := pendingFiles + [ff];
          } else {
            filesToRelease := filesToRelease + [ff];
          }
          cache := cache - {k};
        }
      }
    }
  }

  lemma {:induction false} EvictOneMore(files: seq<int>, acc: Sorted, stale: seq<Key>, k: Key)
    requires InRange(files, acc.cache)
    ensures InRange(files, EvictAll(files, acc, stale).cache)
    ensures var r := EvictAll(files, acc, stale);
            EvictAll(files, acc, stale + [k]) == if k in r.cache then Evict(files, r, k) else r
    decreases |stale|
  {
    if stale == [] {
      assert (stale + [k])[1..] == [];
    } else {
      EvictOneMore(files, if stale[0] in acc.cache then Evict(files, acc, stale[0]) else acc, stale[1..], k);
      assert (stale + [k])[1..] == stale[1..] + [k];
    }
  }
}
