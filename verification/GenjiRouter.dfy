/** The methods of the router on its own tables (pkg/router/genji.go), each proved to be the step
    of the machine in Router. */
module GenjiRouter {
  import opened Options
  import opened Router
  import RouterSafety

  lemma RowKept(rows: seq<SessionRow>, x: SessionRow, p: PeerId)
    requires x.peer != p
    ensures WithoutPeer(rows + [x], p) == WithoutPeer(rows, p) + [x]
  {
    assert (rows + [x])[..|rows|] == rows;
  }

  /** A table without a row that matches is not changed by deleting them. */
  lemma {:induction false} NothingToDelete(rows: seq<SessionRow>, p: PeerId)
    requires forall i | 0 <= i < |rows| :: rows[i].peer != p
    ensures WithoutPeer(rows, p) == rows
  {
    if rows != [] {
      hide WithoutPeer;
      var n := |rows| - 1;
      NothingToDelete(rows[..n], p);
      RowKept(rows[..n], rows[n], p);
      assert rows == rows[..n] + [rows[n]];
    }
  }

  class Genji {
    var nodes: map<PeerId, NodeRow>
    var pools: map<PeerId, PoolRow>
    var sessions: seq<SessionRow>
    var cache: map<Sid, Entry>
    var jobs: map<nat, Sid>
    var placed: nat

    ghost function View(): State
      reads this
    {
      State(nodes, pools, sessions, cache, jobs, placed)
    }

    constructor ()
      ensures View() == INIT
    {
      nodes, pools, sessions, cache, jobs, placed := map[], map[], [], map[], map[], 0;
    }

    method Add(p: PeerId, data: Data)
      modifies this`nodes
      ensures View() == Apply(old(View()), Action.Add(p, data))
    {
      nodes := nodes[p := NodeRow(data, 0)];
    }

    /** The query of pick and pickFromPool. */
    method QueryOne(t: Target) returns (p: Option<PeerId>)
      ensures p.Some? ==> CanPick(View(), t, p.value)
      ensures p.None? ==> Candidates(View(), t) == {}
    {
      var s := State(nodes, pools, sessions, cache, jobs, placed);
      var rows := Candidates(s, t);
      if rows == {} {
        return None;
      }
      if t.WithIP? {
        var row :| row in rows;
        return Some(row);
      }
      ghost var least := LeastExists(s, t, rows);
      var row :| row in rows && forall q | q in rows :: Rank(s, t, row) <= Rank(s, t, q);
      return Some(row);
    }

    /** The answer, the row the query returned and how far storing the session got, given whether the
        clock takes the job and the table the row. */
    method Route(r: Request, scheduled: bool, inserted: bool)
      returns (node: Option<Node>, pick: Option<PeerId>, storing: Storing)
      modifies this
      ensures Enabled(old(View()), Action.Route(r, pick, storing))
      ensures View() == Apply(old(View()), Action.Route(r, pick, storing))
      ensures node == Answer(old(View()), Action.Route(r, pick, storing))
      ensures storing == if !WantsSession(r) || pick == None || pick.value !in old(nodes) || (scheduled && inserted)
                         then AllStored else if scheduled then NotRecorded else NotScheduled
    {
      storing := AllStored;
      if r.sid != 0 && r.ip == None {
        if r.sid in cache {
          return Some(cache[r.sid].node), None, AllStored;
        }
      }
      pick := QueryOne(TargetOf(r));
      if pick == None || pick.value !in nodes {
        return None, pick, AllStored;
      }
      var pid := pick.value;
      var data := nodes[pid].data;
      nodes := BumpNode(nodes, pid);
      if r.pool.Some? {
        pools := BumpPool(pools, pid);
      }
      node := Some(Node(pid, data));
      if r.sid != 0 && r.ip == None {
        var ok := SetWithExpire(r.sid, node.value, scheduled);
        if !ok {
          return None, pick, NotScheduled;
        }
        if !inserted {
          return None, pick, NotRecorded;
        }
        sessions := sessions + [SessionRow(pid, r.sid)];
      }
    }

    /** The entry is set before the job is scheduled, and stays when that fails. */
    method SetWithExpire(sid: Sid, value: Node, scheduled: bool) returns (ok: bool)
      modifies this`cache, this`jobs, this`placed
      ensures cache == old(cache)[sid := Entry(value, old(placed))] && placed == old(placed) + 1
      ensures jobs == if scheduled then old(jobs)[old(placed) := sid] else old(jobs)
      ensures ok == scheduled
    {
      var job := placed;
      cache, placed := cache[sid := Entry(value, job)], placed + 1;
      if !scheduled {
        return false;
      }
      jobs := jobs[job := sid];
      return true;
    }

    /** The deletion job that SetWithExpire scheduled, with onSessionExpired in it: the session is forgotten
        in both places and no other, so that the rest still agrees. */
    method Expired(job: nat)
      requires job in jobs
      modifies this`sessions, this`cache, this`jobs
      ensures View() == Apply(old(View()), Expire(job))
      ensures var sid := old(jobs)[job];
              && (forall x :: x in sessions <==> x in old(sessions) && x.sid != sid)
              && sid !in cache
              && (forall k | k != sid ::
                    (k in cache <==> k in old(cache)) && (k in cache ==> cache[k] == old(cache)[k]))
      ensures old(Inv(View())) ==> Inv(View())
    {
      var sid := jobs[job];
      RowsLeft(sessions, "", sid);
      if Inv(View()) {
        RouterSafety.StepKeepsInv(View(), Expire(job));
      }
      sessions := WithoutSid(sessions, sid);
      cache := cache - {sid};
      jobs := jobs - {job};
    }

    /** The rows of p, iterated: their sessions leave the cache. */
    method ForgetSessions(p: PeerId) returns (count: nat)
      modifies this`cache
      ensures cache == old(cache) - SidsOf(sessions, p)
      ensures count == 0 ==> forall k | 0 <= k < |sessions| :: sessions[k].peer != p
    {
      count := 0;
      for i := 0 to |sessions|
        invariant cache == old(cache) - SidsOf(sessions[..i], p)
        invariant count == 0 ==> forall k | 0 <= k < i :: sessions[k].peer != p
      {
        assert sessions[..i + 1] == sessions[..i] + [sessions[i]];
        if sessions[i].peer == p {
          cache := cache - {sessions[i].sid};
          count := count + 1;
        }
      }
      assert sessions[..|sessions|] == sessions;
    }

    /** The node leaves every table and its sessions the cache; nothing else goes or changes. */
    method Remove(p: PeerId)
      modifies this
      ensures View() == Apply(old(View()), Action.Remove(p))
      ensures nodes == old(nodes) - {p} && pools == old(pools) - {p} && jobs == old(jobs)
      ensures forall x :: x in sessions <==> x in old(sessions) && x.peer != p
      ensures forall sid :: sid in cache <==> sid in old(cache) && SessionRow(p, sid) !in old(sessions)
      ensures forall sid | sid in cache :: cache[sid] == old(cache)[sid]
    {
      RowsLeft(sessions, p, 0);
      nodes := nodes - {p};
      pools := pools - {p};
      var count := ForgetSessions(p);
      if count == 0 {
        NothingToDelete(sessions, p);
        return;
      }
      sessions := WithoutPeer(sessions, p);
    }

    /** Each id is in this pool afterwards, and in no other, with no rank; no other row is touched. */
    method PoolAdd(name: string, ids: seq<PeerId>)
      modifies this`pools
      ensures View() == Apply(old(View()), Action.PoolAdd(name, ids))
      ensures pools.Keys == old(pools).Keys + (set p | p in ids)
      ensures forall p | p in pools :: pools[p] == if p in ids then PoolRow(name, 0) else old(pools)[p]
    {
      var i := 0;
      while i < |ids|
        invariant 0 <= i <= |ids|
        invariant AddToPool(pools, name, ids[i..]) == AddToPool(old(pools), name, ids)
        invariant forall p :: p in pools <==> p in old(pools) || p in ids[..i]
        invariant forall p | p in pools :: pools[p] == if p in ids[..i] then PoolRow(name, 0) else old(pools)[p]
      {
        assert ids[..i + 1] == ids[..i] + [ids[i]];
        pools := pools[ids[i] := PoolRow(name, 0)];
        i := i + 1;
      }
    }

    /** The pool loses exactly these ids; no other pool and no other target notices. */
    method PoolDelete(name: string, ids: seq<PeerId>)
      modifies this`pools
      ensures View() == Apply(old(View()), Action.PoolDelete(name, ids))
      ensures Candidates(View(), InPool(name)) == old(Candidates(View(), InPool(name))) - (set p | p in ids)
      ensures forall t | t != InPool(name) :: Candidates(View(), t) == old(Candidates(View(), t))
      ensures forall p | p in pools :: p in old(pools) && pools[p] == old(pools)[p]
    {
      if |ids| == 0 {
        assert pools == map p | p in pools && !(pools[p].name == name && p in ids) :: pools[p];
        return;
      }
      pools := map p | p in pools && !(pools[p].name == name && p in ids) :: pools[p];
    }

    /** Pools that are no longer configured go with all their rows; an empty list of names is ignored. */
    method PoolCleanNameNotIn(names: seq<string>)
      modifies this`pools
      ensures View() == Apply(old(View()), Action.PoolCleanNameNotIn(names))
      ensures forall p :: p in pools <==> p in old(pools) && (names == [] || old(pools)[p].name in names)
      ensures forall p | p in pools :: pools[p] == old(pools)[p]
    {
      if |names| == 0 {
        return;
      }
      pools := map p | p in pools && pools[p].name in names :: pools[p];
    }
  }
}
