/** Whom Route answers, on the fields of the request and of the tables. */
module RouterTargets {
  import opened Options
  import opened Router
  import opened RouterFairness

  predicate CarriesSession(r: Request) {
    r.sid != 0 && r.ip == None
  }

  /** The request leaves the choice open, or names an address, or a country with at most a region or a city;
      anything else is no target. */
  predicate AsksFor(r: Request, d: Data) {
    if r.country == Some("rr") || (r.country == None && r.region == None && r.city == None && r.ip == None) then true
    else if r.ip != None then Some(d.ipv4) == r.ip
    else
      && Some(d.country) == r.country
      && (r.region != None ==> Some(d.region) == r.region)
      && (r.region == None && r.city != None ==> Some(d.city) == r.city)
  }

  /** A request without a pool that finds no session is answered with a registered node that is where it asked
      for, the least ranked of these unless it asked for an address; it fails exactly when there is none, or
      its session cannot be stored. */
  lemma AnsweredWhereAsked(s: State, r: Request, pick: Option<PeerId>, storing: Storing)
    requires Enabled(s, Route(r, pick, storing)) && r.pool == None && !(CarriesSession(r) && r.sid in s.cache)
    ensures var node := Answer(s, Route(r, pick, storing));
            node.Some? ==>
              && node.value.peer in s.nodes && s.nodes[node.value.peer].data == node.value.data
              && AsksFor(r, node.value.data)
              && (r.ip == None ==> forall q | q in s.nodes && AsksFor(r, s.nodes[q].data) ::
                    s.nodes[node.value.peer].ranking <= s.nodes[q].ranking)
    ensures Answer(s, Route(r, pick, storing)) == None <==>
              (forall q | q in s.nodes :: !AsksFor(r, s.nodes[q].data)) || storing != AllStored
  {
    var t := TargetOf(r);
    forall q | q in s.nodes ensures q in Candidates(s, t) <==> AsksFor(r, s.nodes[q].data) {
    }
  }

  /** A request for a pool that finds no session is answered with a node whose row in that pool is least
      ranked; it fails exactly when the pool has no row, the row that was picked is not of a registered node,
      or its session cannot be stored. */
  lemma AnsweredFromPool(s: State, r: Request, pick: Option<PeerId>, storing: Storing)
    requires Enabled(s, Route(r, pick, storing)) && r.pool.Some? && !(CarriesSession(r) && r.sid in s.cache)
    ensures pick.Some? ==>
              && pick.value in s.pools && s.pools[pick.value].name == r.pool.value
              && (forall q | q in s.pools && s.pools[q].name == r.pool.value ::
                    s.pools[pick.value].ranking <= s.pools[q].ranking)
    ensures var node := Answer(s, Route(r, pick, storing));
            node.Some? ==> Some(node.value.peer) == pick && node.value.peer in s.nodes
                           && s.nodes[node.value.peer].data == node.value.data
    ensures pick == None <==> forall q | q in s.pools :: s.pools[q].name != r.pool.value
    ensures Answer(s, Route(r, pick, storing)) == None <==>
              pick == None || pick.value !in s.nodes || storing != AllStored
  {
    var t := InPool(r.pool.value);
    assert TargetOf(r) == t;
    forall q | q in s.pools ensures q in Candidates(s, t) <==> s.pools[q].name == r.pool.value {
    }
  }

  /** An answered request that carries a session leaves it cached with the answer; a request without one
      touches no session. */
  lemma SessionsByRequest(s: State, r: Request, pick: Option<PeerId>, storing: Storing)
    requires Enabled(s, Route(r, pick, storing))
    ensures var a := Route(r, pick, storing);
            CarriesSession(r) && Answer(s, a).Some? ==>
              r.sid in Apply(s, a).cache && Some(Apply(s, a).cache[r.sid].node) == Answer(s, a)
    ensures var s' := Apply(s, Route(r, pick, storing));
            !CarriesSession(r) ==> s'.cache == s.cache && s'.sessions == s.sessions && s'.jobs == s.jobs
  {
  }

  /** A reset makes all ranks zero, which is where fair shares start from. */
  lemma ResetEqualizes(s: State, t: Target)
    ensures var s' := Apply(s, if t.InPool? then ResetPools else ResetNodes);
            && EqualRanks(s', t) && Candidates(s', t) == Candidates(s, t)
            && forall p | p in Candidates(s', t) :: Rank(s', t, p) == 0
  {
  }

  /** A node that registers, again or for the first time, is there with its data and no rank, and no other
      row is touched. */
  lemma AddReplaces(s: State, p: PeerId, data: Data, q: PeerId)
    ensures var s' := Apply(s, Add(p, data));
            && p in s'.nodes && s'.nodes[p] == NodeRow(data, 0)
            && (q != p ==> (q in s'.nodes <==> q in s.nodes) && (q in s.nodes ==> s'.nodes[q] == s.nodes[q]))
  {
  }

  /** An answer from the tables, or one that only failed to store its session, raises the rank of its node by
      one, and for a pool that of its row there; no other rank and no other row changes. */
  lemma RanksMove(s: State, r: Request, p: PeerId, storing: Storing, q: PeerId)
    requires Enabled(s, Route(r, Some(p), storing)) && p in s.nodes
    ensures var s' := Apply(s, Route(r, Some(p), storing));
            && s'.nodes.Keys == s.nodes.Keys && s'.pools.Keys == s.pools.Keys
            && (q in s.nodes ==>
                  && s'.nodes[q].data == s.nodes[q].data
                  && s'.nodes[q].ranking == s.nodes[q].ranking + (if q == p then 1 else 0))
            && (q in s.pools ==>
                  && s'.pools[q].name == s.pools[q].name
                  && s'.pools[q].ranking == s.pools[q].ranking + (if q == p && r.pool != None then 1 else 0))
  {
  }
}
