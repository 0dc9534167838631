/** What every step of the router keeps, and what follows for whole runs: rows, removed nodes, and
    the data that sessions hold. */
module RouterSafety {
  import opened Options
  import opened Router

  lemma ExpireKeeps(s: State, job: nat)
    requires Inv(s) && Enabled(s, Expire(job))
    ensures Inv(Apply(s, Expire(job)))
  {
    var s', sid := Apply(s, Expire(job)), s.jobs[job];
    RowsLeft(s.sessions, "", sid);
    forall x | x in s'.sessions ensures HasJob(s', x.sid) {
      var j :| j in s.jobs && s.jobs[j] == x.sid;
      assert j in s'.jobs;
    }
  }

  lemma RouteKeeps(s: State, a: Action)
    requires Inv(s) && Enabled(s, a) && a.Route?
    ensures Inv(Apply(s, a))
  {
    var s' := Apply(s, a);
    forall x | x in s'.sessions ensures HasJob(s', x.sid) && x.peer in s'.nodes {
      if x in s.sessions {
        var j :| j in s.jobs && s.jobs[j] == x.sid;
        assert j in s'.jobs && s'.jobs[j] == x.sid;
      } else {
        assert s.placed in s'.jobs;
      }
    }
  }

  lemma StepKeepsInv(s: State, a: Action)
    requires Inv(s) && Enabled(s, a)
    ensures Inv(Apply(s, a))
  {
    match a
    case Remove(p) => RowsLeft(s.sessions, p, 0);
    case Expire(job) => ExpireKeeps(s, job);
    case Route(_, _, _) => RouteKeeps(s, a);
    case _ =>
  }

  lemma {:induction false} RunKeepsInv(s: State, acts: seq<Action>, s': State)
    requires Inv(s) && IsRun(s, acts, s')
    ensures Inv(s')
    decreases |acts|
  {
    hide Inv;
    if acts != [] {
      StepKeepsInv(s, acts[0]);
      RunKeepsInv(Apply(s, acts[0]), acts[1..], s');
    }
  }

  lemma ReachableInv(acts: seq<Action>, s: State)
    requires IsRun(INIT, acts, s)
    ensures Inv(s)
  {
    assert Inv(INIT);
    RunKeepsInv(INIT, acts, s);
  }

  /** In every reachable state each row has a registered node and a deletion job to come, so that no
      row outlives its timers. */
  lemma RowsAgree(acts: seq<Action>, s: State, x: SessionRow)
    requires IsRun(INIT, acts, s) && x in s.sessions
    ensures x.peer in s.nodes && HasJob(s, x.sid)
  {
    ReachableInv(acts, s);
  }

  // ---------------------------------------------------------------------------
  // Cached sessions and their rows
  // ---------------------------------------------------------------------------

  /** A cached session without a row: neither Remove nor anything else that goes by the rows finds it. */
  ghost predicate Orphan(s: State, sid: Sid) {
    sid in s.cache && SessionRow(s.cache[sid].node.peer, sid) !in s.sessions
  }

  ghost predicate Recorded(s: State) {
    forall sid | sid in s.cache :: !Orphan(s, sid)
  }

  /** Route caches a session and then fails, with no row of the same node left from before. */
  predicate Loses(s: State, a: Action)
    requires Enabled(s, a)
  {
    a.Route? && !a.storing.AllStored? && !SessionHit(s, a.r) && SessionRow(a.pick.value, a.r.sid) !in s.sessions
  }

  /** Exactly when a session comes to be cached without its row. */
  lemma OrphanStep(s: State, a: Action, sid: Sid)
    requires Enabled(s, a) && !Orphan(s, sid)
    ensures Orphan(Apply(s, a), sid) <==> Loses(s, a) && a.r.sid == sid
  {
    var s' := Apply(s, a);
    match a
    case Remove(p) =>
      RowsLeft(s.sessions, p, 0);
    case Expire(job) => RowsLeft(s.sessions, "", s.jobs[job]);
    case _ =>
  }

  lemma RecordedStep(s: State, a: Action)
    requires Enabled(s, a) && Recorded(s)
    ensures Recorded(Apply(s, a)) <==> !Loses(s, a)
  {
    hide Orphan;
    var s' := Apply(s, a);
    forall sid ensures Orphan(s', sid) <==> Loses(s, a) && a.r.sid == sid {
      assert !Orphan(s, sid) by { OrphanIsCached(s, sid); }
      OrphanStep(s, a, sid);
    }
    if Loses(s, a) {
      assert Orphan(s', a.r.sid);
      OrphanIsCached(s', a.r.sid);
    }
  }

  lemma OrphanIsCached(s: State, sid: Sid)
    ensures Orphan(s, sid) ==> sid in s.cache
  {
  }

  ghost predicate AlwaysRecorded(s: State, acts: seq<Action>)
    decreases |acts|
  {
    Recorded(s) && (acts == [] || !Enabled(s, acts[0]) || AlwaysRecorded(Apply(s, acts[0]), acts[1..]))
  }

  ghost predicate NeverLoses(s: State, acts: seq<Action>)
    decreases |acts|
  {
    acts == [] || !Enabled(s, acts[0]) || (!Loses(s, acts[0]) && NeverLoses(Apply(s, acts[0]), acts[1..]))
  }

  lemma {:induction false} RecordedOverRuns(s: State, acts: seq<Action>)
    requires Recorded(s)
    ensures AlwaysRecorded(s, acts) <==> NeverLoses(s, acts)
    decreases |acts|
  {
    hide Recorded, Loses, Apply, Enabled;
    if acts != [] && Enabled(s, acts[0]) {
      RecordedStep(s, acts[0]);
      if Recorded(Apply(s, acts[0])) {
        RecordedOverRuns(Apply(s, acts[0]), acts[1..]);
      }
    }
  }

  /** Cached sessions have their rows throughout a run exactly when no call of Route fails after it has
      cached a session that has no row of the same node yet. */
  lemma SessionsAgree(acts: seq<Action>)
    ensures AlwaysRecorded(INIT, acts) <==> NeverLoses(INIT, acts)
  {
    assert Recorded(INIT);
    RecordedOverRuns(INIT, acts);
  }

  // ---------------------------------------------------------------------------
  // Removed nodes
  // ---------------------------------------------------------------------------

  /** Neither the tables nor a cached session know p. */
  ghost predicate Gone(s: State, p: PeerId) {
    p !in s.nodes && forall sid | sid in s.cache :: s.cache[sid].node.peer != p
  }

  lemma {:induction false} GoneStaysAway(s: State, acts: seq<Action>, s': State, p: PeerId)
    requires IsRun(s, acts, s') && Gone(s, p)
    requires forall i | 0 <= i < |acts| :: !(acts[i].Add? && acts[i].p == p)
    ensures Gone(s', p)
    ensures forall i | 0 <= i < |Answers(s, acts)| && Answers(s, acts)[i].Some? ::
              Answers(s, acts)[i].value.peer != p
    decreases |acts|
  {
    if acts != [] {
      GoneStep(s, acts[0], p);
      hide Gone, Apply, Enabled;
      GoneStaysAway(Apply(s, acts[0]), acts[1..], s', p);
    }
  }

  lemma GoneStep(s: State, a: Action, p: PeerId)
    requires Enabled(s, a) && Gone(s, p) && !(a.Add? && a.p == p)
    ensures Gone(Apply(s, a), p)
    ensures Answer(s, a).Some? ==> Answer(s, a).value.peer != p
  {
  }

  /** Runs in which p is not added again never answer p. */
  ghost predicate StaysAway(s: State, p: PeerId) {
    forall acts: seq<Action>, s': State |
      IsRun(s, acts, s') && forall i | 0 <= i < |acts| :: !(acts[i].Add? && acts[i].p == p) ::
      forall i | 0 <= i < |Answers(s, acts)| && Answers(s, acts)[i].Some? :: Answers(s, acts)[i].value.peer != p
  }

  ghost predicate OrphanOf(s: State, p: PeerId) {
    exists sid :: Orphan(s, sid) && s.cache[sid].node.peer == p
  }

  lemma OrphanSurvives(s: State, p: PeerId, sid: Sid)
    requires Orphan(s, sid) && s.cache[sid].node.peer == p && sid != 0
    ensures !StaysAway(Apply(s, Remove(p)), p)
  {
    var s1 := Apply(s, Remove(p));
    var r := Request(sid, None, None, None, None, None);
    var acts := [Route(r, None, AllStored)];
    assert sid in s1.cache && SessionHit(s1, r);
    assert acts[1..] == [];
    assert IsRun(s1, acts, s1);
    assert Answers(s1, acts)[0] == Some(s.cache[sid].node);
  }

  /** Only sessions with a number are ever cached. */
  lemma {:induction false} NumberedSessions(s: State, acts: seq<Action>, s': State)
    requires 0 !in s.cache && IsRun(s, acts, s')
    ensures 0 !in s'.cache
    decreases |acts|
  {
    if acts != [] {
      NumberedSessions(Apply(s, acts[0]), acts[1..], s');
    }
  }

  /** Whatever happened before, once p is removed no call of Route answers it until it is added again,
      not from the tables, not from a pool, not from a cached session, if and only if no session
      of p was cached without its row. */
  lemma NeverRoutesRemoved(before: seq<Action>, s: State, p: PeerId)
    requires IsRun(INIT, before, s)
    ensures StaysAway(Apply(s, Remove(p)), p) <==> !OrphanOf(s, p)
  {
    var s1 := Apply(s, Remove(p));
    if sid :| Orphan(s, sid) && s.cache[sid].node.peer == p {
      NumberedSessions(INIT, before, s);
      OrphanSurvives(s, p, sid);
    } else {
      assert Gone(s1, p) by {
        assert forall sid | sid in s1.cache :: sid in s.cache && SessionRow(p, sid) !in s.sessions;
        forall sid | sid in s1.cache ensures s1.cache[sid].node.peer != p {
          assert !(Orphan(s, sid) && s.cache[sid].node.peer == p);
        }
      }
      hide Gone, Apply;
      forall acts: seq<Action>, s': State |
        IsRun(s1, acts, s') && forall i | 0 <= i < |acts| :: !(acts[i].Add? && acts[i].p == p)
        ensures forall i | 0 <= i < |Answers(s1, acts)| && Answers(s1, acts)[i].Some? ::
                  Answers(s1, acts)[i].value.peer != p
      {
        GoneStaysAway(s1, acts, s', p);
      }
    }
  }

  // ---------------------------------------------------------------------------
  // Fresh data
  // ---------------------------------------------------------------------------

  predicate FreshEntry(s: State, sid: Sid)
    requires sid in s.cache
  {
    var node := s.cache[sid].node;
    node.peer in s.nodes && s.nodes[node.peer].data == node.data
  }

  /** Every cached session holds what the table says about its node. */
  ghost predicate Fresh(s: State) {
    forall sid | sid in s.cache :: FreshEntry(s, sid)
  }

  /** What makes a cached session stale: its node is registered again with other data, or removed while
      the session has no row. */
  ghost predicate Spoils(s: State, a: Action)
    requires Enabled(s, a)
  {
    match a
    case Add(p, data) => exists sid :: sid in s.cache && s.cache[sid].node.peer == p && s.cache[sid].node.data != data
    case Remove(p) => OrphanOf(s, p)
    case _ => false
  }

  lemma AddSpoils(s: State, p: PeerId, data: Data)
    requires Fresh(s)
    ensures Fresh(Apply(s, Add(p, data))) <==> !Spoils(s, Add(p, data))
  {
    var s' := Apply(s, Add(p, data));
    if sid :| sid in s.cache && s.cache[sid].node.peer == p && s.cache[sid].node.data != data {
      assert !FreshEntry(s', sid);
    }
  }

  lemma RemoveSpoils(s: State, p: PeerId)
    requires Fresh(s)
    ensures Fresh(Apply(s, Remove(p))) <==> !Spoils(s, Remove(p))
  {
    var s' := Apply(s, Remove(p));
    if sid :| Orphan(s, sid) && s.cache[sid].node.peer == p {
      assert sid in s'.cache && !FreshEntry(s', sid);
    } else {
      forall sid | sid in s'.cache ensures FreshEntry(s', sid) {
        assert FreshEntry(s, sid);
        assert !(Orphan(s, sid) && s.cache[sid].node.peer == p);
      }
    }
  }

  lemma OthersKeepFresh(s: State, a: Action)
    requires Fresh(s) && Enabled(s, a) && !a.Add? && !a.Remove?
    ensures Fresh(Apply(s, a))
  {
    var s' := Apply(s, a);
    forall sid | sid in s'.cache ensures FreshEntry(s', sid) {
      assert sid in s.cache ==> FreshEntry(s, sid);
    }
  }

  ghost predicate AlwaysFresh(s: State, acts: seq<Action>)
    decreases |acts|
  {
    Fresh(s) && (acts == [] || !Enabled(s, acts[0]) || AlwaysFresh(Apply(s, acts[0]), acts[1..]))
  }

  ghost predicate NeverSpoils(s: State, acts: seq<Action>)
    decreases |acts|
  {
    acts == [] || !Enabled(s, acts[0]) || (!Spoils(s, acts[0]) && NeverSpoils(Apply(s, acts[0]), acts[1..]))
  }

  lemma SpoilsExactly(s: State, a: Action)
    requires Fresh(s) && Enabled(s, a)
    ensures Fresh(Apply(s, a)) <==> !Spoils(s, a)
  {
    hide Fresh, Apply;
    match a
    case Add(p, data) => AddSpoils(s, p, data);
    case Remove(p) => RemoveSpoils(s, p);
    case _ => OthersKeepFresh(s, a);
  }

  lemma {:induction false} FreshFrom(s: State, acts: seq<Action>)
    requires Fresh(s)
    ensures AlwaysFresh(s, acts) <==> NeverSpoils(s, acts)
    decreases |acts|
  {
    hide Fresh, Spoils, Apply, Enabled;
    if acts != [] && Enabled(s, acts[0]) {
      SpoilsExactly(s, acts[0]);
      if Fresh(Apply(s, acts[0])) {
        FreshFrom(Apply(s, acts[0]), acts[1..]);
      }
    }
  }

  /** Cached sessions hold what the table says throughout a run exactly when no node is registered
      again with other data, or removed with a session it has no row for, while one of its sessions is cached. */
  lemma FreshOverRuns(acts: seq<Action>)
    ensures AlwaysFresh(INIT, acts) <==> NeverSpoils(INIT, acts)
  {
    assert Fresh(INIT);
    FreshFrom(INIT, acts);
  }

  const HOME := Data("us", "ny", "nyc", "1.1.1.1", "")
  const AWAY := Data("de", "be", "berlin", "2.2.2.2", "")
  const SESSION := Request(7, None, None, Some("us"), None, None)

  /** A node moves and registers again; a session that asked for its old country still gets it. */
  lemma StaleSession(p: PeerId)
    ensures var acts := [Add(p, HOME), Route(SESSION, Some(p), AllStored), Add(p, AWAY)];
            var last := Route(SESSION, None, AllStored);
            var s' := Apply(Apply(Apply(INIT, acts[0]), acts[1]), acts[2]);
            && IsRun(INIT, acts, s') && Enabled(s', last)
            && s'.nodes[p].data == AWAY && Answer(s', last) == Some(Node(p, HOME))
  {
    var a0, a1, a2 := Add(p, HOME), Route(SESSION, Some(p), AllStored), Add(p, AWAY);
    var s1 := Apply(INIT, a0);
    assert TargetOf(SESSION) == InCountry("us");
    assert CanPick(s1, InCountry("us"), p);
    var s2 := Apply(s1, a1);
    var s3 := Apply(s2, a2);
    assert [a0, a1, a2][1..] == [a1, a2] && [a1, a2][1..] == [a2] && [a2][1..] == [];
    assert IsRun(s3, [], s3);
    assert IsRun(s2, [a2], s3);
    assert IsRun(s1, [a1, a2], s3);
    assert IsRun(INIT, [a0, a1, a2], s3);
  }
}
