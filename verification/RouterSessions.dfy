/** How long a session lasts: what ends it, what can end it before its own time, and how the leftovers
    that can do so come about. */
module RouterSessions {
  import opened Options
  import opened Router
  import opened RouterSafety

  // ---------------------------------------------------------------------------
  // Until it ends, a session sticks
  // ---------------------------------------------------------------------------

  /** A deletion job for the session fires, whichever placement scheduled it, the cache forgets the entry, or
      any node is removed that has a row for the session. */
  predicate Ends(s: State, a: Action, sid: Sid)
    requires Enabled(s, a)
  {
    match a
    case Expire(job) => s.jobs[job] == sid
    case Evict(v) => v == sid
    case Remove(p) => SessionRow(p, sid) in s.sessions
    case _ => false
  }

  lemma EndsExactly(s: State, a: Action, sid: Sid)
    requires Enabled(s, a) && sid in s.cache
    ensures sid in Apply(s, a).cache && Apply(s, a).cache[sid] == s.cache[sid] <==> !Ends(s, a, sid)
  {
  }

  ghost predicate Undisturbed(s: State, acts: seq<Action>, sid: Sid)
    decreases |acts|
  {
    acts == [] || (Enabled(s, acts[0]) && !Ends(s, acts[0], sid) && Undisturbed(Apply(s, acts[0]), acts[1..], sid))
  }

  /** A session answers the same node, with the data it had when it was picked, to every request
      that carries it, wherever that request wants to go, until something ends it. */
  lemma {:induction false} SessionSticks(s: State, acts: seq<Action>, sid: Sid, i: nat)
    requires sid in s.cache && Undisturbed(s, acts, sid) && i < |Answers(s, acts)|
    requires acts[i].Route? && WantsSession(acts[i].r) && acts[i].r.sid == sid
    ensures Answers(s, acts)[i] == Some(s.cache[sid].node)
    decreases |acts|
  {
    EndsExactly(s, acts[0], sid);
    if i > 0 {
      SessionSticks(Apply(s, acts[0]), acts[1..], sid, i - 1);
    }
  }

  /** A first answer starts the session: the next request that carries it gets the same node. */
  lemma FirstAnswerStarts(s: State, a: Action, b: Action)
    requires Enabled(s, a) && a.Route? && WantsSession(a.r) && Answer(s, a).Some?
    requires Enabled(Apply(s, a), b) && b.Route? && WantsSession(b.r) && b.r.sid == a.r.sid
    ensures Answer(Apply(s, a), b) == Answer(s, a) && Apply(Apply(s, a), b) == Apply(s, a)
  {
  }

  // ---------------------------------------------------------------------------
  // Ends before its time
  // ---------------------------------------------------------------------------

  /** The ends that are the session's own: its job, the removal of its node, or an eviction. */
  predicate OwnEnd(s: State, a: Action, sid: Sid)
    requires sid in s.cache
  {
    a == Expire(s.cache[sid].job) || a == Remove(s.cache[sid].node.peer) || a == Evict(sid)
  }

  ghost predicate CanEndEarly(s: State, sid: Sid) {
    sid in s.cache && exists a :: Enabled(s, a) && Ends(s, a, sid) && !OwnEnd(s, a, sid)
  }

  /** A job of the session that is not the current placement's. */
  ghost predicate OldJob(s: State, sid: Sid) {
    exists j :: j in s.jobs && s.jobs[j] == sid && !(sid in s.cache && s.cache[sid].job == j)
  }

  /** A row of the session that is not the current node's. */
  ghost predicate OldRow(s: State, sid: Sid) {
    exists x :: x in s.sessions && x.sid == sid && !(sid in s.cache && s.cache[sid].node.peer == x.peer)
  }

  ghost predicate Tidy(s: State, sid: Sid) {
    !OldJob(s, sid) && !OldRow(s, sid)
  }

  /** A cached session can be ended by a job or a node that is not its own if and only if an earlier job
      for it is still pending or another node has a row for it. */
  lemma EndsEarlyExactly(s: State, sid: Sid)
    requires sid in s.cache
    ensures CanEndEarly(s, sid) <==> !Tidy(s, sid)
  {
    if j :| j in s.jobs && s.jobs[j] == sid && s.cache[sid].job != j {
      assert Enabled(s, Expire(j)) && Ends(s, Expire(j), sid) && !OwnEnd(s, Expire(j), sid);
    }
    if x :| x in s.sessions && x.sid == sid && x.peer != s.cache[sid].node.peer {
      assert x == SessionRow(x.peer, sid);
      assert Enabled(s, Remove(x.peer)) && Ends(s, Remove(x.peer), sid) && !OwnEnd(s, Remove(x.peer), sid);
    }
    if a :| Enabled(s, a) && Ends(s, a, sid) && !OwnEnd(s, a, sid) {
      assert a.Remove? ==> SessionRow(a.p, sid).peer != s.cache[sid].node.peer;
    }
  }

  // ---------------------------------------------------------------------------
  // How leftovers come about
  // ---------------------------------------------------------------------------

  /** The session is taken from the cache by something that does not clear its jobs: an eviction while
      one is pending, or the removal of its node. */
  ghost predicate LeavesBehind(s: State, a: Action, sid: Sid) {
    (a == Evict(sid) && HasJob(s, sid)) || (a.Remove? && SessionRow(a.p, sid) in s.sessions)
  }

  lemma EvictTidy(s: State, sid: Sid, v: Sid)
    requires Inv(s) && Tidy(s, sid)
    ensures Tidy(Apply(s, Evict(v)), sid) <==> !LeavesBehind(s, Evict(v), sid)
  {
    var s' := Apply(s, Evict(v));
    if v == sid {
      if j :| j in s.jobs && s.jobs[j] == sid {
        assert j in s'.jobs;
      } else {
        assert forall x | x in s.sessions :: HasJob(s, x.sid);
      }
    }
  }

  lemma RemoveTidy(s: State, sid: Sid, p: PeerId)
    requires Inv(s) && Tidy(s, sid)
    ensures Tidy(Apply(s, Remove(p)), sid) <==> !LeavesBehind(s, Remove(p), sid)
  {
    var s' := Apply(s, Remove(p));
    RowsLeft(s.sessions, p, 0);
    if SessionRow(p, sid) in s.sessions {
      assert HasJob(s, SessionRow(p, sid).sid);
      var j :| j in s.jobs && s.jobs[j] == sid;
      assert j in s'.jobs && sid !in s'.cache;
    }
  }

  lemma ExpireTidy(s: State, sid: Sid, job: nat)
    requires Inv(s) && Tidy(s, sid) && Enabled(s, Expire(job))
    ensures Tidy(Apply(s, Expire(job)), sid)
  {
    RowsLeft(s.sessions, "", s.jobs[job]);
  }

  lemma RouteTidy(s: State, sid: Sid, a: Action)
    requires Inv(s) && Tidy(s, sid) && Enabled(s, a) && a.Route?
    ensures Tidy(Apply(s, a), sid)
  {
    var s' := Apply(s, a);
    if WantsSession(a.r) && a.r.sid == sid && !SessionHit(s, a.r) {
      assert forall x | x in s.sessions :: x.sid != sid;
      assert forall j | j in s.jobs :: s.jobs[j] != sid;
    }
  }

  /** Exactly what leaves a job or a row of a session behind. */
  lemma TidyStep(s: State, a: Action, sid: Sid)
    requires Inv(s) && Enabled(s, a) && Tidy(s, sid)
    ensures Tidy(Apply(s, a), sid) <==> !LeavesBehind(s, a, sid)
  {
    match a
    case Evict(v) => EvictTidy(s, sid, v);
    case Remove(p) => RemoveTidy(s, sid, p);
    case Expire(job) => ExpireTidy(s, sid, job);
    case Route(_, _, _) => RouteTidy(s, sid, a);
    case _ =>
  }

  ghost predicate AlwaysTidy(s: State, acts: seq<Action>, sid: Sid)
    decreases |acts|
  {
    Tidy(s, sid) && (acts == [] || !Enabled(s, acts[0]) || AlwaysTidy(Apply(s, acts[0]), acts[1..], sid))
  }

  ghost predicate NeverLeavesBehind(s: State, acts: seq<Action>, sid: Sid)
    decreases |acts|
  {
    acts == [] || !Enabled(s, acts[0])
    || (!LeavesBehind(s, acts[0], sid) && NeverLeavesBehind(Apply(s, acts[0]), acts[1..], sid))
  }

  lemma {:induction false} TidyFrom(s: State, acts: seq<Action>, sid: Sid)
    requires Inv(s) && Tidy(s, sid)
    ensures AlwaysTidy(s, acts, sid) <==> NeverLeavesBehind(s, acts, sid)
    decreases |acts|
  {
    hide Inv, Tidy, LeavesBehind, Apply, Enabled;
    if acts != [] && Enabled(s, acts[0]) {
      TidyStep(s, acts[0], sid);
      StepKeepsInv(s, acts[0]);
      if Tidy(Apply(s, acts[0]), sid) {
        TidyFrom(Apply(s, acts[0]), acts[1..], sid);
      }
    }
  }

  /** A session has no leftovers throughout a run, and so only its own ends, exactly when the run never evicts
      it while a job is pending, and never removes a node with a row for it. */
  lemma NoLeftovers(acts: seq<Action>, sid: Sid)
    ensures AlwaysTidy(INIT, acts, sid) <==> NeverLeavesBehind(INIT, acts, sid)
  {
    assert Inv(INIT) && Tidy(INIT, sid);
    TidyFrom(INIT, acts, sid);
  }

  // ---------------------------------------------------------------------------
  // When they matter
  // ---------------------------------------------------------------------------

  /** The session is placed on the node that was picked. */
  predicate Places(s: State, a: Action, sid: Sid)
    requires Enabled(s, a)
  {
    a.Route? && WantsSession(a.r) && a.r.sid == sid && sid !in s.cache && a.pick.Some? && a.pick.value in s.nodes
  }

  /** A placement while a job of the session is pending, or another node than the one picked has a row. */
  ghost predicate PlacesOverLeftovers(s: State, a: Action, sid: Sid)
    requires Enabled(s, a)
  {
    Places(s, a, sid) && (HasJob(s, sid) || exists x :: x in s.sessions && x.sid == sid && x.peer != a.pick.value)
  }

  lemma PlaceStep(s: State, a: Action, sid: Sid)
    requires Inv(s) && Enabled(s, a) && Places(s, a, sid)
    ensures CanEndEarly(Apply(s, a), sid) <==> PlacesOverLeftovers(s, a, sid)
  {
    hide CanEndEarly;
    var s' := Apply(s, a);
    EndsEarlyExactly(s', sid);
    if j :| j in s.jobs && s.jobs[j] == sid {
      assert j in s'.jobs && s'.jobs[j] == sid && s'.cache[sid].job != j;
    }
    if x :| x in s.sessions && x.sid == sid && x.peer != a.pick.value {
      assert x in s'.sessions;
    }
    if x :| x in s'.sessions && x.sid == sid && x.peer != a.pick.value {
      assert x in s.sessions;
    }
  }

  lemma OthersEndanger(s: State, a: Action, sid: Sid)
    requires Inv(s) && Enabled(s, a) && !Places(s, a, sid) && !CanEndEarly(s, sid)
    ensures !CanEndEarly(Apply(s, a), sid)
  {
    hide CanEndEarly;
    var s' := Apply(s, a);
    if sid in s'.cache {
      assert sid in s.cache && s'.cache[sid] == s.cache[sid] by { OnlyPlacesCache(s, a, sid); }
      EndsEarlyExactly(s, sid);
      EndsEarlyExactly(s', sid);
      TidyStep(s, a, sid);
    } else {
      assert !CanEndEarly(s', sid) by { NotCached(s', sid); }
    }
  }

  lemma OnlyPlacesCache(s: State, a: Action, sid: Sid)
    requires Enabled(s, a) && !Places(s, a, sid) && sid in Apply(s, a).cache
    ensures sid in s.cache && Apply(s, a).cache[sid] == s.cache[sid] && !LeavesBehind(s, a, sid)
  {
  }

  lemma NotCached(s: State, sid: Sid)
    ensures CanEndEarly(s, sid) ==> sid in s.cache
  {
  }

  ghost predicate NeverEndangered(s: State, acts: seq<Action>, sid: Sid)
    decreases |acts|
  {
    !CanEndEarly(s, sid)
    && (acts == [] || !Enabled(s, acts[0]) || NeverEndangered(Apply(s, acts[0]), acts[1..], sid))
  }

  ghost predicate NeverPlacesOverLeftovers(s: State, acts: seq<Action>, sid: Sid)
    decreases |acts|
  {
    acts == [] || !Enabled(s, acts[0])
    || (!PlacesOverLeftovers(s, acts[0], sid) && NeverPlacesOverLeftovers(Apply(s, acts[0]), acts[1..], sid))
  }

  lemma {:induction false} EndangeredFrom(s: State, acts: seq<Action>, sid: Sid)
    requires Inv(s) && !CanEndEarly(s, sid)
    ensures NeverEndangered(s, acts, sid) <==> NeverPlacesOverLeftovers(s, acts, sid)
    decreases |acts|
  {
    hide Inv, CanEndEarly, HasJob, Apply, Enabled;
    if acts != [] && Enabled(s, acts[0]) {
      var s' := Apply(s, acts[0]);
      if Places(s, acts[0], sid) {
        PlaceStep(s, acts[0], sid);
      } else {
        OthersEndanger(s, acts[0], sid);
      }
      StepKeepsInv(s, acts[0]);
      if !CanEndEarly(s', sid) {
        EndangeredFrom(s', acts[1..], sid);
      }
    }
  }

  /** A session can be ended early at some moment of a run exactly when the run places it while a job of it
      is pending or a node other than the new one has a row for it. */
  lemma EarlyEndsOverRuns(acts: seq<Action>, sid: Sid)
    ensures NeverEndangered(INIT, acts, sid) <==> NeverPlacesOverLeftovers(INIT, acts, sid)
  {
    assert Inv(INIT) && !CanEndEarly(INIT, sid);
    EndangeredFrom(INIT, acts, sid);
  }

  // ---------------------------------------------------------------------------
  // It happens
  // ---------------------------------------------------------------------------

  lemma RunSnoc(s: State, acts: seq<Action>, mid: State, a: Action)
    requires IsRun(s, acts, mid) && Enabled(mid, a)
    ensures IsRun(s, acts + [a], Apply(mid, a))
    decreases |acts|
  {
    hide Apply, Enabled;
    if acts == [] {
      assert ([] + [a])[1..] == [];
    } else {
      RunSnoc(Apply(s, acts[0]), acts[1..], mid, a);
      assert (acts + [a])[1..] == acts[1..] + [a];
    }
  }

  lemma EvictedSession(p: PeerId) returns (acts: seq<Action>, s: State)
    ensures IsRun(INIT, acts, s)
    ensures s == State(map[p := NodeRow(HOME, 1)], map[], [SessionRow(p, 7)], map[], map[0 := 7], 1)
  {
    var a1 := Route(SESSION, Some(p), AllStored);
    assert TargetOf(SESSION) == InCountry("us");
    var s1 := Apply(INIT, Add(p, HOME));
    RunSnoc(INIT, [], INIT, Add(p, HOME));
    assert CanPick(s1, InCountry("us"), p);
    var s2 := Apply(s1, a1);
    acts := [] + [Add(p, HOME)];
    RunSnoc(INIT, acts, s1, a1);
    acts := acts + [a1];
    s := Apply(s2, Evict(7));
    RunSnoc(INIT, acts, s2, Evict(7));
    acts := acts + [Evict(7)];
  }

  lemma PlacedAgain(p: PeerId, q: PeerId, s: State) returns (s': State)
    requires p != q && s == State(map[p := NodeRow(HOME, 1)], map[], [SessionRow(p, 7)], map[], map[0 := 7], 1)
    ensures var a := Route(SESSION, Some(q), AllStored);
            && Enabled(Apply(s, Add(q, HOME)), a) && s' == Apply(Apply(s, Add(q, HOME)), a)
    ensures s'.cache == map[7 := Entry(Node(q, HOME), 1)] && s'.jobs == map[0 := 7, 1 := 7]
    ensures s'.sessions == [SessionRow(p, 7)] + [SessionRow(q, 7)]
  {
    assert TargetOf(SESSION) == InCountry("us");
    var s1 := Apply(s, Add(q, HOME));
    assert CanPick(s1, InCountry("us"), q);
    s' := Apply(s1, Route(SESSION, Some(q), AllStored));
  }

  /** The entry is evicted and the session goes to another node: the first job and the removal of the first
      node each end it there. */
  lemma EarlyEnd(p: PeerId, q: PeerId) returns (acts: seq<Action>, s: State)
    requires p != q
    ensures IsRun(INIT, acts, s) && 7 in s.cache && s.cache[7].node.peer == q && s.cache[7].job == 1
    ensures s.jobs == map[0 := 7, 1 := 7] && SessionRow(p, 7) in s.sessions
    ensures 7 !in Apply(s, Expire(0)).cache && 7 !in Apply(s, Remove(p)).cache
  {
    var before, mid := EvictedSession(p);
    s := PlacedAgain(p, q, mid);
    acts := before + [Add(q, HOME)] + [Route(SESSION, Some(q), AllStored)];
    assert IsRun(INIT, acts, s) by {
      hide Apply, Enabled, IsRun;
      assert Enabled(mid, Add(q, HOME)) by { AlwaysAdds(mid, q); }
      RunSnoc(INIT, before, mid, Add(q, HOME));
      RunSnoc(INIT, before + [Add(q, HOME)], Apply(mid, Add(q, HOME)), Route(SESSION, Some(q), AllStored));
    }
  }

  lemma AlwaysAdds(s: State, p: PeerId)
    ensures Enabled(s, Add(p, HOME))
  {
  }

  /** Route caches a session and fails before the row; after the removal of the node it still answers it. */
  lemma RemovedStillRouted(p: PeerId) returns (acts: seq<Action>, s: State)
    ensures IsRun(INIT, acts, s) && p !in s.nodes && acts != [] && acts[|acts| - 1] == Remove(p)
    ensures var again := Route(SESSION, None, AllStored);
            Enabled(s, again) && Answer(s, again) == Some(Node(p, HOME))
  {
    var a1 := Route(SESSION, Some(p), NotRecorded);
    assert TargetOf(SESSION) == InCountry("us");
    var s1 := Apply(INIT, Add(p, HOME));
    RunSnoc(INIT, [], INIT, Add(p, HOME));
    assert CanPick(s1, InCountry("us"), p);
    var s2 := Apply(s1, a1);
    acts := [] + [Add(p, HOME)];
    RunSnoc(INIT, acts, s1, a1);
    acts := acts + [a1];
    s := Apply(s2, Remove(p));
    RunSnoc(INIT, acts, s2, Remove(p));
    acts := acts + [Remove(p)];
  }
}
