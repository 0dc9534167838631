/** When a pool answers: rows of peers that are not registered, over runs of Route. */
module RouterPools {
  import opened Counting
  import opened Options
  import opened Router

  /** A request for the pool that carries no session. */
  predicate ForPool(r: Request, name: string) {
    r.pool == Some(name) && !WantsSession(r)
  }

  /** Whichever least-ranked row the query returns, a request that does not hit a session is answered,
      exactly when the pool has rows and all its least-ranked ones are registered. */
  lemma AlwaysAnswered(s: State, r: Request, name: string)
    requires r.pool == Some(name) && !SessionHit(s, r)
    ensures (forall pick | Enabled(s, Route(r, pick, AllStored)) :: Answer(s, Route(r, pick, AllStored)).Some?)
       <==> Candidates(s, InPool(name)) != {} && forall p | CanPick(s, InPool(name), p) :: p in s.nodes
  {
    assert TargetOf(r) == InPool(name);
    if Candidates(s, InPool(name)) == {} {
      assert Enabled(s, Route(r, None, AllStored));
    }
    if p :| CanPick(s, InPool(name), p) && p !in s.nodes {
      assert Enabled(s, Route(r, Some(p), AllStored));
    }
  }

  ghost predicate RoutesOnly(acts: seq<Action>) {
    forall i | 0 <= i < |acts| :: acts[i].Route?
  }

  /** The rows of a pool and the registered nodes are not changed by requests. */
  lemma RouteKeepsRows(s: State, a: Action, name: string)
    requires Enabled(s, a) && a.Route?
    ensures Candidates(Apply(s, a), InPool(name)) == Candidates(s, InPool(name))
    ensures Apply(s, a).nodes.Keys == s.nodes.Keys
  {
  }

  lemma {:induction false} AllAnswered(s: State, acts: seq<Action>, s': State)
    requires IsRun(s, acts, s')
    ensures |Answers(s, acts)| == |acts|
    decreases |acts|
  {
    hide Enabled, Apply, Answer;
    if acts != [] {
      AllAnswered(Apply(s, acts[0]), acts[1..], s');
    }
  }

  // ---------------------------------------------------------------------------
  // All rows registered
  // ---------------------------------------------------------------------------

  /** A pool with rows, all of registered nodes, answers every request in every run of Route, unless storing
      the session it asks for fails. */
  lemma {:induction false} RegisteredPoolAnswers(s: State, acts: seq<Action>, s': State, name: string, i: nat)
    requires {} < Candidates(s, InPool(name)) <= s.nodes.Keys
    requires IsRun(s, acts, s') && RoutesOnly(acts)
    requires i < |Answers(s, acts)| && acts[i].r.pool == Some(name)
    ensures Answers(s, acts)[i].Some? <==> acts[i].storing.AllStored?
    ensures !WantsSession(acts[i].r) ==> acts[i].storing.AllStored?
    decreases |acts|
  {
    RouteKeepsRows(s, acts[0], name);
    if i == 0 {
      assert acts[0].r.pool == Some(name) ==> TargetOf(acts[0].r) == InPool(name);
    } else {
      hide Enabled, Apply, Answer, Candidates;
      RegisteredPoolAnswers(Apply(s, acts[0]), acts[1..], s', name, i - 1);
    }
  }

  // ---------------------------------------------------------------------------
  // Some row not registered
  // ---------------------------------------------------------------------------

  /** The pool has rows, but no least-ranked one is registered. */
  ghost predicate Stuck(s: State, name: string) {
    Candidates(s, InPool(name)) != {} && forall p | CanPick(s, InPool(name), p) :: p !in s.nodes
  }

  lemma OtherRoutesKeepRanks(s: State, a: Action, name: string, q: PeerId)
    requires Enabled(s, a) && a.Route? && q in Candidates(s, InPool(name))
    ensures q in Candidates(Apply(s, a), InPool(name))
    ensures Rank(Apply(s, a), InPool(name), q)
         == Rank(s, InPool(name), q) + B(Picks(s, a, name) && a.pick == Some(q))
  {
  }

  lemma StuckStep(s: State, a: Action, name: string)
    requires Enabled(s, a) && a.Route? && Stuck(s, name)
    ensures Stuck(Apply(s, a), name) && !Picks(s, a, name)
    ensures ForPool(a.r, name) ==> Answer(s, a) == None
  {
    var s' := Apply(s, a);
    RouteKeepsRows(s, a, name);
    assert a.r.pool == Some(name) ==> TargetOf(a.r) == InPool(name);
    forall q | q in Candidates(s, InPool(name))
      ensures Rank(s', InPool(name), q) == Rank(s, InPool(name), q)
    {
      OtherRoutesKeepRanks(s, a, name, q);
    }
    forall p | CanPick(s', InPool(name), p) ensures p !in s'.nodes {
      assert CanPick(s, InPool(name), p) by {
        forall q | q in Candidates(s, InPool(name)) ensures Rank(s, InPool(name), p) <= Rank(s, InPool(name), q) {
          assert q in Candidates(s', InPool(name));
        }
      }
    }
  }

  /** The statement meant to delete such a row lacks its parameter, so as long as only Route is called
      a stuck pool stays stuck and fails every request without a session. */
  lemma {:induction false} StuckForGood(s: State, acts: seq<Action>, s': State, name: string)
    requires IsRun(s, acts, s') && RoutesOnly(acts) && Stuck(s, name)
    ensures Stuck(s', name)
    ensures forall i | 0 <= i < |Answers(s, acts)| && ForPool(acts[i].r, name) :: Answers(s, acts)[i] == None
    decreases |acts|
  {
    hide Stuck, Enabled, Apply, Answer;
    if acts != [] {
      StuckStep(s, acts[0], name);
      StuckForGood(Apply(s, acts[0]), acts[1..], s', name);
    }
  }

  /** Adding a peer that is not registered is enough. */
  lemma StuckReachable(name: string, p: PeerId)
    ensures Stuck(Apply(INIT, PoolAdd(name, [p])), name)
  {
    assert [p][1..] == [];
    assert AddToPool(map[], name, [p]) == AddToPool(map[p := PoolRow(name, 0)], name, []);
    assert p in Candidates(Apply(INIT, PoolAdd(name, [p])), InPool(name));
  }

  // ---------------------------------------------------------------------------
  // How often such a pool can still answer
  // ---------------------------------------------------------------------------

  /** Does the request get a new node from the pool? */
  predicate Picks(s: State, a: Action, name: string)
    requires Enabled(s, a)
  {
    a.Route? && a.r.pool == Some(name) && !SessionHit(s, a.r) && a.pick.Some? && a.pick.value in s.nodes
  }

  ghost function PicksIn(s: State, acts: seq<Action>, name: string): nat
    decreases |acts|
  {
    if acts == [] || !Enabled(s, acts[0]) then 0
    else B(Picks(s, acts[0], name)) + PicksIn(Apply(s, acts[0]), acts[1..], name)
  }

  ghost function SumOf(ps: set<PeerId>, f: PeerId -> nat): nat {
    if ps == {} then 0 else var p :| p in ps; f(p) + SumOf(ps - {p}, f)
  }

  lemma {:induction false} SumRemove(ps: set<PeerId>, f: PeerId -> nat, q: PeerId)
    requires q in ps
    ensures SumOf(ps, f) == f(q) + SumOf(ps - {q}, f)
    decreases ps
  {
    var p :| p in ps && SumOf(ps, f) == f(p) + SumOf(ps - {p}, f);
    if p != q {
      SumRemove(ps - {p}, f, q);
      SumRemove(ps - {q}, f, p);
      assert ps - {p} - {q} == ps - {q} - {p};
    }
  }

  lemma {:induction false} SumSame(ps: set<PeerId>, f: PeerId -> nat, g: PeerId -> nat)
    requires forall p | p in ps :: f(p) == g(p)
    ensures SumOf(ps, f) == SumOf(ps, g)
    decreases ps
  {
    if ps != {} {
      var p :| p in ps && SumOf(ps, f) == f(p) + SumOf(ps - {p}, f);
      SumRemove(ps, g, p);
      SumSame(ps - {p}, f, g);
    }
  }

  /** How often a registered row can be picked before it ranks above the limit. */
  function Left(s: State, name: string, limit: nat): PeerId -> nat {
    q => if q in Candidates(s, InPool(name)) && q in s.nodes && Rank(s, InPool(name), q) <= limit
         then limit + 1 - Rank(s, InPool(name), q) else 0
  }

  /** The picks a pool has left before the unregistered row p is below all registered ones. */
  ghost function Budget(s: State, name: string, p: PeerId): nat
    requires p in Candidates(s, InPool(name))
  {
    SumOf(Candidates(s, InPool(name)), Left(s, name, Rank(s, InPool(name), p)))
  }

  lemma BudgetStep(s: State, a: Action, name: string, p: PeerId)
    requires Enabled(s, a) && a.Route? && p in Candidates(s, InPool(name)) && p !in s.nodes
    ensures var s' := Apply(s, a);
            && p in Candidates(s', InPool(name)) && p !in s'.nodes
            && Budget(s', name, p) + B(Picks(s, a, name)) == Budget(s, name, p)
  {
    var s', t := Apply(s, a), InPool(name);
    RouteKeepsRows(s, a, name);
    var cand := Candidates(s, t);
    forall q | q in cand ensures Rank(s', t, q) == Rank(s, t, q) + B(Picks(s, a, name) && a.pick == Some(q)) {
      OtherRoutesKeepRanks(s, a, name, q);
    }
    var f, g := Left(s, name, Rank(s, t, p)), Left(s', name, Rank(s', t, p));
    if Picks(s, a, name) {
      var q := a.pick.value;
      assert TargetOf(a.r) == t && CanPick(s, t, q);
      SumRemove(cand, f, q);
      SumRemove(cand, g, q);
      SumSame(cand - {q}, f, g);
    } else {
      SumSame(cand, f, g);
    }
  }

  /** Each new node the pool answers uses up one of a fixed number of picks, whatever else is routed. */
  lemma {:induction false} PicksUseBudget(s: State, acts: seq<Action>, s': State, name: string, p: PeerId)
    requires IsRun(s, acts, s') && RoutesOnly(acts)
    requires p in Candidates(s, InPool(name)) && p !in s.nodes
    ensures p in Candidates(s', InPool(name)) && p !in s'.nodes
    ensures Budget(s', name, p) + PicksIn(s, acts, name) == Budget(s, name, p)
    decreases |acts|
  {
    hide Budget, Enabled, Apply, Picks, Candidates;
    if acts != [] {
      BudgetStep(s, acts[0], name, p);
      PicksUseBudget(Apply(s, acts[0]), acts[1..], s', name, p);
    }
  }

  lemma SpentIsStuck(s: State, name: string, p: PeerId)
    requires p in Candidates(s, InPool(name)) && p !in s.nodes && Budget(s, name, p) == 0
    ensures Stuck(s, name)
  {
    var t := InPool(name);
    forall q | CanPick(s, t, q) ensures q !in s.nodes {
      SumRemove(Candidates(s, t), Left(s, name, Rank(s, t, p)), q);
    }
  }

  /** Once it has answered that often, a pool with an unregistered row is stuck. */
  lemma EnoughPicksStick(s: State, acts: seq<Action>, s': State, name: string, p: PeerId)
    requires IsRun(s, acts, s') && RoutesOnly(acts)
    requires p in Candidates(s, InPool(name)) && p !in s.nodes
    ensures PicksIn(s, acts, name) <= Budget(s, name, p)
    ensures PicksIn(s, acts, name) == Budget(s, name, p) ==> Stuck(s', name)
  {
    hide Stuck, Budget;
    PicksUseBudget(s, acts, s', name, p);
    if PicksIn(s, acts, name) == Budget(s, name, p) {
      SpentIsStuck(s', name, p);
    }
  }

  // ---------------------------------------------------------------------------
  // The exact condition
  // ---------------------------------------------------------------------------

  ghost predicate NoFailure(s: State, acts: seq<Action>, name: string)
    requires RoutesOnly(acts)
  {
    forall i | 0 <= i < |Answers(s, acts)| && ForPool(acts[i].r, name) :: Answers(s, acts)[i].Some?
  }

  /** No run of Route ever fails a request for the pool that carries no session. */
  ghost predicate NeverFails(s: State, name: string) {
    forall acts: seq<Action>, s': State | IsRun(s, acts, s') && RoutesOnly(acts) :: NoFailure(s, acts, name)
  }

  function PoolRequest(name: string): Request {
    Request(0, Some(name), None, None, None, None)
  }

  /** Requests for the pool until one fails. */
  lemma {:induction false} FailingRun(s: State, name: string, p: PeerId) returns (acts: seq<Action>, s': State)
    requires p in Candidates(s, InPool(name)) && p !in s.nodes
    ensures IsRun(s, acts, s') && RoutesOnly(acts) && !NoFailure(s, acts, name)
    decreases Budget(s, name, p)
  {
    var r, t := PoolRequest(name), InPool(name);
    assert TargetOf(r) == t;
    var least := LeastExists(s, t, Candidates(s, t));
    var a := Route(r, Some(least), AllStored);
    var s1 := Apply(s, a);
    BudgetStep(s, a, name, p);
    if least in s.nodes {
      assert Picks(s, a, name);
      var rest;
      rest, s' := FailingRun(s1, name, p);
      acts := [a] + rest;
      FailsLater(s, a, rest, s', name);
    } else {
      acts, s' := [a], s1;
      assert acts[1..] == [];
      assert Answers(s, acts)[0] == None && ForPool(acts[0].r, name);
    }
  }

  lemma FailsLater(s: State, a: Action, rest: seq<Action>, s': State, name: string)
    requires Enabled(s, a) && a.Route? && RoutesOnly(rest)
    requires IsRun(Apply(s, a), rest, s') && !NoFailure(Apply(s, a), rest, name)
    ensures IsRun(s, [a] + rest, s') && RoutesOnly([a] + rest) && !NoFailure(s, [a] + rest, name)
  {
    hide Enabled, Apply, Answer;
    var acts, later := [a] + rest, Answers(Apply(s, a), rest);
    assert acts[1..] == rest;
    var i :| 0 <= i < |later| && ForPool(rest[i].r, name) && !later[i].Some?;
    assert Answers(s, acts)[i + 1] == later[i] && acts[i + 1] == rest[i];
  }

  /** A pool never fails such a request, whatever is routed, exactly when it has rows and every one
      of them is of a registered node. */
  lemma PoolReliable(s: State, name: string)
    ensures NeverFails(s, name) <==> {} < Candidates(s, InPool(name)) <= s.nodes.Keys
  {
    var cand := Candidates(s, InPool(name));
    if {} < cand <= s.nodes.Keys {
      forall acts: seq<Action>, s': State | IsRun(s, acts, s') && RoutesOnly(acts) ensures NoFailure(s, acts, name) {
        forall i | 0 <= i < |Answers(s, acts)| && ForPool(acts[i].r, name) ensures Answers(s, acts)[i].Some? {
          RegisteredPoolAnswers(s, acts, s', name, i);
        }
      }
    } else if cand == {} {
      EmptyPoolFails(s, name);
    } else {
      var p :| p in cand && p !in s.nodes;
      var acts, s' := FailingRun(s, name, p);
    }
  }

  lemma EmptyPoolFails(s: State, name: string)
    requires Candidates(s, InPool(name)) == {}
    ensures !NeverFails(s, name)
  {
    var r := PoolRequest(name);
    assert TargetOf(r) == InPool(name);
    var acts := [Route(r, None, AllStored)];
    assert acts[1..] == [];
    assert IsRun(s, acts, s);
    assert Answers(s, acts)[0] == None && ForPool(acts[0].r, name);
  }
}
