/** Least-ranked scheduling over runs of requests for one target, with or without sessions, between which
    sessions may expire and be evicted. */
module RouterFairness {
  import opened Counting
  import opened Options
  import opened Router

  /** Requests for t, whose rows are all of registered nodes, and ends of sessions. */
  ghost predicate Requests(s: State, acts: seq<Action>, t: Target) {
    && !t.WithIP?
    && (forall i | 0 <= i < |acts| ::
          acts[i].Expire? || acts[i].Evict? || (acts[i].Route? && TargetOf(acts[i].r) == t))
    && (t.InPool? ==> Candidates(s, t) <= s.nodes.Keys)
  }

  /** The row that was picked; none by a request that finds its session. */
  function PickOf(a: Action): Option<PeerId> {
    if a.Route? then a.pick else None
  }

  function ServedBy(acts: seq<Action>, p: PeerId): nat {
    if acts == [] then 0 else ServedBy(acts[..|acts| - 1], p) + B(PickOf(acts[|acts| - 1]) == Some(p))
  }

  function Picked(acts: seq<Action>): nat {
    if acts == [] then 0 else Picked(acts[..|acts| - 1]) + B(PickOf(acts[|acts| - 1]).Some?)
  }

  lemma EndKeepsRanks(s: State, a: Action, t: Target)
    requires Enabled(s, a) && (a.Expire? || a.Evict?)
    ensures var s' := Apply(s, a);
            && Candidates(s', t) == Candidates(s, t) && s'.nodes.Keys == s.nodes.Keys
            && (forall p | p in Candidates(s, t) :: Rank(s', t, p) == Rank(s, t, p))
  {
  }

  lemma RouteMovesRank(s: State, a: Action, t: Target)
    requires Enabled(s, a) && a.Route? && TargetOf(a.r) == t && !t.WithIP? && Candidates(s, t) != {}
    requires t.InPool? ==> Candidates(s, t) <= s.nodes.Keys
    ensures var s' := Apply(s, a);
            && Candidates(s', t) == Candidates(s, t) && s'.nodes.Keys == s.nodes.Keys
            && (a.pick.Some? ==> CanPick(s, t, a.pick.value))
            && (forall p | p in Candidates(s, t) :: Rank(s', t, p) == Rank(s, t, p) + B(a.pick == Some(p)))
            && (!SessionHit(s, a.r) ==> a.pick.Some?)
  {
    assert t.InPool? <==> a.r.pool.Some?;
  }

  /** One pick moves one row up by one, and nothing else it looks at is changed; a request that does not find
      its session picks. */
  lemma OneRequest(s: State, a: Action, t: Target)
    requires Enabled(s, a) && Requests(s, [a], t) && Candidates(s, t) != {}
    ensures var s' := Apply(s, a);
            && Candidates(s', t) == Candidates(s, t) && s'.nodes.Keys == s.nodes.Keys
            && (PickOf(a).Some? ==> CanPick(s, t, PickOf(a).value))
            && (forall p | p in Candidates(s, t) :: Rank(s', t, p) == Rank(s, t, p) + B(PickOf(a) == Some(p)))
            && (a.Route? && !SessionHit(s, a.r) ==> PickOf(a).Some?)
  {
    hide Apply, Rank, Candidates, Enabled;
    assert [a][0] == a;
    if a.Route? {
      RouteMovesRank(s, a, t);
    } else {
      EndKeepsRanks(s, a, t);
    }
  }

  // ---------------------------------------------------------------------------
  // The state after a number of requests
  // ---------------------------------------------------------------------------

  ghost function After(s: State, acts: seq<Action>): State
    decreases |acts|
  {
    if acts == [] then s
    else
      var s1 := After(s, acts[..|acts| - 1]);
      if Enabled(s1, acts[|acts| - 1]) then Apply(s1, acts[|acts| - 1]) else s1
  }

  ghost predicate Possible(s: State, acts: seq<Action>)
    decreases |acts|
  {
    acts == [] || (Possible(s, acts[..|acts| - 1]) && Enabled(After(s, acts[..|acts| - 1]), acts[|acts| - 1]))
  }

  lemma {:induction false} RunIsPossible(s: State, acts: seq<Action>, s': State, n: nat)
    requires IsRun(s, acts, s') && n <= |acts|
    ensures Possible(s, acts[..n])
    ensures n == |acts| ==> After(s, acts[..n]) == s'
    ensures IsRun(After(s, acts[..n]), acts[n..], s')
  {
    if n > 0 {
      RunIsPossible(s, acts, s', n - 1);
      assert acts[..n][..n - 1] == acts[..n - 1];
      assert acts[n - 1..][1..] == acts[n..];
    }
  }

  lemma {:induction false} SameCandidates(s: State, acts: seq<Action>, t: Target)
    requires Possible(s, acts) && Requests(s, acts, t) && Candidates(s, t) != {}
    ensures Candidates(After(s, acts), t) == Candidates(s, t)
    ensures After(s, acts).nodes.Keys == s.nodes.Keys
    ensures forall p | p in Candidates(s, t) ::
              Rank(After(s, acts), t, p) == Rank(s, t, p) + ServedBy(acts, p)
    decreases |acts|
  {
    if acts != [] {
      var n := |acts| - 1;
      SameCandidates(s, acts[..n], t);
      OneRequest(After(s, acts[..n]), acts[n], t);
    }
  }

  // ---------------------------------------------------------------------------
  // Shares
  // ---------------------------------------------------------------------------

  /** The candidates that have been served more than k / n times. */
  ghost function Ahead(cand: set<PeerId>, acts: seq<Action>, m: nat): set<PeerId>
  {
    set p | p in cand && ServedBy(acts, p) == m + 1
  }

  ghost predicate Shares(cand: set<PeerId>, acts: seq<Action>, m: nat)
  {
    && (forall p | p in cand :: ServedBy(acts, p) == m || ServedBy(acts, p) == m + 1)
    && Picked(acts) == m * |cand| + |Ahead(cand, acts, m)|
    && |Ahead(cand, acts, m)| < |cand|
  }

  ghost predicate EqualRanks(s: State, t: Target) {
    forall p, q | p in Candidates(s, t) && q in Candidates(s, t) :: Rank(s, t, p) == Rank(s, t, q)
  }

  lemma SomeoneBehind(ahead: set<PeerId>, cand: set<PeerId>) returns (q: PeerId)
    requires ahead <= cand && |ahead| < |cand|
    ensures q in cand && q !in ahead
  {
    if cand <= ahead {
      SubsetSize(cand, ahead);
      assert false;
    }
    q :| q in cand && q !in ahead;
  }

  /** The one picked is not ahead, as somebody is behind. */
  lemma PickIsBehind(s: State, acts: seq<Action>, a: Action, t: Target, m: nat)
    requires Possible(s, acts) && Requests(s, acts, t) && Requests(s, [a], t) && Candidates(s, t) != {}
    requires EqualRanks(s, t) && Shares(Candidates(s, t), acts, m)
    requires Enabled(After(s, acts), a) && PickOf(a).Some?
    ensures PickOf(a).value in Candidates(s, t)
    ensures PickOf(a).value !in Ahead(Candidates(s, t), acts, m)
  {
    SameCandidates(s, acts, t);
    OneRequest(After(s, acts), a, t);
    var p := PickOf(a).value;
    var q := SomeoneBehind(Ahead(Candidates(s, t), acts, m), Candidates(s, t));
    assert Rank(After(s, acts), t, p) <= Rank(After(s, acts), t, q);
  }

  lemma ServedByOne(acts: seq<Action>, a: Action, p: PeerId)
    ensures ServedBy(acts + [a], p) == ServedBy(acts, p) + B(PickOf(a) == Some(p))
    ensures Picked(acts + [a]) == Picked(acts) + B(PickOf(a).Some?)
  {
    assert (acts + [a])[..|acts|] == acts;
  }

  lemma AheadStep(cand: set<PeerId>, acts: seq<Action>, a: Action, m: nat)
    requires PickOf(a).Some? && PickOf(a).value in cand
    requires Shares(cand, acts, m) && PickOf(a).value !in Ahead(cand, acts, m)
    ensures Ahead(cand, acts + [a], m) == Ahead(cand, acts, m) + {PickOf(a).value}
    ensures forall q | q in cand :: ServedBy(acts + [a], q) == m || ServedBy(acts + [a], q) == m + 1
  {
    hide ServedBy;
    forall q ensures ServedBy(acts + [a], q) == ServedBy(acts, q) + B(PickOf(a).value == q) {
      ServedByOne(acts, a, q);
    }
  }

  /** When the last one catches up, a new round starts. */
  lemma SharesStep(cand: set<PeerId>, acts: seq<Action>, a: Action, m: nat) returns (m': nat)
    requires PickOf(a).Some? && PickOf(a).value in cand
    requires Shares(cand, acts, m) && PickOf(a).value !in Ahead(cand, acts, m)
    ensures Shares(cand, acts + [a], m')
  {
    hide ServedBy, Picked;
    AheadStep(cand, acts, a, m);
    ServedByOne(acts, a, PickOf(a).value);
    if |Ahead(cand, acts, m)| + 1 == |cand| {
      m' := m + 1;
      NewRound(cand, acts + [a], m);
    } else {
      m' := m;
    }
  }

  lemma NoPick(cand: set<PeerId>, acts: seq<Action>, a: Action, m: nat)
    requires Shares(cand, acts, m) && PickOf(a).None?
    ensures Shares(cand, acts + [a], m)
  {
    hide ServedBy, Picked;
    forall q ensures ServedBy(acts + [a], q) == ServedBy(acts, q) && Picked(acts + [a]) == Picked(acts) {
      ServedByOne(acts, a, q);
    }
    ServedByOne(acts, a, "");
    assert Ahead(cand, acts + [a], m) == Ahead(cand, acts, m);
  }

  lemma NewRound(cand: set<PeerId>, acts: seq<Action>, m: nat)
    requires |Ahead(cand, acts, m)| == |cand| > 0 && Picked(acts) == m * |cand| + |cand|
    ensures Shares(cand, acts, m + 1)
  {
    hide ServedBy;
    SubsetFull(Ahead(cand, acts, m), cand);
    forall p | p in cand ensures ServedBy(acts, p) == m + 1 {
      assert p in Ahead(cand, acts, m);
    }
    assert Ahead(cand, acts, m + 1) == {};
    assert (m + 1) * |cand| == m * |cand| + |cand|;
  }

  lemma SubsetFull(a: set<PeerId>, b: set<PeerId>)
    requires a <= b && |a| == |b|
    ensures a == b
  {
    if x :| x in b && x !in a {
      assert a <= b - {x};
      SubsetSize(a, b - {x});
    }
  }

  lemma {:induction false} SubsetSize(a: set<PeerId>, b: set<PeerId>)
    requires a <= b
    ensures |a| <= |b|
    decreases a
  {
    if a != {} {
      var x :| x in a;
      SubsetSize(a - {x}, b - {x});
    }
  }

  lemma {:induction false} SharesOf(s: State, acts: seq<Action>, t: Target) returns (m: nat)
    requires Possible(s, acts) && Requests(s, acts, t) && Candidates(s, t) != {} && EqualRanks(s, t)
    ensures Shares(Candidates(s, t), acts, m)
    decreases |acts|
  {
    var cand := Candidates(s, t);
    if acts == [] {
      assert Ahead(cand, acts, 0) == {};
      m := 0;
    } else {
      var n := |acts| - 1;
      var m0 := SharesOf(s, acts[..n], t);
      assert acts[..n] + [acts[n]] == acts;
      if PickOf(acts[n]).Some? {
        PickIsBehind(s, acts[..n], acts[n], t, m0);
        m := SharesStep(cand, acts[..n], acts[n], m0);
      } else {
        m := m0;
        NoPick(cand, acts[..n], acts[n], m);
      }
    }
  }

  lemma {:induction false} DivideUnique(k: nat, n: nat, m: nat, r: nat)
    requires n > 0 && k == m * n + r && r < n
    ensures m == k / n && r == k % n
  {
    var q := k / n;
    if m < q {
      MulAtLeast(q - m, n, q, m);
    } else if q < m {
      MulAtLeast(m - q, n, m, q);
    }
  }

  lemma MulAtLeast(x: nat, n: nat, a: nat, b: nat)
    requires x >= 1 && a - b == x
    ensures a * n - b * n >= n
  {
    assert a * n - b * n == (a - b) * n == x * n;
    assert x * n == n + (x - 1) * n;
  }

  /** From equal ranks, after k picks for one target, each of the n matching nodes has been picked k / n times
      rounded down, and exactly k % n of them once more. */
  lemma {:induction false} FairShare(s: State, acts: seq<Action>, s': State, t: Target)
    requires IsRun(s, acts, s') && Requests(s, acts, t) && Candidates(s, t) != {} && EqualRanks(s, t)
    ensures var cand := Candidates(s, t);
            var each := Picked(acts) / |cand|;
            && (forall p | p in cand :: ServedBy(acts, p) == each || ServedBy(acts, p) == each + 1)
            && |Ahead(cand, acts, each)| == Picked(acts) % |cand|
    ensures forall p | p in Candidates(s, t) ::
              p in Candidates(s', t) && Rank(s', t, p) == Rank(s, t, p) + ServedBy(acts, p)
  {
    RunIsPossible(s, acts, s', |acts|);
    assert acts[..|acts|] == acts;
    var m := SharesOf(s, acts, t);
    var cand := Candidates(s, t);
    DivideUnique(Picked(acts), |cand|, m, |Ahead(cand, acts, m)|);
    SameCandidates(s, acts, t);
  }

  // ---------------------------------------------------------------------------
  // From any ranks
  // ---------------------------------------------------------------------------

  ghost predicate Within(s: State, t: Target, d: nat) {
    forall p, q | p in Candidates(s, t) && q in Candidates(s, t) :: Rank(s, t, p) <= Rank(s, t, q) + d
  }

  /** A gap between two matching rows never grows beyond what it was, or one. */
  lemma {:induction false} GapStays(s: State, acts: seq<Action>, s': State, t: Target, d: nat)
    requires IsRun(s, acts, s') && Requests(s, acts, t) && Candidates(s, t) != {}
    requires d >= 1 && Within(s, t, d)
    ensures Candidates(s', t) == Candidates(s, t) && Within(s', t, d)
    decreases |acts|
  {
    if acts != [] {
      var a := acts[0];
      assert Requests(s, [a], t);
      OneRequest(s, a, t);
      assert Within(Apply(s, a), t, d);
      GapStays(Apply(s, a), acts[1..], s', t, d);
    }
  }
}
