/** The node registry, session cache and least-ranked scheduler of the proxy (pkg/router/genji.go,
    internal/cache/fastcache.go) as a state machine. Each call of the router, each expiry and each
    eviction is one step. Which of several least-ranked rows a query returns is left open. */
module Router {
  import opened Options

  type PeerId = string
  type Sid = nat

  /** A node without its rank; other stands for the columns no query looks at. */
  datatype Data = Data(country: string, region: string, city: string, ipv4: string, other: string)

  datatype NodeRow = NodeRow(data: Data, ranking: nat)
  datatype PoolRow = PoolRow(name: string, ranking: nat)
  datatype SessionRow = SessionRow(peer: PeerId, sid: Sid)
  datatype Node = Node(peer: PeerId, data: Data)

  /** What the cache holds for a session, and the number of the placement that put it there. */
  datatype Entry = Entry(node: Node, job: nat)

  /** Placements of sessions are numbered by placed, and so are their deletion jobs: jobs holds the
      session of each one that has not fired yet. */
  datatype State = State(nodes: map<PeerId, NodeRow>, pools: map<PeerId, PoolRow>,
                         sessions: seq<SessionRow>, cache: map<Sid, Entry>, jobs: map<nat, Sid>, placed: nat)

  const INIT := State(map[], map[], [], map[], map[], 0)

  /** sid 0 asks for no session. */
  datatype Request = Request(sid: Sid, pool: Option<string>, ip: Option<string>,
                             country: Option<string>, region: Option<string>, city: Option<string>)

  const COUNTRY_RANDOM := "rr"

  predicate IsRandomLocation(r: Request) {
    || r.country == Some(COUNTRY_RANDOM)
    || (r.country == None && r.region == None && r.city == None && r.ip == None && r.pool == None)
  }

  /** The queries pick can send; NoTarget is refused without one. */
  datatype Target =
    | Anywhere
    | InPool(name: string)
    | WithIP(ip: string)
    | InRegion(country: string, region: string)
    | InCity(country: string, city: string)
    | InCountry(country: string)
    | NoTarget

  function TargetOf(r: Request): Target {
    if r.pool.Some? then InPool(r.pool.value)
    else if IsRandomLocation(r) then Anywhere
    else if r.ip.Some? then WithIP(r.ip.value)
    else if r.country.Some? && r.region.Some? then InRegion(r.country.value, r.region.value)
    else if r.country.Some? && r.city.Some? then InCity(r.country.value, r.city.value)
    else if r.country.Some? then InCountry(r.country.value)
    else NoTarget
  }

  predicate WantsSession(r: Request) {
    r.sid != 0 && r.ip == None
  }

  /** The WHERE clause on a row of nodes. */
  predicate Meets(t: Target, d: Data) {
    match t
    case Anywhere => true
    case WithIP(ip) => d.ipv4 == ip
    case InRegion(c, r) => d.country == c && d.region == r
    case InCity(c, ct) => d.country == c && d.city == ct
    case InCountry(c) => d.country == c
    case _ => false
  }

  function Candidates(s: State, t: Target): set<PeerId> {
    if t.InPool? then set p | p in s.pools && s.pools[p].name == t.name
    else set p | p in s.nodes && Meets(t, s.nodes[p].data)
  }

  /** The column a query orders by. */
  function Rank(s: State, t: Target, p: PeerId): nat
    requires p in Candidates(s, t)
  {
    if t.InPool? then s.pools[p].ranking else s.nodes[p].ranking
  }

  /** May the query return p? The query by address has no order. */
  predicate CanPick(s: State, t: Target, p: PeerId) {
    && p in Candidates(s, t)
    && (t.WithIP? || forall q | q in Candidates(s, t) :: Rank(s, t, p) <= Rank(s, t, q))
  }

  /** ORDER BY ranking ASC LIMIT 1 has a row to return when any row matches. */
  lemma {:induction false} LeastExists(s: State, t: Target, some: set<PeerId>) returns (p: PeerId)
    requires {} < some <= Candidates(s, t)
    ensures p in some && forall q | q in some :: Rank(s, t, p) <= Rank(s, t, q)
    decreases some
  {
    p :| p in some;
    var rest := some - {p};
    assert forall q | q in some :: q == p || q in rest;
    if rest != {} {
      var least := LeastExists(s, t, rest);
      if Rank(s, t, least) < Rank(s, t, p) {
        p := least;
      }
    }
  }

  // ---------------------------------------------------------------------------
  // Statements on the tables
  // ---------------------------------------------------------------------------

  function WithoutPeer(rows: seq<SessionRow>, p: PeerId): seq<SessionRow> {
    if rows == [] then []
    else WithoutPeer(rows[..|rows| - 1], p)
         + if rows[|rows| - 1].peer == p then [] else [rows[|rows| - 1]]
  }

  function WithoutSid(rows: seq<SessionRow>, sid: Sid): seq<SessionRow> {
    if rows == [] then []
    else WithoutSid(rows[..|rows| - 1], sid)
         + if rows[|rows| - 1].sid == sid then [] else [rows[|rows| - 1]]
  }

  /** Exactly the rows of the node go, and exactly those of the session. */
  lemma {:induction false} RowsLeft(rows: seq<SessionRow>, p: PeerId, sid: Sid)
    ensures forall x :: x in WithoutPeer(rows, p) <==> x in rows && x.peer != p
    ensures forall x :: x in WithoutSid(rows, sid) <==> x in rows && x.sid != sid
  {
    if rows != [] {
      var n := |rows| - 1;
      RowsLeft(rows[..n], p, sid);
      assert rows == rows[..n] + [rows[n]];
    }
  }

  function SidsOf(rows: seq<SessionRow>, p: PeerId): (r: set<Sid>)
    ensures forall sid :: sid in r <==> SessionRow(p, sid) in rows
  {
    set x | x in rows && x.peer == p :: x.sid
  }

  function AddToPool(pools: map<PeerId, PoolRow>, name: string, ids: seq<PeerId>): map<PeerId, PoolRow>
    decreases |ids|
  {
    if ids == [] then pools else AddToPool(pools[ids[0] := PoolRow(name, 0)], name, ids[1..])
  }

  function BumpNode(nodes: map<PeerId, NodeRow>, p: PeerId): map<PeerId, NodeRow>
    requires p in nodes
  {
    nodes[p := nodes[p].(ranking := nodes[p].ranking + 1)]
  }

  function BumpPool(pools: map<PeerId, PoolRow>, p: PeerId): map<PeerId, PoolRow> {
    if p in pools then pools[p := pools[p].(ranking := pools[p].ranking + 1)] else pools
  }

  // ---------------------------------------------------------------------------
  // Steps
  // ---------------------------------------------------------------------------

  /** How far Route gets with a session it has picked a node for: the entry is cached first, then the
      job is scheduled, then the row is inserted. */
  datatype Storing = AllStored | NotScheduled | NotRecorded

  datatype Action =
    | Add(p: PeerId, data: Data)
    | Route(r: Request, pick: Option<PeerId>, storing: Storing)  // pick: the row the query returned
    | Remove(p: PeerId)
    | PoolAdd(name: string, ids: seq<PeerId>)
    | PoolDelete(name: string, ids: seq<PeerId>)
    | PoolCleanNameNotIn(names: seq<string>)
    | ResetNodes
    | ResetPools
    | Expire(job: nat)                                           // a deletion job fires
    | Evict(sid: Sid)                                            // the cache forgets an entry on its own

  predicate SessionHit(s: State, r: Request) {
    WantsSession(r) && r.sid in s.cache
  }

  predicate Enabled(s: State, a: Action) {
    match a
    case Route(r, pick, storing) =>
      && (if SessionHit(s, r) then pick == None
          else if pick.Some? then CanPick(s, TargetOf(r), pick.value)
          else Candidates(s, TargetOf(r)) == {})
      && (storing.AllStored? || (WantsSession(r) && pick.Some? && pick.value in s.nodes))
    case Expire(job) => job in s.jobs
    case _ => true
  }

  /** What Route answers; None is an error. */
  function Answer(s: State, a: Action): Option<Node>
    requires Enabled(s, a)
  {
    if !a.Route? then None
    else if SessionHit(s, a.r) then Some(s.cache[a.r.sid].node)
    else if a.pick.Some? && a.pick.value in s.nodes && a.storing.AllStored?
    then Some(Node(a.pick.value, s.nodes[a.pick.value].data))
    else None
  }

  function Store(s: State, sid: Sid, node: Node, storing: Storing): State {
    s.(cache := s.cache[sid := Entry(node, s.placed)], placed := s.placed + 1,
       jobs := if storing.NotScheduled? then s.jobs else s.jobs[s.placed := sid],
       sessions := if storing.AllStored? then s.sessions + [SessionRow(node.peer, sid)] else s.sessions)
  }

  function AfterPick(s: State, r: Request, p: PeerId, storing: Storing): State
    requires p in s.nodes
  {
    var s1 := s.(nodes := BumpNode(s.nodes, p), pools := if r.pool.Some? then BumpPool(s.pools, p) else s.pools);
    if WantsSession(r) then Store(s1, r.sid, Node(p, s.nodes[p].data), storing) else s1
  }

  function Apply(s: State, a: Action): State
    requires Enabled(s, a)
  {
    match a
    case Add(p, data) => s.(nodes := s.nodes[p := NodeRow(data, 0)])
    case Route(r, pick, storing) =>
      if SessionHit(s, r) || pick == None || pick.value !in s.nodes then s
      else AfterPick(s, r, pick.value, storing)
    case Remove(p) =>
      s.(nodes := s.nodes - {p}, pools := s.pools - {p}, cache := s.cache - SidsOf(s.sessions, p),
         sessions := WithoutPeer(s.sessions, p))
    case PoolAdd(name, ids) => s.(pools := AddToPool(s.pools, name, ids))
    case PoolDelete(name, ids) =>
      s.(pools := map p | p in s.pools && !(s.pools[p].name == name && p in ids) :: s.pools[p])
    case PoolCleanNameNotIn(names) =>
      if names == [] then s
      else s.(pools := map p | p in s.pools && s.pools[p].name in names :: s.pools[p])
    case ResetNodes => s.(nodes := map p | p in s.nodes :: s.nodes[p].(ranking := 0))
    case ResetPools => s.(pools := map p | p in s.pools :: s.pools[p].(ranking := 0))
    case Expire(job) =>
      var sid := s.jobs[job];
      s.(sessions := WithoutSid(s.sessions, sid), cache := s.cache - {sid}, jobs := s.jobs - {job})
    case Evict(sid) => s.(cache := s.cache - {sid})
  }

  predicate IsRun(s: State, acts: seq<Action>, s': State)
    decreases |acts|
  {
    if acts == [] then s' == s
    else Enabled(s, acts[0]) && IsRun(Apply(s, acts[0]), acts[1..], s')
  }

  /** What the calls of Route in a run answered, in order. */
  function Answers(s: State, acts: seq<Action>): (r: seq<Option<Node>>)
    ensures |r| <= |acts|
    decreases |acts|
  {
    if acts == [] || !Enabled(s, acts[0]) then []
    else [Answer(s, acts[0])] + Answers(Apply(s, acts[0]), acts[1..])
  }

  // ---------------------------------------------------------------------------
  // The invariant
  // ---------------------------------------------------------------------------

  ghost predicate HasJob(s: State, sid: Sid) {
    exists j :: j in s.jobs && s.jobs[j] == sid
  }

  /** A row has its node and a deletion job to come, and the numbers in use have been given out. */
  ghost predicate Inv(s: State) {
    && (forall x | x in s.sessions :: x.peer in s.nodes)
    && (forall x | x in s.sessions :: HasJob(s, x.sid))
    && (forall j | j in s.jobs :: j < s.placed)
    && (forall sid | sid in s.cache :: s.cache[sid].job < s.placed)
  }
}
