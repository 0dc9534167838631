/** The accountant (pkg/accountant/redis.go): calls of Decrement, the goroutine that adds usages up
    by node and user, its flushes and its end, in any order. */
module Accountants {

  type NodeId = string
  type UserId = string

  datatype Usage = Usage(user: UserId, node: NodeId, data: int)

  type Totals = map<NodeId, map<UserId, int>>

  /** queue is what the channel buffers, blocked the calls that wait in a send, in order; published is
      what was handed to Publish. The last three are history: all calls of Decrement, those that
      have returned, and those that ended in the panic of a send on a closed channel. */
  datatype State = State(capacity: nat, queue: seq<Usage>, blocked: seq<Usage>, cache: Totals,
                         published: seq<Totals>, stopped: bool,
                         calls: seq<Usage>, accepted: seq<Usage>, panicked: seq<Usage>)

  function Init(capacity: nat): State {
    State(capacity, [], [], map[], [], false, [], [], [])
  }

  datatype Action = Decrement(u: Usage) | Receive | Tick | Shutdown

  /** After Shutdown the goroutine is gone, its callers are not. */
  predicate Enabled(s: State, a: Action) {
    match a
    case Decrement(_) => true
    case Receive => !s.stopped && (s.queue != [] || s.blocked != [])
    case _ => !s.stopped
  }

  function Add(cache: Totals, u: Usage): Totals {
    var users := if u.node in cache then cache[u.node] else map[];
    cache[u.node := users[u.user := (if u.user in users then users[u.user] else 0) + u.data]]
  }

  function Send(s: State, u: Usage): State {
    if s.stopped then s.(panicked := s.panicked + [u])
    else if |s.queue| < s.capacity then s.(queue := s.queue + [u], accepted := s.accepted + [u])
    else s.(blocked := s.blocked + [u])
  }

  /** A receive makes room for the call that has been blocked longest. */
  function Take(s: State): (State, Usage)
    requires s.queue != [] || s.blocked != []
  {
    var all := s.queue + s.blocked;
    if s.blocked == [] then (s.(queue := all[1..]), all[0])
    else (s.(queue := all[1..|s.queue| + 1], blocked := s.blocked[1..], accepted := s.accepted + [s.blocked[0]]),
          all[0])
  }

  function Apply(s: State, a: Action): State
    requires Enabled(s, a)
  {
    match a
    case Decrement(u) => Send(s.(calls := s.calls + [u]), u)
    case Receive =>
      var (s', u) := Take(s);
      s'.(cache := Add(s.cache, u))
    case Tick => if s.cache == map[] then s else s.(published := s.published + [s.cache], cache := map[])
    case Shutdown => s.(stopped := true, panicked := s.panicked + s.blocked, blocked := [])
  }

  predicate IsRun(s: State, acts: seq<Action>, s': State)
    decreases |acts|
  {
    if acts == [] then s' == s
    else Enabled(s, acts[0]) && IsRun(Apply(s, acts[0]), acts[1..], s')
  }

  // ---------------------------------------------------------------------------
  // Amounts
  // ---------------------------------------------------------------------------

  function Amount(t: Totals, n: NodeId, u: UserId): int {
    if n in t && u in t[n] then t[n][u] else 0
  }

  function Of(x: Usage, n: NodeId, u: UserId): int {
    if x.node == n && x.user == u then x.data else 0
  }

  function Sum(xs: seq<Usage>, n: NodeId, u: UserId): int {
    if xs == [] then 0 else Sum(xs[..|xs| - 1], n, u) + Of(xs[|xs| - 1], n, u)
  }

  function Published(ts: seq<Totals>, n: NodeId, u: UserId): int {
    if ts == [] then 0 else Published(ts[..|ts| - 1], n, u) + Amount(ts[|ts| - 1], n, u)
  }

  lemma {:induction false} SumCat(xs: seq<Usage>, ys: seq<Usage>, n: NodeId, u: UserId)
    ensures Sum(xs + ys, n, u) == Sum(xs, n, u) + Sum(ys, n, u)
  {
    if ys == [] {
      assert xs + ys == xs;
    } else {
      var k := |ys| - 1;
      SumCat(xs, ys[..k], n, u);
      assert (xs + ys)[..|xs + ys| - 1] == xs + ys[..k];
    }
  }

  lemma SumOne(x: Usage, n: NodeId, u: UserId)
    ensures Sum([x], n, u) == Of(x, n, u)
  {
    assert [x][..0] == [];
  }

  lemma SumPop(xs: seq<Usage>, n: NodeId, u: UserId)
    requires xs != []
    ensures Sum(xs, n, u) == Of(xs[0], n, u) + Sum(xs[1..], n, u)
  {
    assert xs == [xs[0]] + xs[1..];
    SumCat([xs[0]], xs[1..], n, u);
    SumOne(xs[0], n, u);
  }

  lemma PublishedPush(ts: seq<Totals>, t: Totals, n: NodeId, u: UserId)
    ensures Published(ts + [t], n, u) == Published(ts, n, u) + Amount(t, n, u)
  {
    assert (ts + [t])[..|ts|] == ts;
  }

  // ---------------------------------------------------------------------------
  // The channel
  // ---------------------------------------------------------------------------

  /** The calls like x that have returned, wait or have panicked. */
  function Fates(s: State, x: Usage): nat {
    multiset(s.accepted)[x] + multiset(s.blocked)[x] + multiset(s.panicked)[x]
  }

  /** Each call has one fate, calls wait only for a full buffer, and none panics before the end. */
  ghost predicate Inv(s: State) {
    && (forall x :: multiset(s.calls)[x] == Fates(s, x))
    && |s.queue| <= s.capacity
    && (s.blocked != [] ==> |s.queue| == s.capacity)
    && (if s.stopped then s.blocked == [] else s.panicked == [])
  }

  lemma ReceiveMoves(s: State, x: Usage)
    requires Enabled(s, Receive)
    ensures var s' := Apply(s, Receive);
            multiset(s'.accepted)[x] + multiset(s'.blocked)[x] == multiset(s.accepted)[x] + multiset(s.blocked)[x]
  {
    if s.blocked != [] {
      assert s.blocked == [s.blocked[0]] + s.blocked[1..];
    }
  }

  lemma FatesStep(s: State, a: Action, x: Usage)
    requires Enabled(s, a)
    ensures var s' := Apply(s, a);
            Fates(s', x) - Fates(s, x) == multiset(s'.calls)[x] - multiset(s.calls)[x]
  {
    if a.Receive? {
      ReceiveMoves(s, x);
    }
  }

  lemma StepKeepsInv(s: State, a: Action)
    requires Inv(s) && Enabled(s, a)
    ensures Inv(Apply(s, a))
  {
    hide Fates;
    forall x ensures multiset(Apply(s, a).calls)[x] == Fates(Apply(s, a), x) {
      FatesStep(s, a, x);
    }
  }

  lemma {:induction false} RunKeepsInv(s: State, acts: seq<Action>, s': State)
    requires Inv(s) && IsRun(s, acts, s')
    ensures Inv(s') && s'.capacity == s.capacity
    decreases |acts|
  {
    if acts != [] {
      StepKeepsInv(s, acts[0]);
      RunKeepsInv(Apply(s, acts[0]), acts[1..], s');
    }
  }

  /** In every reachable state each call has returned, waits for a full buffer, or has panicked, and
      before the shutdown none has panicked. */
  lemma CallsHaveOneFate(capacity: nat, acts: seq<Action>, s: State)
    requires IsRun(Init(capacity), acts, s)
    ensures forall x :: multiset(s.calls)[x] == Fates(s, x)
    ensures |s.queue| <= capacity && (s.blocked != [] ==> |s.queue| == capacity)
    ensures if s.stopped then s.blocked == [] else s.panicked == []
  {
    RunKeepsInv(Init(capacity), acts, s);
  }

  // ---------------------------------------------------------------------------
  // Conservation
  // ---------------------------------------------------------------------------

  /** What the calls that returned asked for, less what is buffered, cached or published. */
  function Missing(s: State, n: NodeId, u: UserId): int {
    Sum(s.accepted, n, u) - Sum(s.queue, n, u) - Amount(s.cache, n, u) - Published(s.published, n, u)
  }

  /** What all calls asked for, less what those that returned, wait or panicked did. */
  function Unaccounted(s: State, n: NodeId, u: UserId): int {
    Sum(s.calls, n, u) - Sum(s.accepted, n, u) - Sum(s.blocked, n, u) - Sum(s.panicked, n, u)
  }

  lemma SendConserves(s: State, x: Usage, n: NodeId, u: UserId)
    ensures var s' := Apply(s, Decrement(x));
            Missing(s', n, u) == Missing(s, n, u) && Unaccounted(s', n, u) == Unaccounted(s, n, u)
  {
    hide Sum;
    SumOne(x, n, u);
    SumCat(s.calls, [x], n, u);
    SumCat(s.queue, [x], n, u);
    SumCat(s.accepted, [x], n, u);
    SumCat(s.blocked, [x], n, u);
    SumCat(s.panicked, [x], n, u);
  }

  lemma TakeConserves(s: State, n: NodeId, u: UserId)
    requires s.queue != [] || s.blocked != []
    ensures var (s', x) := Take(s);
            && Sum(s'.accepted, n, u) - Sum(s'.queue, n, u) == Sum(s.accepted, n, u) - Sum(s.queue, n, u) + Of(x, n, u)
            && Unaccounted(s', n, u) == Unaccounted(s, n, u)
  {
    hide Sum;
    if s.blocked == [] {
      assert s.queue + s.blocked == s.queue;
      SumPop(s.queue, n, u);
    } else {
      var b := s.blocked[0];
      assert (s.queue + s.blocked)[..|s.queue| + 1] == s.queue + [b];
      assert (s.queue + s.blocked)[1..|s.queue| + 1] == (s.queue + [b])[1..];
      SumOne(b, n, u);
      SumCat(s.queue, [b], n, u);
      SumPop(s.queue + [b], n, u);
      SumPop(s.blocked, n, u);
      SumCat(s.accepted, [b], n, u);
    }
  }

  lemma AddAmount(cache: Totals, x: Usage, n: NodeId, u: UserId)
    ensures Amount(Add(cache, x), n, u) == Amount(cache, n, u) + Of(x, n, u)
  {
  }

  lemma ReceiveConserves(s: State, n: NodeId, u: UserId)
    requires Enabled(s, Receive)
    ensures Missing(Apply(s, Receive), n, u) == Missing(s, n, u)
    ensures Unaccounted(Apply(s, Receive), n, u) == Unaccounted(s, n, u)
  {
    hide Sum, Add, Amount;
    TakeConserves(s, n, u);
    AddAmount(s.cache, Take(s).1, n, u);
  }

  lemma TickConserves(s: State, n: NodeId, u: UserId)
    requires Enabled(s, Tick)
    ensures Missing(Apply(s, Tick), n, u) == Missing(s, n, u)
    ensures Unaccounted(Apply(s, Tick), n, u) == Unaccounted(s, n, u)
  {
    hide Sum;
    PublishedPush(s.published, s.cache, n, u);
  }

  lemma {:induction false} StepConserves(s: State, a: Action, n: NodeId, u: UserId)
    requires Enabled(s, a)
    ensures Missing(Apply(s, a), n, u) == Missing(s, n, u)
    ensures Unaccounted(Apply(s, a), n, u) == Unaccounted(s, n, u)
  {
    hide Missing, Unaccounted, Apply;
    match a
    case Decrement(x) => SendConserves(s, x, n, u);
    case Receive => ReceiveConserves(s, n, u);
    case Tick => TickConserves(s, n, u);
    case Shutdown => ShutdownConserves(s, n, u);
  }

  lemma ShutdownConserves(s: State, n: NodeId, u: UserId)
    requires Enabled(s, Shutdown)
    ensures Missing(Apply(s, Shutdown), n, u) == Missing(s, n, u)
    ensures Unaccounted(Apply(s, Shutdown), n, u) == Unaccounted(s, n, u)
  {
    assert Sum([], n, u) == 0;
    hide Sum;
    SumCat(s.panicked, s.blocked, n, u);
  }

  lemma {:induction false} RunConserves(s: State, acts: seq<Action>, s': State, n: NodeId, u: UserId)
    requires IsRun(s, acts, s')
    ensures Missing(s', n, u) == Missing(s, n, u) && Unaccounted(s', n, u) == Unaccounted(s, n, u)
    decreases |acts|
  {
    hide Missing, Unaccounted;
    if acts != [] {
      StepConserves(s, acts[0], n, u);
      RunConserves(Apply(s, acts[0]), acts[1..], s', n, u);
    }
  }

  /** In every reachable state, for each user on each node, what the calls that returned asked for is
      buffered, cached or published, and what the others asked for belongs to waiting or panicked calls. */
  lemma UsageConserved(capacity: nat, acts: seq<Action>, s: State, n: NodeId, u: UserId)
    requires IsRun(Init(capacity), acts, s)
    ensures Sum(s.accepted, n, u) == Sum(s.queue, n, u) + Amount(s.cache, n, u) + Published(s.published, n, u)
    ensures Sum(s.calls, n, u) == Sum(s.accepted, n, u) + Sum(s.blocked, n, u) + Sum(s.panicked, n, u)
  {
    RunConserves(Init(capacity), acts, s, n, u);
  }

  /** Once nothing is queued or waiting, the next tick has published all that was asked for. */
  lemma FlushedAfterTick(capacity: nat, acts: seq<Action>, s: State, n: NodeId, u: UserId)
    requires IsRun(Init(capacity), acts, s) && Enabled(s, Tick) && s.queue == [] && s.blocked == []
    ensures Sum(s.calls, n, u) == Published(Apply(s, Tick).published, n, u)
  {
    UsageConserved(capacity, acts, s, n, u);
    CallsHaveOneFate(capacity, acts, s);
    PublishedPush(s.published, s.cache, n, u);
  }

  // ---------------------------------------------------------------------------
  // The end
  // ---------------------------------------------------------------------------

  function Usages(acts: seq<Action>): seq<Usage>
    requires forall i | 0 <= i < |acts| :: acts[i].Decrement?
  {
    seq(|acts|, i requires 0 <= i < |acts| => acts[i].u)
  }

  /** Once the channel is closed there is nothing but calls, and every one of them panics. */
  lemma {:induction false} AfterShutdown(s: State, after: seq<Action>, s': State)
    requires s.stopped && IsRun(s, after, s')
    ensures forall i | 0 <= i < |after| :: after[i].Decrement?
    ensures s' == s.(calls := s.calls + Usages(after), panicked := s.panicked + Usages(after))
    decreases |after|
  {
    if after == [] {
      assert s.calls + [] == s.calls && s.panicked + [] == s.panicked;
    } else {
      AfterShutdown(Apply(s, after[0]), after[1..], s');
      assert Usages(after) == [after[0].u] + Usages(after[1..]);
      assert s.calls + [after[0].u] + Usages(after[1..]) == s.calls + Usages(after);
      assert s.panicked + [after[0].u] + Usages(after[1..]) == s.panicked + Usages(after);
    }
  }

  /** Exactly the calls that wait at the shutdown and all later ones panic. Of what calls that
      returned asked for, exactly what is buffered or cached at the shutdown is never published. */
  lemma LostAtShutdown(capacity: nat, before: seq<Action>, s: State, after: seq<Action>, s': State,
                       n: NodeId, u: UserId)
    requires IsRun(Init(capacity), before, s) && Enabled(s, Shutdown) && IsRun(Apply(s, Shutdown), after, s')
    ensures forall i | 0 <= i < |after| :: after[i].Decrement?
    ensures s'.panicked == s.blocked + Usages(after) && s'.accepted == s.accepted
    ensures s'.published == s.published
    ensures Sum(s'.accepted, n, u) - Published(s'.published, n, u) == Sum(s.queue, n, u) + Amount(s.cache, n, u)
  {
    UsageConserved(capacity, before, s, n, u);
    CallsHaveOneFate(capacity, before, s);
    AfterShutdown(Apply(s, Shutdown), after, s');
    assert [] + s.blocked == s.blocked;
  }

  // ---------------------------------------------------------------------------
  // The methods
  // ---------------------------------------------------------------------------

  datatype Outcome = Returned | Waits | Panics

  class Redis {
    const capacity: nat
    var dataCh: seq<Usage>
    var senders: seq<Usage>
    var closed: bool
    var cache: Totals
    var published: seq<Totals>
    ghost var calls: seq<Usage>
    ghost var accepted: seq<Usage>
    ghost var panicked: seq<Usage>

    ghost function View(): State
      reads this
    {
      State(capacity, dataCh, senders, cache, published, closed, calls, accepted, panicked)
    }

    constructor (capacity: nat)
      ensures View() == Init(capacity)
    {
      this.capacity := capacity;
      dataCh, senders, closed, cache, published := [], [], false, map[], [];
      calls, accepted, panicked := [], [], [];
    }

    /** The send on the channel; a call that waits returns when Receive makes room for it. */
    method Decrement(user: UserId, node: NodeId, n: int) returns (outcome: Outcome)
      modifies this
      ensures View() == Apply(old(View()), Action.Decrement(Usage(user, node, n)))
      ensures outcome.Panics? <==> old(closed)
      ensures outcome.Returned? <==> accepted == old(accepted) + [Usage(user, node, n)]
    {
      var x := Usage(user, node, n);
      calls := calls + [x];
      if closed {
        panicked := panicked + [x];
        return Panics;
      }
      if |dataCh| < capacity {
        dataCh, accepted := dataCh + [x], accepted + [x];
        return Returned;
      }
      senders := senders + [x];
      return Waits;
    }

    /** The oldest usage arrives in the goroutine, and the call that has waited longest moves up. */
    method Receive()
      requires !closed && (dataCh != [] || senders != [])
      modifies this
      ensures View() == Apply(old(View()), Action.Receive)
      ensures old(dataCh) + old(senders) == [(old(dataCh) + old(senders))[0]] + (dataCh + senders)
      ensures var r := (old(dataCh) + old(senders))[0];
              forall n, u :: Amount(cache, n, u) == Amount(old(cache), n, u) + Of(r, n, u)
    {
      var all := dataCh + senders;
      var r := all[0];
      if senders == [] {
        dataCh := all[1..];
      } else {
        accepted := accepted + [senders[0]];
        dataCh, senders := all[1..|dataCh| + 1], senders[1..];
      }
      var rr: map<UserId, int> := map[];
      if r.node in cache {
        rr := cache[r.node];
      }
      if r.user in rr {
        rr := rr[r.user := rr[r.user] + r.data];
      } else {
        rr := rr[r.user := r.data];
      }
      cache := cache[r.node := rr];
    }

    /** Afterwards nothing is cached, and no user's published and cached total on a node has changed. There is
        one message when anything was cached and none otherwise. */
    method Tick()
      requires !closed
      modifies this`cache, this`published
      ensures View() == Apply(old(View()), Action.Tick) && cache == map[]
      ensures published == if old(cache) == map[] then old(published) else old(published) + [old(cache)]
      ensures forall n, u :: Published(published, n, u) == Published(old(published), n, u) + Amount(old(cache), n, u)
    {
      forall n, u ensures Published(published + [cache], n, u) == Published(published, n, u) + Amount(cache, n, u) {
        PublishedPush(published, cache, n, u);
      }
      if |cache| == 0 {
        return;
      }
      published := published + [cache];
      cache := map[];
    }

    /** The deferred close of the channel. */
    method Shutdown()
      requires !closed
      modifies this
      ensures View() == Apply(old(View()), Action.Shutdown)
    {
      closed := true;
      panicked := panicked + senders;
      senders := [];
    }
  }
}
