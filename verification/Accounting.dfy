/** Transfers and the accountant together: any number of transfers that run at once, whose calls
    of Decrement reach the accountant in any interleaving. */
module Accounting {
  import opened Options
  import opened Accountants
  import T = Transfers
  import S = TransferSafety

  /** One call of Transfer: whom it is for, what its connections answer, and how far it is. */
  datatype Job = Job(user: UserId, node: NodeId, cfg: T.Config, answers: seq<Option<T.Error>>,
                     script: seq<T.Round>, where: S.Where)

  predicate Valid(j: Job) {
    S.OnPath(j.cfg, j.script, j.where)
  }

  function Progress(j: Job): T.Progress
    requires Valid(j)
  {
    S.Now(j.cfg, j.answers, j.script, j.where)
  }

  /** The amounts of the calls that job j made, in order. */
  function Mine(calls: seq<Usage>, owner: seq<nat>, j: nat): seq<int>
    requires |owner| == |calls|
    decreases |calls|
  {
    if calls == [] then []
    else
      var n := |calls| - 1;
      Mine(calls[..n], owner[..n], j) + if owner[n] == j then [calls[n].data] else []
  }

  /** The calls are an interleaving of those the jobs have made so far; owner tells whose each one is. */
  ghost predicate Interleaves(calls: seq<Usage>, owner: seq<nat>, jobs: seq<Job>) {
    && |owner| == |calls|
    && CallsOf(calls, owner, jobs)
    && forall j | 0 <= j < |jobs| :: Valid(jobs[j]) && Mine(calls, owner, j) == Progress(jobs[j]).charges
  }

  predicate CallsOf(calls: seq<Usage>, owner: seq<nat>, jobs: seq<Job>)
    requires |owner| == |calls|
  {
    forall i | 0 <= i < |calls| ::
      owner[i] < |jobs| && calls[i].user == jobs[owner[i]].user && calls[i].node == jobs[owner[i]].node
  }

  predicate For(j: Job, n: NodeId, u: UserId) {
    j.node == n && j.user == u
  }

  /** What the first k jobs for u on n have charged. */
  function Charged(calls: seq<Usage>, owner: seq<nat>, jobs: seq<Job>, k: nat, n: NodeId, u: UserId): int
    requires |owner| == |calls| && k <= |jobs|
  {
    if k == 0 then 0
    else Charged(calls, owner, jobs, k - 1, n, u)
         + if For(jobs[k - 1], n, u) then S.Sum(Mine(calls, owner, k - 1)) else 0
  }

  /** What the jobs for u on n have read so far, and what of it they still hold unbilled. */
  function BytesRead(jobs: seq<Job>, n: NodeId, u: UserId): int
    requires forall j | 0 <= j < |jobs| :: Valid(jobs[j])
  {
    if jobs == [] then 0
    else BytesRead(jobs[..|jobs| - 1], n, u)
         + if For(jobs[|jobs| - 1], n, u) then Progress(jobs[|jobs| - 1]).read else 0
  }

  function BytesHeld(jobs: seq<Job>, n: NodeId, u: UserId): int
    requires forall j | 0 <= j < |jobs| :: Valid(jobs[j])
  {
    if jobs == [] then 0
    else BytesHeld(jobs[..|jobs| - 1], n, u)
         + if For(jobs[|jobs| - 1], n, u) then Progress(jobs[|jobs| - 1]).accounted else 0
  }

  lemma {:induction false} OneMoreCall(calls: seq<Usage>, owner: seq<nat>, jobs: seq<Job>, k: nat,
                                       n: NodeId, u: UserId)
    requires |owner| == |calls| > 0 && k <= |jobs| && CallsOf(calls, owner, jobs)
    ensures var m := |calls| - 1;
            Charged(calls, owner, jobs, k, n, u)
            == Charged(calls[..m], owner[..m], jobs, k, n, u)
               + if owner[m] < k then Of(calls[m], n, u) else 0
  {
    var m := |calls| - 1;
    assert calls[m].user == jobs[owner[m]].user && calls[m].node == jobs[owner[m]].node;
    if k > 0 {
      assert Mine(calls[..m], owner[..m], k - 1) + [] == Mine(calls[..m], owner[..m], k - 1);
      OneMoreCall(calls, owner, jobs, k - 1, n, u);
      S.SumPush(Mine(calls[..m], owner[..m], k - 1), calls[m].data);
    }
  }

  lemma {:induction false} NothingCharged(jobs: seq<Job>, k: nat, n: NodeId, u: UserId)
    requires k <= |jobs|
    ensures Charged([], [], jobs, k, n, u) == 0
  {
    if k > 0 {
      NothingCharged(jobs, k - 1, n, u);
    }
  }

  lemma {:induction false} CallsByOwner(calls: seq<Usage>, owner: seq<nat>, jobs: seq<Job>, n: NodeId, u: UserId)
    requires |owner| == |calls| && CallsOf(calls, owner, jobs)
    ensures Sum(calls, n, u) == Charged(calls, owner, jobs, |jobs|, n, u)
    decreases |calls|
  {
    if calls == [] {
      NothingCharged(jobs, |jobs|, n, u);
    } else {
      var m := |calls| - 1;
      CallsByOwner(calls[..m], owner[..m], jobs, n, u);
      OneMoreCall(calls, owner, jobs, |jobs|, n, u);
    }
  }

  ghost predicate Buffered(jobs: seq<Job>, buffer: nat) {
    buffer > 0 && forall j | 0 <= j < |jobs| :: S.FitsBuffer(jobs[j].script, buffer)
  }

  lemma {:induction false} ChargedIsRead(calls: seq<Usage>, owner: seq<nat>, jobs: seq<Job>, k: nat,
                                         buffer: nat, n: NodeId, u: UserId)
    requires Interleaves(calls, owner, jobs) && k <= |jobs| && Buffered(jobs, buffer)
    ensures Charged(calls, owner, jobs, k, n, u) + BytesHeld(jobs[..k], n, u) == BytesRead(jobs[..k], n, u)
  {
    hide S.Now, S.OnPath;
    if k > 0 {
      ChargedIsRead(calls, owner, jobs, k - 1, buffer, n, u);
      assert jobs[..k][..k - 1] == jobs[..k - 1];
      var j := jobs[k - 1];
      S.UnbilledIsBounded(j.cfg, j.answers, j.script, buffer, j.where);
    }
  }

  /** At every moment, with any number of transfers running or returned and their calls interleaved in any
      way: the bytes they have read for a user through a node are those buffered, waiting to be
      sent, cached, published or lost in a panic for the two, and those the transfers still hold. */
  lemma BytesBilled(capacity: nat, acts: seq<Action>, s: State, owner: seq<nat>, jobs: seq<Job>, buffer: nat,
                    n: NodeId, u: UserId)
    requires IsRun(Init(capacity), acts, s) && Interleaves(s.calls, owner, jobs) && Buffered(jobs, buffer)
    ensures BytesRead(jobs, n, u)
         == Sum(s.queue, n, u) + Sum(s.blocked, n, u) + Amount(s.cache, n, u) + Published(s.published, n, u)
            + Sum(s.panicked, n, u) + BytesHeld(jobs, n, u)
    ensures !s.stopped ==> s.panicked == []
  {
    UsageConserved(capacity, acts, s, n, u);
    CallsHaveOneFate(capacity, acts, s);
    CallsByOwner(s.calls, owner, jobs, n, u);
    ChargedIsRead(s.calls, owner, jobs, |jobs|, buffer, n, u);
    assert jobs[..|jobs|] == jobs;
  }

  /** Each transfer holds less than AccountBytes + buffer, and none after it has returned: so that is all
      that can ever be missing for it while it runs. */
  lemma HeldIsBounded(j: Job, buffer: nat)
    requires Valid(j) && buffer > 0 && S.FitsBuffer(j.script, buffer) && j.cfg.accountBytes > 0
    ensures 0 <= Progress(j).accounted < j.cfg.accountBytes + buffer
    ensures j.where.Returned? ==> Progress(j).accounted == 0
    ensures Progress(j).charges <= T.Transferred(j.cfg, j.answers, j.script).charges
  {
    S.UnbilledIsBounded(j.cfg, j.answers, j.script, buffer, j.where);
    S.ChargesSoFar(j.cfg, j.answers, j.script, j.where);
  }
}
