/** What a transfer charges for and which error it returns, on every path out of its loop. */
module TransferSafety {
  import opened Options
  import opened Transfers

  // ---------------------------------------------------------------------------
  // Conservation
  // ---------------------------------------------------------------------------

  function Sum(xs: seq<int>): int {
    if xs == [] then 0 else Sum(xs[..|xs| - 1]) + xs[|xs| - 1]
  }

  lemma SumPush(xs: seq<int>, x: int)
    ensures Sum(xs + [x]) == Sum(xs) + x
  {
    assert (xs + [x])[..|xs|] == xs;
  }

  /** What the loop keeps: every byte read is charged or waits in accounted. */
  ghost predicate Balanced(cfg: Config, buffer: nat, p: Progress) {
    && p.accounted >= 0 && Sum(p.charges) + p.accounted == p.read
    && (cfg.accountBytes > 0 ==>
          && p.accounted < cfg.accountBytes + buffer
          && (forall i | 0 <= i < |p.charges| :: cfg.accountBytes <= p.charges[i] < cfg.accountBytes + buffer))
  }

  ghost predicate FitsBuffer(script: seq<Round>, buffer: nat) {
    forall i | 0 <= i < |script| :: script[i].nr <= buffer
  }

  lemma BeforeKeeps(cfg: Config, answers: seq<Option<Error>>, buffer: nat, p: Progress)
    requires Balanced(cfg, buffer, p)
    ensures Balanced(cfg, buffer, Before(cfg, answers, p))
    ensures cfg.accountBytes > 0 ==> Before(cfg, answers, p).accounted < cfg.accountBytes
  {
    SumPush(p.charges, p.accounted);
  }

  lemma {:induction false} LoopKeeps(cfg: Config, answers: seq<Option<Error>>, script: seq<Round>,
                                     buffer: nat, p: Progress)
    requires Balanced(cfg, buffer, p) && FitsBuffer(script, buffer) && buffer > 0
    ensures Balanced(cfg, buffer, Loop(cfg, answers, script, p))
    decreases |script|
  {
    hide Sum, Before, Stops, WriteFails;
    var r := Next(script);
    BeforeKeeps(cfg, answers, buffer, p);
    var p1 := Read(Before(cfg, answers, p), r.nr);
    assert Balanced(cfg, buffer, p1);
    if script != [] {
      LoopKeeps(cfg, answers, script[1..], buffer, p1);
    }
  }

  /** On every path out of the loop the amounts passed to Decrement add up to the bytes read. With a
      positive AccountBytes each of them is below AccountBytes + buffer and all but the last are
      at least AccountBytes. */
  lemma BytesConserved(cfg: Config, answers: seq<Option<Error>>, script: seq<Round>, buffer: nat)
    requires FitsBuffer(script, buffer) && buffer > 0
    ensures var out := Transferred(cfg, answers, script);
            && Sum(out.charges) == out.read
            && (cfg.accountBytes > 0 ==>
                  && (forall i | 0 <= i < |out.charges| :: 0 < out.charges[i] < cfg.accountBytes + buffer)
                  && (forall i | 0 <= i < |out.charges| - 1 :: cfg.accountBytes <= out.charges[i]))
  {
    hide Loop, Sum;
    var p := Loop(cfg, answers, script, START);
    LoopFromStart(cfg, answers, script, buffer);
    SumPush(p.charges, p.accounted);
  }

  lemma {:induction false} ChargesBound(least: int, charges: seq<int>)
    requires forall i | 0 <= i < |charges| :: least <= charges[i]
    ensures |charges| * least <= Sum(charges)
  {
    if charges != [] {
      var n := |charges| - 1;
      ChargesBound(least, charges[..n]);
      assert |charges| * least == n * least + least;
    }
  }

  /** So there is at most one call for each AccountBytes read, and one more. */
  lemma FewCharges(cfg: Config, answers: seq<Option<Error>>, script: seq<Round>, buffer: nat)
    requires FitsBuffer(script, buffer) && buffer > 0 && cfg.accountBytes > 0
    ensures var out := Transferred(cfg, answers, script);
            |out.charges| > 0 ==> (|out.charges| - 1) * cfg.accountBytes < out.read
  {
    hide Transferred;
    BytesConserved(cfg, answers, script, buffer);
    var charges := Transferred(cfg, answers, script).charges;
    if charges != [] {
      ChargesBound(cfg.accountBytes, charges[..|charges| - 1]);
    }
  }

  // ---------------------------------------------------------------------------
  // A transfer on its way
  // ---------------------------------------------------------------------------

  /** The state when k rounds are over. */
  function At(cfg: Config, answers: seq<Option<Error>>, script: seq<Round>, k: nat): Progress
    requires k <= |script|
  {
    if k == 0 then START
    else Read(Before(cfg, answers, At(cfg, answers, script, k - 1)), script[k - 1].nr)
  }

  predicate Runs(cfg: Config, script: seq<Round>, k: nat) {
    k <= |script| && forall i | 0 <= i < k :: Stops(cfg, script[i]) == None
  }

  lemma {:induction false} AtOnLoop(cfg: Config, answers: seq<Option<Error>>, script: seq<Round>, k: nat)
    requires Runs(cfg, script, k)
    ensures Loop(cfg, answers, script, START) == Loop(cfg, answers, script[k..], At(cfg, answers, script, k))
  {
    if k == 0 {
      assert script[0..] == script;
    } else {
      AtOnLoop(cfg, answers, script, k - 1);
      assert script[k - 1..][1..] == script[k..];
    }
  }

  /** Where a transfer can be between two calls that others can see: about to begin a round, charged but
      not read, out of the loop with the last charge to come, or returned. */
  datatype Where = Top(k: nat) | Reading(k: nat) | Ended | Returned

  predicate OnPath(cfg: Config, script: seq<Round>, w: Where) {
    match w
    case Top(k) => Runs(cfg, script, k)
    case Reading(k) => Runs(cfg, script, k) && !(cfg.setsDeadline && Next(script[k..]).deadlineErr.Some?)
    case _ => true
  }

  function Now(cfg: Config, answers: seq<Option<Error>>, script: seq<Round>, w: Where): Progress
    requires OnPath(cfg, script, w)
  {
    match w
    case Top(k) => At(cfg, answers, script, k)
    case Reading(k) => Before(cfg, answers, At(cfg, answers, script, k))
    case Ended => Loop(cfg, answers, script, START)
    case Returned => Transferred(cfg, answers, script)
  }

  lemma {:induction false} AtBalanced(cfg: Config, answers: seq<Option<Error>>, script: seq<Round>, buffer: nat, k: nat)
    requires FitsBuffer(script, buffer) && buffer > 0 && k <= |script|
    ensures Balanced(cfg, buffer, At(cfg, answers, script, k))
  {
    if k == 0 {
      assert Sum([]) == 0;
    } else {
      AtBalanced(cfg, answers, script, buffer, k - 1);
      BeforeKeeps(cfg, answers, buffer, At(cfg, answers, script, k - 1));
    }
  }

  /** At every moment of a transfer: what it has charged and what it holds unbilled is what it has read;
      what it holds is below AccountBytes + buffer, and nothing once it has returned. */
  lemma UnbilledIsBounded(cfg: Config, answers: seq<Option<Error>>, script: seq<Round>, buffer: nat, w: Where)
    requires FitsBuffer(script, buffer) && buffer > 0 && OnPath(cfg, script, w)
    ensures var p := Now(cfg, answers, script, w);
            && Sum(p.charges) + p.accounted == p.read && p.accounted >= 0
            && (cfg.accountBytes > 0 ==> p.accounted < cfg.accountBytes + buffer)
            && (w.Returned? ==> p.accounted == 0)
  {
    hide Sum, At, Loop;
    match w
    case Top(k) => AtBalanced(cfg, answers, script, buffer, k);
    case Reading(k) =>
      AtBalanced(cfg, answers, script, buffer, k);
      BeforeKeeps(cfg, answers, buffer, At(cfg, answers, script, k));
    case Ended => LoopFromStart(cfg, answers, script, buffer);
    case Returned =>
      LoopFromStart(cfg, answers, script, buffer);
      BytesConserved(cfg, answers, script, buffer);
  }

  lemma LoopFromStart(cfg: Config, answers: seq<Option<Error>>, script: seq<Round>, buffer: nat)
    requires FitsBuffer(script, buffer) && buffer > 0
    ensures Balanced(cfg, buffer, Loop(cfg, answers, script, START))
  {
    assert Sum([]) == 0;
    LoopKeeps(cfg, answers, script, buffer, START);
  }

  lemma {:induction false} LoopExtends(cfg: Config, answers: seq<Option<Error>>, script: seq<Round>, p: Progress)
    ensures p.charges <= Loop(cfg, answers, script, p).charges && p.read <= Loop(cfg, answers, script, p).read
    decreases |script|
  {
    if script != [] {
      LoopExtends(cfg, answers, script[1..], Read(Before(cfg, answers, p), script[0].nr));
    }
  }

  /** Its calls so far are the first of those it makes in all. */
  lemma ChargesSoFar(cfg: Config, answers: seq<Option<Error>>, script: seq<Round>, w: Where)
    requires OnPath(cfg, script, w)
    ensures Now(cfg, answers, script, w).charges <= Transferred(cfg, answers, script).charges
    ensures Now(cfg, answers, script, w).read <= Transferred(cfg, answers, script).read
  {
    if w.Top? || w.Reading? {
      var p := At(cfg, answers, script, w.k);
      AtOnLoop(cfg, answers, script, w.k);
      if w.Top? {
        LoopExtends(cfg, answers, script[w.k..], p);
      } else {
        ReadingExtends(cfg, answers, script[w.k..], p);
      }
    }
  }

  lemma ReadingExtends(cfg: Config, answers: seq<Option<Error>>, script: seq<Round>, p: Progress)
    requires !(cfg.setsDeadline && Next(script).deadlineErr.Some?)
    ensures Before(cfg, answers, p).charges <= Loop(cfg, answers, script, p).charges
    ensures p.read <= Loop(cfg, answers, script, p).read
  {
    if script != [] {
      LoopExtends(cfg, answers, script[1..], Read(Before(cfg, answers, p), script[0].nr));
    }
  }

  // ---------------------------------------------------------------------------
  // The error
  // ---------------------------------------------------------------------------

  /** Why the loop ended, on the script alone. */
  function Reason(cfg: Config, script: seq<Round>): Option<Error>
    decreases |script|
  {
    var r := Next(script);
    if Stops(cfg, r) == None && script != [] then Reason(cfg, script[1..])
    else if Stops(cfg, r) == Some(EOF) && !WriteFails(r) && !(cfg.setsDeadline && r.deadlineErr.Some?) then None
    else Stops(cfg, r)
  }

  predicate Silent(answers: seq<Option<Error>>) {
    forall i | 0 <= i < |answers| :: answers[i] == None
  }

  lemma {:induction false} LoopErr(cfg: Config, answers: seq<Option<Error>>, script: seq<Round>, p: Progress)
    requires Silent(answers) && p.err == None
    ensures Loop(cfg, answers, script, p).err == Reason(cfg, script)
    decreases |script|
  {
    if script != [] && Stops(cfg, script[0]) == None {
      LoopErr(cfg, answers, script[1..], Read(Before(cfg, answers, p), script[0].nr));
    }
  }

  /** The rounds that do not end the loop; the next one does. */
  function FullRounds(cfg: Config, script: seq<Round>): (k: nat)
    ensures k <= |script|
  {
    if script == [] || Stops(cfg, script[0]).Some? then 0 else 1 + FullRounds(cfg, script[1..])
  }

  /** The bytes read since the last charge, when k rounds are over. */
  function Unbilled(accountBytes: int, script: seq<Round>, k: nat): int
    requires k <= |script|
  {
    if k == 0 then 0
    else
      var before := Unbilled(accountBytes, script, k - 1);
      (if before >= accountBytes then 0 else before) + script[k - 1].nr
  }

  /** The same when the loop has ended. */
  function LeftOver(cfg: Config, script: seq<Round>): int {
    var k := FullRounds(cfg, script);
    var r, before := Next(script[k..]), Unbilled(cfg.accountBytes, script, k);
    if cfg.setsDeadline && r.deadlineErr.Some? then before
    else (if before >= cfg.accountBytes then 0 else before) + r.nr
  }

  lemma {:induction false} AtIsUnbilled(cfg: Config, answers: seq<Option<Error>>, script: seq<Round>, k: nat)
    requires k <= |script|
    ensures At(cfg, answers, script, k).accounted == Unbilled(cfg.accountBytes, script, k)
  {
    if k > 0 {
      AtIsUnbilled(cfg, answers, script, k - 1);
    }
  }

  lemma {:induction false} FullRoundsRun(cfg: Config, script: seq<Round>)
    ensures Runs(cfg, script, FullRounds(cfg, script))
    ensures var rest := script[FullRounds(cfg, script)..];
            rest == [] || Stops(cfg, rest[0]).Some?
  {
    if script != [] && Stops(cfg, script[0]).None? {
      FullRoundsRun(cfg, script[1..]);
      var k := FullRounds(cfg, script[1..]);
      assert script[1..][k..] == script[k + 1..];
      assert forall i | 1 <= i < k + 1 :: script[i] == script[1..][i - 1];
    }
  }

  lemma LastRound(cfg: Config, answers: seq<Option<Error>>, script: seq<Round>, p: Progress)
    requires script == [] || Stops(cfg, script[0]).Some?
    ensures var r := Next(script);
            Loop(cfg, answers, script, p).accounted
            == if cfg.setsDeadline && r.deadlineErr.Some? then p.accounted
               else (if p.accounted >= cfg.accountBytes then 0 else p.accounted) + r.nr
  {
  }

  lemma LoopLeavesOver(cfg: Config, answers: seq<Option<Error>>, script: seq<Round>)
    ensures Loop(cfg, answers, script, START).accounted == LeftOver(cfg, script)
  {
    hide Loop, At, Unbilled, FullRounds, Runs, Stops;
    var k := FullRounds(cfg, script);
    FullRoundsRun(cfg, script);
    AtOnLoop(cfg, answers, script, k);
    AtIsUnbilled(cfg, answers, script, k);
    LastRound(cfg, answers, script[k..], At(cfg, answers, script, k));
  }

  /** With an accountant that always answers nil the error of the transfer is reported exactly when
      no byte has been read since the last charge: the last call of Decrement overwrites it otherwise. */
  lemma ErrorReported(cfg: Config, answers: seq<Option<Error>>, script: seq<Round>)
    requires Silent(answers)
    ensures Transferred(cfg, answers, script).err
            == if LeftOver(cfg, script) > 0 then None else Reason(cfg, script)
  {
    LoopErr(cfg, answers, script, START);
    LoopLeavesOver(cfg, answers, script);
  }

  lemma {:induction false} UnbilledAtLeastZero(accountBytes: int, script: seq<Round>, k: nat)
    requires k <= |script|
    ensures Unbilled(accountBytes, script, k) >= 0
  {
    if k > 0 {
      UnbilledAtLeastZero(accountBytes, script, k - 1);
    }
  }

  /** In terms of the round that ends the loop, for a positive AccountBytes: a deadline that cannot be set
      is reported when nothing is unbilled, and anything else only when that round reads nothing and what
      was unbilled before it was nothing or enough to be charged first. */
  lemma LastRoundDecides(cfg: Config, answers: seq<Option<Error>>, script: seq<Round>)
    requires Silent(answers) && cfg.accountBytes > 0 && Reason(cfg, script).Some?
    ensures var k := FullRounds(cfg, script);
            var r, before := Next(script[k..]), Unbilled(cfg.accountBytes, script, k);
            Transferred(cfg, answers, script).err == Reason(cfg, script)
            <==> if cfg.setsDeadline && r.deadlineErr.Some? then before == 0
                 else r.nr == 0 && (before == 0 || before >= cfg.accountBytes)
  {
    ErrorReported(cfg, answers, script);
    UnbilledAtLeastZero(cfg.accountBytes, script, FullRounds(cfg, script));
  }

  /** Does a write end the loop? */
  predicate EndsInWrite(cfg: Config, script: seq<Round>)
    decreases |script|
  {
    script != [] &&
    (if Stops(cfg, script[0]) == None then EndsInWrite(cfg, script[1..])
     else WriteFails(script[0]) && !(cfg.setsDeadline && script[0].deadlineErr.Some?))
  }

  lemma {:induction false} WaitingAfterWrite(cfg: Config, answers: seq<Option<Error>>, script: seq<Round>,
                                             p: Progress)
    requires p.accounted >= 0 && EndsInWrite(cfg, script)
    ensures Loop(cfg, answers, script, p).accounted > 0
    decreases |script|
  {
    if Stops(cfg, script[0]) == None {
      WaitingAfterWrite(cfg, answers, script[1..], Read(Before(cfg, answers, p), script[0].nr));
    }
  }

  /** So a write that fails or falls short is never reported: Transfer returns what Decrement does. */
  lemma WriteErrorsLost(cfg: Config, answers: seq<Option<Error>>, script: seq<Round>)
    requires EndsInWrite(cfg, script)
    ensures var out := Transferred(cfg, answers, script);
            |out.charges| > 0 && out.err == DecErr(answers, |out.charges| - 1)
  {
    WaitingAfterWrite(cfg, answers, script, START);
  }

  // ---------------------------------------------------------------------------
  // On the fields of the rounds alone
  // ---------------------------------------------------------------------------

  /** The breaks of the loop. */
  predicate EndsLoop(setsDeadline: bool, r: Round) {
    || (setsDeadline && r.deadlineErr.Some?)
    || (r.nr > 0 && (r.writeErr.Some? || r.nw != r.nr))
    || r.readErr.Some?
  }

  predicate IsLast(setsDeadline: bool, script: seq<Round>, k: nat) {
    && k <= |script|
    && (forall i | 0 <= i < k :: !EndsLoop(setsDeadline, script[i]))
    && (k < |script| ==> EndsLoop(setsDeadline, script[k]))
  }

  function BytesIn(script: seq<Round>): int {
    if script == [] then 0 else BytesIn(script[..|script| - 1]) + script[|script| - 1].nr
  }

  lemma {:induction false} ReasonFrom(cfg: Config, script: seq<Round>, k: nat)
    requires Runs(cfg, script, k)
    ensures Reason(cfg, script) == Reason(cfg, script[k..])
  {
    if k == 0 {
      assert script[0..] == script;
    } else {
      ReasonFrom(cfg, script, k - 1);
      assert script[k - 1..][1..] == script[k..];
    }
  }

  lemma {:induction false} ReadSoFar(cfg: Config, answers: seq<Option<Error>>, script: seq<Round>, k: nat)
    requires k <= |script|
    ensures At(cfg, answers, script, k).read == BytesIn(script[..k])
  {
    if k > 0 {
      ReadSoFar(cfg, answers, script, k - 1);
      assert script[..k][..k - 1] == script[..k - 1];
    }
  }

  lemma {:induction false} FullRoundsBefore(cfg: Config, script: seq<Round>, k: nat)
    requires IsLast(cfg.setsDeadline, script, k)
    ensures FullRounds(cfg, script) == k && Runs(cfg, script, k)
    decreases k
  {
    if k > 0 {
      assert !EndsLoop(cfg.setsDeadline, script[0]);
      FullRoundsBefore(cfg, script[1..], k - 1);
    }
  }

  /** The loop goes on until the first round, k, with a deadline that cannot be set, a write that fails or
      falls short, or any read error; past its script a connection is at its end. It has read what the
      rounds up to there returned, without round k when its deadline failed. The reason is that round's
      deadline error, else its write error, else the short write, else its read error unless that is the
      end; the transfer returns it when nothing is left to charge for. */
  lemma LastRoundOf(cfg: Config, answers: seq<Option<Error>>, script: seq<Round>, k: nat)
    requires IsLast(cfg.setsDeadline, script, k) && Silent(answers)
    ensures var r := if k < |script| then script[k] else END;
            var noDeadline := cfg.setsDeadline && r.deadlineErr.Some?;
            var reason := if noDeadline then r.deadlineErr
                          else if r.nr > 0 && r.writeErr.Some? then r.writeErr
                          else if r.nr > 0 && r.nw != r.nr then Some(ShortWrite)
                          else if r.readErr == Some(EOF) then None else r.readErr;
            var out := Transferred(cfg, answers, script);
            && FullRounds(cfg, script) == k && Reason(cfg, script) == reason
            && out.read == BytesIn(script[..k]) + (if noDeadline then 0 else r.nr)
            && out.err == if LeftOver(cfg, script) > 0 then None else reason
  {
    hide At, BytesIn, LeftOver, FullRounds;
    FullRoundsBefore(cfg, script, k);
    ReasonFrom(cfg, script, k);
    AtOnLoop(cfg, answers, script, k);
    ReadSoFar(cfg, answers, script, k);
    ErrorReported(cfg, answers, script);
  }

  /** There is exactly one such round. */
  lemma {:induction false} OneLastRound(setsDeadline: bool, script: seq<Round>) returns (k: nat)
    ensures IsLast(setsDeadline, script, k)
    ensures forall j | IsLast(setsDeadline, script, j) :: j == k
  {
    k := 0;
    while k < |script| && !EndsLoop(setsDeadline, script[k])
      invariant k <= |script| && forall i | 0 <= i < k :: !EndsLoop(setsDeadline, script[i])
    {
      k := k + 1;
    }
  }

  // ---------------------------------------------------------------------------
  // Errors of the accountant
  // ---------------------------------------------------------------------------

  function LastAnswer(answers: seq<Option<Error>>, charges: seq<int>): Option<Error> {
    if charges == [] then None else DecErr(answers, |charges| - 1)
  }

  lemma {:induction false} ErrAt(cfg: Config, answers: seq<Option<Error>>, script: seq<Round>, k: nat)
    requires k <= |script|
    ensures var p := At(cfg, answers, script, k);
            !cfg.setsDeadline ==> p.err == LastAnswer(answers, p.charges)
  {
    if k > 0 {
      ErrAt(cfg, answers, script, k - 1);
    }
  }

  /** With any accountant: the answer of the last call counts when bytes were left to charge for, the
      reason of the loop otherwise. When the connection just ended, the answer of the last call stands,
      unless a deadline has been set since that call. */
  lemma ErrorOf(cfg: Config, answers: seq<Option<Error>>, script: seq<Round>, k: nat)
    requires IsLast(cfg.setsDeadline, script, k)
    ensures var out := Transferred(cfg, answers, script);
            out.err == if LeftOver(cfg, script) > 0 then LastAnswer(answers, out.charges)
                       else if Reason(cfg, script).Some? then Reason(cfg, script)
                       else if cfg.setsDeadline && Unbilled(cfg.accountBytes, script, k) < cfg.accountBytes then None
                       else LastAnswer(answers, out.charges)
  {
    hide At, Unbilled, LeftOver, FullRounds;
    FullRoundsBefore(cfg, script, k);
    ReasonFrom(cfg, script, k);
    AtOnLoop(cfg, answers, script, k);
    AtIsUnbilled(cfg, answers, script, k);
    LoopLeavesOver(cfg, answers, script);
    ErrAt(cfg, answers, script, k);
  }
}
