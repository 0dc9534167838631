/** The copy loop that accounts for the bytes it moves (pkg/transfer.go). What the connections and
    the accountant answer is a script; a connection whose script is over is at its end. */
module Transfers {
  import opened Options

  datatype Error = EOF | ShortWrite | Failure(code: int)

  /** One round: SetReadDeadline, Read and Write as far as they are called. */
  datatype Round = Round(deadlineErr: Option<Error>, nr: nat, readErr: Option<Error>,
                         nw: int, writeErr: Option<Error>)

  const END := Round(None, 0, Some(EOF), 0, None)

  datatype Config = Config(setsDeadline: bool, accountBytes: int)

  /** charges holds the amounts passed to Decrement so far. */
  datatype Progress = Progress(read: int, accounted: int, err: Option<Error>, charges: seq<int>)

  const START := Progress(0, 0, None, [])

  function Next(script: seq<Round>): Round {
    if script == [] then END else script[0]
  }

  /** The i-th answer of Decrement. */
  function DecErr(answers: seq<Option<Error>>, i: nat): Option<Error> {
    if i < |answers| then answers[i] else None
  }

  function Charge(answers: seq<Option<Error>>, p: Progress): Progress {
    Progress(p.read, 0, DecErr(answers, |p.charges|), p.charges + [p.accounted])
  }

  /** A round before the read. */
  function Before(cfg: Config, answers: seq<Option<Error>>, p: Progress): Progress {
    var p := if cfg.setsDeadline then p.(err := None) else p;
    if p.accounted >= cfg.accountBytes then Charge(answers, p) else p
  }

  /** Why a round ends the loop; None when it does not, Some(EOF) when that is no error. */
  function Stops(cfg: Config, r: Round): Option<Error> {
    if cfg.setsDeadline && r.deadlineErr.Some? then r.deadlineErr
    else if r.nr > 0 && r.writeErr.Some? then r.writeErr
    else if r.nr > 0 && r.nw != r.nr then Some(ShortWrite)
    else r.readErr
  }

  function Read(p: Progress, n: nat): Progress {
    p.(read := p.read + n, accounted := p.accounted + n)
  }

  predicate WriteFails(r: Round) {
    r.nr > 0 && (r.writeErr.Some? || r.nw != r.nr)
  }

  /** The loop, up to its break. */
  function Loop(cfg: Config, answers: seq<Option<Error>>, script: seq<Round>, p: Progress): Progress
    decreases |script|
  {
    var r := Next(script);
    if cfg.setsDeadline && r.deadlineErr.Some? then p.(err := r.deadlineErr)
    else
      var p := Read(Before(cfg, answers, p), r.nr);
      if Stops(cfg, r) == None && script != [] then Loop(cfg, answers, script[1..], p)
      else if Stops(cfg, r) == Some(EOF) && !WriteFails(r) then p
      else p.(err := Stops(cfg, r))
  }

  function Finish(answers: seq<Option<Error>>, p: Progress): Progress {
    if p.accounted > 0 then Charge(answers, p) else p
  }

  function Transferred(cfg: Config, answers: seq<Option<Error>>, script: seq<Round>): Progress {
    Finish(answers, Loop(cfg, answers, script, START))
  }

  // ---------------------------------------------------------------------------
  // The method
  // ---------------------------------------------------------------------------

  class Accountant {
    const accountBytes: int
    const answers: seq<Option<Error>>
    var charges: seq<int>

    constructor (accountBytes: int, answers: seq<Option<Error>>)
      ensures this.accountBytes == accountBytes && this.answers == answers && charges == []
    {
      this.accountBytes, this.answers, charges := accountBytes, answers, [];
    }

    method Decrement(n: int) returns (err: Option<Error>)
      modifies this
      ensures charges == old(charges) + [n] && err == DecErr(answers, |old(charges)|)
    {
      err := DecErr(answers, |charges|);
      charges := charges + [n];
    }
  }

  /** The body of the loop; stop is its break. */
  method CopyRound(accountant: Accountant, setsDeadline: bool, r: Round, p: Progress)
    returns (read: int, accounted: int, err: Option<Error>, stop: bool)
    requires accountant.charges == p.charges
    modifies accountant
    ensures var cfg := Config(setsDeadline, accountant.accountBytes);
            var p' := Progress(read, accounted, err, accountant.charges);
            && stop == (Stops(cfg, r) != None)
            && p' == if setsDeadline && r.deadlineErr.Some? then p.(err := r.deadlineErr)
                     else
                       var p1 := Read(Before(cfg, accountant.answers, p), r.nr);
                       if !stop || (Stops(cfg, r) == Some(EOF) && !WriteFails(r)) then p1
                       else p1.(err := Stops(cfg, r))
  {
    read, accounted, err, stop := p.read, p.accounted, p.err, true;
    if setsDeadline {
      err := r.deadlineErr;
      if err != None {
        return;
      }
    }
    if accounted >= accountant.accountBytes {
      err := accountant.Decrement(accounted);
      accounted := 0;
    }
    accounted := accounted + r.nr;
    read := read + r.nr;
    if r.nr > 0 {
      if r.writeErr != None {
        err := r.writeErr;
        return;
      }
      if r.nw != r.nr {
        err := Some(ShortWrite);
        return;
      }
    }
    if r.readErr != None {
      if r.readErr != Some(EOF) {
        err := r.readErr;
      }
      return;
    }
    stop := false;
  }

  method Transfer(accountant: Accountant, setsDeadline: bool, script: seq<Round>)
    returns (read: int, err: Option<Error>)
    requires accountant.charges == []
    modifies accountant
    ensures var out := Transferred(Config(setsDeadline, accountant.accountBytes), accountant.answers, script);
            read == out.read && err == out.err && accountant.charges == out.charges
  {
    ghost var cfg := Config(setsDeadline, accountant.accountBytes);
    var accounted, stop, i := 0, false, 0;
    read, err := 0, None;
    while !stop
      invariant 0 <= i <= |script|
      invariant var p := Progress(read, accounted, err, accountant.charges);
                Loop(cfg, accountant.answers, script, START)
                == if stop then p else Loop(cfg, accountant.answers, script[i..], p)
      decreases |script| - i, !stop
    {
      hide Before;
      var r := if i < |script| then script[i] else END;
      read, accounted, err, stop := CopyRound(accountant, setsDeadline, r,
                                              Progress(read, accounted, err, accountant.charges));
      if i < |script| {
        i := i + 1;
      }
    }
    if accounted > 0 {
      err := accountant.Decrement(accounted);
    }
  }
}
