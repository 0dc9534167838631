/** Chunked transfer coding (http.go; section 4.1 of RFC 7230): the writer, the one-shot reader
    and their round trip. */
module ChunkedBody {
  import opened Bytes
  import opened Options
  import opened PercentCodec
  import opened ByteSource
  import opened HexInts
  import opened Round2s

  // ---------------------------------------------------------------------------
  // Specification
  // ---------------------------------------------------------------------------

  function Chunk(b: Text): Text {
    Hex(|b|) + CRLF + b + if |b| > 0 then CRLF else []
  }

  function Chunks(pieces: seq<Text>): Text {
    if pieces == [] then [] else Chunk(pieces[0]) + Chunks(pieces[1..])
  }

  function Concat(pieces: seq<Text>): Text {
    if pieces == [] then [] else pieces[0] + Concat(pieces[1..])
  }

  /** Everything up to the first CR is skipped: chunk extensions are not interpreted. */
  function SkipToCr(s: Text): Parsed<()>
    decreases |s|
  {
    if s == [] then Err(BrokenChunk)
    else if s[0] == CR then Ok((), s)
    else SkipToCr(s[1..])
  }

  function ReadCrLfSpec(s: Text): Parsed<()> {
    if |s| >= 2 && s[..2] == CRLF then Ok((), s[2..]) else Err(BrokenChunk)
  }

  function ParseSize(s: Text): Parsed<nat> {
    match ReadHex(s, 0, 0)
    case Err(e) => Err(e)
    case Ok(n, rest) => (
      match SkipToCr(rest)
      case Err(e) => Err(e)
      case Ok(_, atCr) => (
        match ReadCrLfSpec(atCr)
        case Err(e) => Err(e)
        case Ok(_, rest') => Ok(n, rest')))
  }

  /** maxBody <= 0: no limit. room: the largest buffer there can be, given the capacity the
      caller's buffer came with. */
  datatype Limits = Limits(maxBody: int, room: nat)

  function RoomFor(initialCap: nat): nat {
    if initialCap > MAX_INT32 then initialCap else MAX_INT32
  }

  /** Panics: the reslice past the capacity of a buffer that round2 made too small. */
  datatype Outcome = Done(body: Text, rest: Text) | Failed(e: BodyError) | Panics

  function ReadBody(lim: Limits, acc: Text, s: Text): Outcome
    decreases |s|
  {
    match ParseSize(s)
    case Err(e) => Failed(e)
    case Ok(n, rest) =>
      if n == 0 then Done(acc, rest)
      else if lim.maxBody > 0 && |acc| + n > lim.maxBody then Failed(BodyTooLarge)
      else if |acc| + n + 2 > lim.room then Panics
      else if |rest| < n + 2 then Failed(UnexpectedEof)
      else if rest[n..n + 2] != CRLF then Failed(BrokenChunk)
      else
        ParseSizeShrinks(s);
        ReadBody(lim, acc + rest[..n], rest[n + 2..])
  }

  lemma {:induction false} ReadHexShrinks(s: Text, n: nat, i: nat)
    ensures ReadHex(s, n, i).Ok? ==> |ReadHex(s, n, i).rest| <= |s|
    decreases |s|
  {
    if s != [] && HexVal(s[0]) != 16 && i < MAX_HEX_INT_CHARS {
      ReadHexShrinks(s[1..], 16 * n + HexVal(s[0]), i + 1);
    }
  }

  lemma {:induction false} SkipToCrShrinks(s: Text)
    ensures SkipToCr(s).Ok? ==> |SkipToCr(s).rest| <= |s|
    decreases |s|
  {
    if s != [] && s[0] != CR {
      SkipToCrShrinks(s[1..]);
    }
  }

  lemma ParseSizeShrinks(s: Text)
    ensures ParseSize(s).Ok? ==> |ParseSize(s).rest| < |s|
  {
    ReadHexShrinks(s, 0, 0);
    if ReadHex(s, 0, 0).Ok? {
      SkipToCrShrinks(ReadHex(s, 0, 0).rest);
    }
  }

  // ---------------------------------------------------------------------------
  // Round trip
  // ---------------------------------------------------------------------------

  lemma ParsePrintedSize(n: nat, rest: Text)
    ensures ParseSize(Hex(n) + CRLF + rest)
         == if n < Pow16(MAX_HEX_INT_CHARS) then Ok(n, rest) else Err(TooLargeHexNum)
  {
    var after := CRLF + rest;
    Append3(Hex(n), CRLF, rest);
    ReadWrittenHex(n, after);
    assert SkipToCr(after) == Ok((), after);
    assert after[..2] == CRLF && after[2..] == rest;
  }

  predicate Fits(lim: Limits, n: nat) {
    (lim.maxBody <= 0 || n <= lim.maxBody) && n + 2 <= lim.room
  }

  ghost predicate Writable(pieces: seq<Text>) {
    forall p | p in pieces :: 0 < |p| < Pow16(MAX_HEX_INT_CHARS)
  }

  lemma ReadOneChunk(lim: Limits, acc: Text, piece: Text, more: Text)
    requires 0 < |piece| < Pow16(MAX_HEX_INT_CHARS)
    ensures var out := ReadBody(lim, acc, Chunk(piece) + more);
            if Fits(lim, |acc + piece|) then out == ReadBody(lim, acc + piece, more) else !out.Done?
  {
    var rest := piece + CRLF + more;
    assert Chunk(piece) + more == Hex(|piece|) + CRLF + rest;
    ParsePrintedSize(|piece|, rest);
    var n := |piece|;
    assert rest[..n] == piece && rest[n..n + 2] == CRLF && rest[n + 2..] == more;
  }

  lemma ReadLastChunk(lim: Limits, acc: Text, trailer: Text)
    ensures ReadBody(lim, acc, Chunk([]) + trailer) == Done(acc, trailer)
  {
    assert Chunk([]) + trailer == Hex(0) + CRLF + trailer;
    ParsePrintedSize(0, trailer);
  }

  /** The body written in any pieces is read back whole, and the reader stops exactly before the
      trailer section; it is refused exactly when it exceeds the limit or the largest buffer. */
  lemma {:induction false} ReadWrittenBody(lim: Limits, acc: Text, pieces: seq<Text>, trailer: Text)
    requires Writable(pieces)
    ensures var out := ReadBody(lim, acc, Chunks(pieces) + (Chunk([]) + trailer));
            && (out.Done? <==> pieces == [] || Fits(lim, |acc + Concat(pieces)|))
            && (out.Done? ==> out == Done(acc + Concat(pieces), trailer))
    decreases |pieces|
  {
    hide ReadBody, Chunk;
    var tail := Chunk([]) + trailer;
    if pieces == [] {
      ReadLastChunk(lim, acc, trailer);
      assert [] + tail == tail && acc + [] == acc;
    } else {
      var p, more := pieces[0], Chunks(pieces[1..]) + tail;
      assert p in pieces;
      Append3(Chunk(p), Chunks(pieces[1..]), tail);
      ReadOneChunk(lim, acc, p, more);
      ReadWrittenBody(lim, acc + p, pieces[1..], trailer);
      Append3(acc, p, Concat(pieces[1..]));
    }
  }

  /** A declared size within the body limit that the largest buffer cannot hold with its CRLF ends in
      the panic, whatever follows; while nothing has followed yet, no other size does. */
  lemma OversizedChunkPanics(lim: Limits, acc: Text, n: nat, rest: Text)
    requires 0 < n < Pow16(MAX_HEX_INT_CHARS)
    ensures var oversized := (lim.maxBody <= 0 || |acc| + n <= lim.maxBody) && |acc| + n + 2 > lim.room;
            var out := ReadBody(lim, acc, Hex(n) + CRLF + rest);
            (oversized ==> out == Panics) && (rest == [] && out == Panics ==> oversized)
  {
    ParsePrintedSize(n, rest);
  }

  lemma {:induction false} LimitExcludesPanic(lim: Limits, acc: Text, s: Text)
    requires 0 < lim.maxBody <= lim.room - 2
    ensures ReadBody(lim, acc, s) != Panics
    decreases |s|
  {
    if ParseSize(s).Ok? {
      var n, rest := ParseSize(s).value, ParseSize(s).rest;
      ParseSizeShrinks(s);
      if n > 0 && n + 2 <= |rest| {
        LimitExcludesPanic(lim, acc + rest[..n], rest[n + 2..]);
      }
    }
  }

  /** The reader panics on no input exactly when there is a body limit and the largest buffer holds a body
      of that size and a CRLF. Without a limit some input always makes it panic. */
  lemma NoInputPanics(lim: Limits)
    requires 2 <= lim.room < Pow16(MAX_HEX_INT_CHARS)
    ensures (forall s :: ReadBody(lim, [], s) != Panics) <==> 0 < lim.maxBody <= lim.room - 2
  {
    if 0 < lim.maxBody <= lim.room - 2 {
      forall s ensures ReadBody(lim, [], s) != Panics {
        LimitExcludesPanic(lim, [], s);
      }
    } else {
      OversizedChunkPanics(lim, [], lim.room - 1, []);
    }
  }

  // ---------------------------------------------------------------------------
  // The writer
  // ---------------------------------------------------------------------------

  method WriteChunk(w: Text, b: Text) returns (r: Text)
    requires |b| < INT_SPAN
    ensures r == w + Chunk(b)
  {
    r := WriteHexInt(w, |b|);
    r := r + CRLF;
    r := r + b;
    if |b| > 0 {
      r := r + CRLF;
    }
  }

  /** The pieces are what the Read calls on the body return before its end or, if failed, before
      its error; only a complete body gets its last chunk. */
  method WriteBodyChunked(w: Text, pieces: seq<Text>, failed: bool) returns (r: Text)
    requires forall p | p in pieces :: 0 < |p| < INT_SPAN
    ensures r == w + Chunks(pieces) + if failed then [] else Chunk([])
  {
    r := w;
    for i := 0 to |pieces|
      invariant r + Chunks(pieces[i..]) == w + Chunks(pieces)
    {
      hide Chunk;
      assert pieces[i..][0] == pieces[i] && pieces[i..][1..] == pieces[i + 1..];
      Append3(r, Chunk(pieces[i]), Chunks(pieces[i + 1..]));
      r := WriteChunk(r, pieces[i]);
    }
    if !failed {
      r := WriteChunk(r, []);
    }
  }

  // ---------------------------------------------------------------------------
  // The one-shot reader
  // ---------------------------------------------------------------------------

  method ReadCrLf(r: BufReader) returns (err: Option<BodyError>)
    requires r.Valid()
    modifies r
    ensures r.Valid()
    ensures match ReadCrLfSpec(old(r.Rest()))
            case Ok(_, rest) => err == None && r.Rest() == rest
            case Err(e) => err == Some(e)
    ensures |r.Rest()| <= |old(r.Rest())|
  {
    ghost var all := r.Rest();
    for i := 0 to 2
      invariant r.Valid() && i <= |all|
      invariant all[..i] == CRLF[..i] && r.Rest() == all[i..]
    {
      var exp := if i == 0 then CR else LF;
      var c := r.ReadByte();
      assert |all| >= 2 ==> all[..2][i] == all[i] && CRLF[i] == exp;
      if c.None? || c.value != exp {
        return Some(BrokenChunk);
      }
    }
    return None;
  }

  method ParseChunkSize(r: BufReader) returns (n: int, err: Option<BodyError>)
    requires r.Valid()
    modifies r
    ensures r.Valid()
    ensures match ParseSize(old(r.Rest()))
            case Ok(v, rest) => err == None && n == v && r.Rest() == rest
            case Err(e) => err == Some(e) && n == -1
    ensures err == None ==> |r.Rest()| < |old(r.Rest())|
  {
    n, err := ReadHexInt(r);
    if err.Some? {
      return -1, err;
    }
    ghost var start := r.Rest();
    while true
      invariant r.Valid()
      invariant SkipToCr(r.Rest()) == SkipToCr(start)
      invariant |r.Rest()| <= |start|
      decreases |r.Rest()|
    {
      ghost var before := r.Rest();
      var c := r.ReadByte();
      if c.None? {
        return -1, Some(BrokenChunk);
      }
      assert before[1..] == r.Rest();
      if c.value == CR {
        r.UnreadByte();
        break;
      }
    }
    err := ReadCrLf(r);
    if err.Some? {
      n := -1;
    }
  }

  /** Grows dst by n bytes of input, however they arrive. The capacity is followed because a
      buffer that is still too small after round2 makes the reslice panic. */
  method AppendBodyFixedSize(r: BufReader, dst: Text, capacity: nat, n: nat)
    returns (dst': Text, capacity': nat, err: Option<BodyError>, panics: bool)
    requires r.Valid() && |dst| <= capacity
    modifies r
    ensures r.Valid() && |r.Rest()| <= |old(r.Rest())|
    ensures panics <==> n > 0 && |dst| + n > RoomFor(capacity)
    ensures !panics ==> |dst'| <= capacity' && RoomFor(capacity') == RoomFor(capacity)
    ensures !panics && |old(r.Rest())| >= n ==>
              err == None && dst' == dst + old(r.Rest())[..n] && r.Rest() == old(r.Rest())[n..]
    ensures !panics && |old(r.Rest())| < n ==> err == Some(UnexpectedEof)
  {
    dst', capacity', err, panics := dst, capacity, None, false;
    if n == 0 {
      return;
    }
    var dstLen := |dst| + n;
    if capacity < dstLen {
      capacity' := Round2(dstLen);
      Round2Fits(dstLen);
    }
    if dstLen > capacity' {
      return dst, capacity, None, true;
    }
    ghost var input := r.Rest();
    while true
      invariant r.Valid() && |dst| <= |dst'| < dstLen
      invariant dst' + r.Rest() == dst + input
      decreases |r.Rest()|
    {
      var p := r.Read(dstLen - |dst'|);
      if |p| == 0 {
        assert |dst' + r.Rest()| == |dst + input|;
        return dst', capacity', Some(UnexpectedEof), false;
      }
      dst' := dst' + p;
      assert dst' + r.Rest() == dst + input;
      if |dst'| == dstLen {
        TakeBoth(dst, input, dst', r.Rest(), n);
        return;
      }
    }
  }

  lemma TakeBoth(a: Text, b: Text, c: Text, d: Text, n: nat)
    requires a + b == c + d && |c| == |a| + n
    ensures n <= |b| && c == a + b[..n] && d == b[n..]
  {
    assert |a + b| == |c + d|;
    assert c == (c + d)[..|c|] && d == (c + d)[|c|..];
    assert (a + b)[..|c|] == a + b[..n] && (a + b)[|c|..] == b[n..];
  }

  /** The data of a chunk of n bytes and its CRLF, appended without the CRLF. */
  method ReadChunkData(r: BufReader, dst: Text, capacity: nat, n: nat)
    returns (dst': Text, capacity': nat, err: Option<BodyError>, panics: bool)
    requires r.Valid() && |dst| <= capacity
    modifies r
    ensures r.Valid() && |r.Rest()| <= |old(r.Rest())|
    ensures panics <==> |dst| + n + 2 > RoomFor(capacity)
    ensures var rest := old(r.Rest());
            !panics ==>
              if |rest| < n + 2 then err == Some(UnexpectedEof)
              else if rest[n..n + 2] != CRLF then err == Some(BrokenChunk)
              else err == None && dst' == dst + rest[..n] && r.Rest() == rest[n + 2..]
                   && |dst'| <= capacity' && RoomFor(capacity') == RoomFor(capacity)
  {
    hide RoomFor;
    ghost var rest := r.Rest();
    dst', capacity', err, panics := AppendBodyFixedSize(r, dst, capacity, n + 2);
    if panics || err.Some? {
      return;
    }
    assert dst'[|dst'| - 2..] == rest[n..n + 2];
    if dst'[|dst'| - 2..] != CRLF {
      err := Some(BrokenChunk);
      return;
    }
    dst' := dst'[..|dst'| - 2];
    assert dst' == dst + rest[..n];
  }

  /** What follows from a size line that has been parsed. */
  function AfterSize(lim: Limits, acc: Text, n: nat, rest: Text): Outcome {
    if n == 0 then Done(acc, rest)
    else if lim.maxBody > 0 && |acc| + n > lim.maxBody then Failed(BodyTooLarge)
    else if |acc| + n + 2 > lim.room then Panics
    else if |rest| < n + 2 then Failed(UnexpectedEof)
    else if rest[n..n + 2] != CRLF then Failed(BrokenChunk)
    else ReadBody(lim, acc + rest[..n], rest[n + 2..])
  }

  lemma ReadBodyUnfold(lim: Limits, acc: Text, s: Text)
    ensures ParseSize(s).Err? ==> ReadBody(lim, acc, s) == Failed(ParseSize(s).e)
    ensures ParseSize(s).Ok? ==> ReadBody(lim, acc, s) == AfterSize(lim, acc, ParseSize(s).value, ParseSize(s).rest)
  {
  }

  method ReadBodyChunked(r: BufReader, maxBodySize: int, initialCap: nat)
    returns (dst: Text, err: Option<BodyError>, panics: bool)
    requires r.Valid()
    modifies r
    ensures r.Valid()
    ensures match ReadBody(Limits(maxBodySize, RoomFor(initialCap)), [], old(r.Rest()))
            case Done(body, rest) => !panics && err == None && dst == body && r.Rest() == rest
            case Failed(e) => !panics && err == Some(e)
            case Panics => panics
  {
    hide ReadBody, ParseSize, RoomFor;
    dst, err, panics := [], None, false;
    var capacity: nat := initialCap;
    ghost var lim := Limits(maxBodySize, RoomFor(initialCap));
    while true
      invariant r.Valid() && |dst| <= capacity && RoomFor(capacity) == lim.room
      invariant ReadBody(lim, dst, r.Rest()) == ReadBody(lim, [], old(r.Rest()))
      invariant !panics
      decreases |r.Rest()|
    {
      ReadBodyUnfold(lim, dst, r.Rest());
      var chunkSize;
      chunkSize, err := ParseChunkSize(r);
      if err.Some? {
        return;
      }
      if chunkSize == 0 {
        return;
      }
      if maxBodySize > 0 && |dst| + chunkSize > maxBodySize {
        return dst, Some(BodyTooLarge), false;
      }
      dst, capacity, err, panics := ReadChunkData(r, dst, capacity, chunkSize);
      if panics || err.Some? {
        return;
      }
    }
  }
}
