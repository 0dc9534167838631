/** requestStream.Read (streaming.go): the incremental reader agrees with the one-shot readers,
    for every sequence of buffer sizes and every way the bytes arrive. */
module RequestStreams {
  import opened Bytes
  import opened Options
  import opened ByteSource
  import opened HexInts
  import opened ChunkedBody

  // ---------------------------------------------------------------------------
  // Chunked bodies
  // ---------------------------------------------------------------------------

  /** What is still to come of a chunked body of which left bytes of the current chunk are
      missing: the remaining bytes and what follows the last chunk, None if it is malformed. */
  function Remaining(left: nat, s: Text): Option<(Text, Text)>
    decreases |s|
  {
    if left > 0 then
      if |s| < left + 2 || s[left..left + 2] != CRLF then None
      else Prepend(s[..left], Remaining(0, s[left + 2..]))
    else
      match ParseSize(s)
      case Err(_) => None
      case Ok(n, rest) =>
        ParseSizeShrinks(s);
        if n == 0 then Some(([], rest)) else Remaining(n, rest)
  }

  function Prepend(p: Text, r: Option<(Text, Text)>): Option<(Text, Text)> {
    if r.None? then None else Some((p + r.value.0, r.value.1))
  }

  lemma PrependTwice(p: Text, q: Text, r: Option<(Text, Text)>)
    ensures Prepend(p, Prepend(q, r)) == Prepend(p + q, r)
  {
    if r.Some? {
      Append3(p, q, r.value.0);
    }
  }

  lemma PrependNothing(r: Option<(Text, Text)>)
    ensures Prepend([], r) == r
  {
    if r.Some? {
      assert [] + r.value.0 == r.value.0;
    }
  }

  /** Bytes of the current chunk can be taken one buffer at a time. */
  lemma RemainingSplit(left: nat, s: Text, n: nat)
    requires 0 < n < left && n <= |s|
    ensures Remaining(left, s) == Prepend(s[..n], Remaining(left - n, s[n..]))
  {
    var t := s[n..];
    if |s| >= left + 2 {
      assert t[left - n..left - n + 2] == s[left..left + 2];
      assert t[left - n + 2..] == s[left + 2..];
      assert s[..left] == s[..n] + t[..left - n];
      PrependTwice(s[..n], t[..left - n], Remaining(0, s[left + 2..]));
    }
  }

  lemma RemainingChunkEnd(left: nat, s: Text)
    requires 0 < left <= |s|
    ensures Remaining(left, s) == match ReadCrLfSpec(s[left..])
                                  case Ok(_, rest) => Prepend(s[..left], Remaining(0, rest))
                                  case Err(_) => None
  {
    var t := s[left..];
    if |t| >= 2 {
      assert t[..2] == s[left..left + 2] && t[2..] == s[left + 2..];
    }
  }

  /** The one-shot reader is done exactly when the body is well formed and fits its limits,
      and then both have the same bytes and stop at the same place. */
  lemma {:induction false} OneShotAgrees(room: nat, acc: Text, s: Text)
    ensures var out, left := ReadBody(Limits(0, room), acc, s), Remaining(0, s);
            && (out.Done? ==> left.Some? && out == Done(acc + left.value.0, left.value.1))
            && (left.Some? && (left.value.0 == [] || |acc + left.value.0| + 2 <= room) ==> out.Done?)
    decreases |s|
  {
    ParseSizeShrinks(s);
    match ParseSize(s)
    case Err(_) =>
    case Ok(n, rest) =>
      if n == 0 {
        assert acc + [] == acc;
      } else if |rest| >= n + 2 && rest[n..n + 2] == CRLF {
        var p, more := rest[..n], rest[n + 2..];
        OneShotAgrees(room, acc + p, more);
        if Remaining(0, more).Some? {
          Append3(acc, p, Remaining(0, more).value.0);
        }
      }
  }

  /** A body written in any pieces streams out whole. */
  lemma WrittenBodyStreams(pieces: seq<Text>, trailer: Text)
    requires Writable(pieces)
    ensures Remaining(0, Chunks(pieces) + (Chunk([]) + trailer)) == Some((Concat(pieces), trailer))
  {
    var s, room := Chunks(pieces) + (Chunk([]) + trailer), |Concat(pieces)| + 2;
    ReadWrittenBody(Limits(0, room), [], pieces, trailer);
    assert [] + Concat(pieces) == Concat(pieces);
    OneShotAgrees(room, [], s);
    if Remaining(0, s).Some? {
      assert [] + Remaining(0, s).value.0 == Remaining(0, s).value.0;
    }
  }

  datatype StreamError = EndOfBody | BadBody

  class RequestStream {
    const contentLength: int
    const prefetched: Text
    const reader: BufReader
    var prefetchedPos: nat
    var totalBytesRead: nat
    var chunkLeft: nat

    constructor (contentLength: int, prefetched: Text, reader: BufReader)
      ensures this.contentLength == contentLength && this.prefetched == prefetched && this.reader == reader
      ensures prefetchedPos == 0 && totalBytesRead == 0 && chunkLeft == 0
    {
      this.contentLength, this.prefetched, this.reader := contentLength, prefetched, reader;
      prefetchedPos, totalBytesRead, chunkLeft := 0, 0, 0;
    }

    /** Read with a buffer of size bytes in chunked mode, up to the trailer section. */
    method ReadChunked(size: nat) returns (p: Text, err: Option<StreamError>)
      requires reader.Valid()
      modifies this, reader
      ensures reader.Valid() && |p| <= size
      ensures err == None ==> |p| + |reader.Rest()| <= |old(reader.Rest())| && (size > 0 ==> p != [])
      ensures totalBytesRead == old(totalBytesRead) + |p|
      ensures var before := Remaining(old(chunkLeft), old(reader.Rest()));
              match err
              case None => before == Prepend(p, Remaining(chunkLeft, reader.Rest()))
              case Some(EndOfBody) => p == [] && before == Some(([], reader.Rest()))
              case Some(BadBody) => before == None
    {
      hide Remaining;
      if chunkLeft == 0 {
        var chunkSize, e := ParseChunkSize(reader);
        RemainingStart(old(reader.Rest()));
        if e.Some? {
          return [], Some(BadBody);
        }
        if chunkSize == 0 {
          return [], Some(EndOfBody);
        }
        chunkLeft := chunkSize;
      }
      p, err := ReadInChunk(size);
    }

    method ReadInChunk(size: nat) returns (p: Text, err: Option<StreamError>)
      requires reader.Valid() && chunkLeft > 0
      modifies this, reader
      ensures reader.Valid() && |p| <= size
      ensures err == None ==> |p| + |reader.Rest()| <= |old(reader.Rest())| && (size > 0 ==> p != [])
      ensures totalBytesRead == old(totalBytesRead) + |p|
      ensures var before := Remaining(old(chunkLeft), old(reader.Rest()));
              match err
              case None => before == Prepend(p, Remaining(chunkLeft, reader.Rest()))
              case Some(EndOfBody) => false
              case Some(BadBody) => before == None
    {
      hide Remaining;
      var bytesToRead := size;
      if chunkLeft < size {
        bytesToRead := chunkLeft;
      }
      ghost var left, s := chunkLeft, reader.Rest();
      p := reader.Read(bytesToRead);
      var n := |p|;
      assert s[..n] == p && s[n..] == reader.Rest();
      totalBytesRead := totalBytesRead + n;
      chunkLeft := chunkLeft - n;
      if n == 0 {
        if bytesToRead > 0 {
          // io.EOF becomes io.ErrUnexpectedEOF
          RemainingShort(left, s);
          return p, Some(BadBody);
        }
        PrependNothing(Remaining(left, s));
        return p, None;
      }
      if chunkLeft == 0 {
        RemainingChunkEnd(left, s);
        var e := ReadCrLf(reader);
        if e.Some? {
          return p, Some(BadBody);
        }
      } else {
        RemainingSplit(left, s, n);
      }
      return p, None;
    }

    /** Reads with any buffer sizes: what came out so far is the beginning of what the one-shot
        reader would return, all of it if the end is reported, and an error only if it is malformed.
        With buffers that are not empty, a well-formed body of n bytes is over after n + 1 reads, and a malformed
        one is reported before more reads than there are bytes. */
    method ReadSizes(sizes: seq<nat>) returns (all: Text, err: Option<StreamError>)
      requires reader.Valid()
      modifies this, reader
      ensures reader.Valid()
      ensures var before := Remaining(old(chunkLeft), old(reader.Rest()));
              match err
              case None => before == Prepend(all, Remaining(chunkLeft, reader.Rest()))
              case Some(EndOfBody) => before == Some((all, reader.Rest()))
              case Some(BadBody) => before == None
      ensures var before := Remaining(old(chunkLeft), old(reader.Rest()));
              before.Some? && |sizes| > |before.value.0| && (forall i | 0 <= i < |sizes| :: sizes[i] > 0)
              ==> err == Some(EndOfBody) && all == before.value.0 && reader.Rest() == before.value.1
      ensures Remaining(old(chunkLeft), old(reader.Rest())) == None && |sizes| > |old(reader.Rest())|
              && (forall i | 0 <= i < |sizes| :: sizes[i] > 0)
              ==> err == Some(BadBody)
    {
      hide Remaining;
      all, err := [], None;
      PrependNothing(Remaining(chunkLeft, reader.Rest()));
      for i := 0 to |sizes|
        invariant reader.Valid() && err == None
        invariant Remaining(old(chunkLeft), old(reader.Rest())) == Prepend(all, Remaining(chunkLeft, reader.Rest()))
        invariant (forall j | 0 <= j < |sizes| :: sizes[j] > 0) ==> |all| >= i
        invariant |all| + |reader.Rest()| <= |old(reader.Rest())|
      {
        ghost var now := all;
        var p;
        p, err := ReadChunked(sizes[i]);
        all := all + p;
        if err.Some? {
          assert now + [] == now;
          return;
        }
        PrependTwice(now, p, Remaining(chunkLeft, reader.Rest()));
      }
    }

    // -------------------------------------------------------------------------
    // Bodies of a known length
    // -------------------------------------------------------------------------

    /** The prefetched bytes are used up before the connection is read; they are no more than the
        body has, and neither is what has been handed out. */
    ghost predicate FixedValid(start: nat)
      reads this, reader
    {
      && reader.Valid() && start <= reader.pos
      && |prefetched| <= contentLength && totalBytesRead <= contentLength
      && (if totalBytesRead < |prefetched| then prefetchedPos == totalBytesRead && reader.pos == start
          else prefetchedPos == |prefetched| && reader.pos - start == totalBytesRead - |prefetched|)
    }

    /** The body followed by whatever else the connection holds. */
    ghost function Stream(start: nat): Text
      reads this, reader
      requires reader.Valid() && start <= |reader.data|
    {
      prefetched + reader.data[start..]
    }

    /** The end is reported only when contentLength bytes have been handed out, or when the
        connection has ended: the two cases look the same to the caller. */
    method ReadFixed(size: nat, ghost start: nat) returns (p: Text, eof: bool)
      requires FixedValid(start)
      modifies this, reader
      ensures FixedValid(start) && totalBytesRead == old(totalBytesRead) + |p|
      ensures p == Stream(start)[old(totalBytesRead)..totalBytesRead]
      ensures eof ==> totalBytesRead == contentLength || totalBytesRead == |Stream(start)|
      ensures !eof && size > 0 ==> p != []
      ensures |p| <= size
    {
      if totalBytesRead == contentLength {
        return [], true;
      }
      var prefetchedSize := |prefetched|;
      if prefetchedSize > totalBytesRead {
        var left := prefetchedSize - totalBytesRead;
        var n := if size > left then left else size;
        p := prefetched[prefetchedPos..prefetchedPos + n];
        prefetchedPos := prefetchedPos + n;
        totalBytesRead := totalBytesRead + n;
        assert p == Stream(start)[old(totalBytesRead)..totalBytesRead];
        return p, n == contentLength;
      }
      var left := contentLength - totalBytesRead;
      var n: nat := if size > left then left else size;
      ghost var from := reader.pos;
      p := reader.Read(n);
      totalBytesRead := totalBytesRead + |p|;
      ReadAdvances(reader.data, from, reader.pos, p);
      assert Stream(start)[old(totalBytesRead)..totalBytesRead] == reader.data[from..from + |p|];
      if |p| == 0 && n > 0 {
        return p, true;
      }
      return p, totalBytesRead == contentLength;
    }

    /** What a body of a known length can yield: contentLength bytes, or all there is when that is less. */
    ghost function Yield(start: nat): nat
      reads this, reader
      requires FixedValid(start)
    {
      if contentLength <= |Stream(start)| then contentLength else |Stream(start)|
    }

    /** Over any buffer sizes: the bytes handed out are the first ones of the prefetched bytes and the
        connection, never beyond contentLength, and nothing after them is read. Enough buffers that are
        not empty reach the end, and it is the end of the body exactly when the connection had it all. */
    method ReadFixedSizes(sizes: seq<nat>, ghost start: nat) returns (all: Text, eof: bool)
      requires FixedValid(start) && totalBytesRead == 0
      modifies this, reader
      ensures FixedValid(start) && |all| == totalBytesRead <= contentLength
      ensures |all| <= |Stream(start)| && all == Stream(start)[..|all|]
      ensures eof ==> |all| == Yield(start) && (|all| == contentLength <==> contentLength <= |Stream(start)|)
      ensures |sizes| > Yield(start) && (forall i | 0 <= i < |sizes| :: sizes[i] > 0) ==> eof
      ensures |prefetched| <= |all| ==> reader.pos == start + |all| - |prefetched|
    {
      all, eof := [], false;
      for i := 0 to |sizes|
        invariant FixedValid(start) && |all| == totalBytesRead && !eof
        invariant |all| <= |Stream(start)| && all == Stream(start)[..|all|]
        invariant (forall j | 0 <= j < |sizes| :: sizes[j] > 0) ==> |all| >= i
      {
        var p;
        p, eof := ReadFixed(sizes[i], start);
        all := all + p;
        if eof {
          return;
        }
      }
    }
  }

  lemma RemainingStart(s: Text)
    ensures Remaining(0, s) == match ParseSize(s)
                               case Err(_) => None
                               case Ok(n, rest) => if n == 0 then Some(([], rest)) else Remaining(n, rest)
  {
  }

  lemma RemainingShort(left: nat, s: Text)
    requires left > 0 && s == []
    ensures Remaining(left, s) == None
  {
  }

  lemma ReadAdvances(data: Text, from: nat, to: nat, p: Text)
    requires from <= |data| && to <= |data| && data[from..] == p + data[to..]
    ensures to == from + |p| && data[from..to] == p
  {
    assert |data[from..]| == |p + data[to..]|;
    assert data[from..][..|p|] == p;
  }
}
