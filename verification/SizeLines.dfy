/** Which inputs the chunked reader accepts, as a grammar of bytes (section 4.1 of RFC 7230): size lines
    with chunk extensions, chunks, the last chunk, and what the reader answers to anything else. */
module SizeLines {
  import opened Bytes
  import opened PercentCodec
  import opened HexInts
  import opened ChunkedBody

  // ---------------------------------------------------------------------------
  // Size lines
  // ---------------------------------------------------------------------------

  predicate HexDigits(s: Text) {
    forall c | c in s :: HexDigit(c)
  }

  /** The number the digits stand for, in either case. */
  function Worth(digits: Text): nat
    requires HexDigits(digits)
  {
    if digits == [] then 0
    else
      var c := digits[|digits| - 1];
      assert c in digits;
      16 * Worth(digits[..|digits| - 1]) + DigitWorth(c)
  }

  /** 1 to 15 digits, and an extension that neither goes on with a digit nor holds a CR. */
  ghost predicate SizeLine(digits: Text, ext: Text) {
    && 1 <= |digits| <= 15 && HexDigits(digits)
    && CR !in ext && (ext != [] ==> !HexDigit(ext[0]))
  }

  lemma {:induction false} ReadDigits(done: Text, digits: Text, after: Text)
    requires HexDigits(done) && HexDigits(digits) && |done| + |digits| <= 15
    ensures HexDigits(done + digits)
    ensures ReadHex(digits + after, Worth(done), |done|)
         == ReadHex(after, Worth(done + digits), |done| + |digits|)
    decreases |digits|
  {
    if digits == [] {
      assert digits + after == after && done + digits == done;
    } else {
      var c, s := digits[0], digits + after;
      assert c in digits && s[1..] == digits[1..] + after;
      var more := done + [c];
      assert more[..|done|] == done;
      ReadDigits(more, digits[1..], after);
      assert more + digits[1..] == done + digits;
    }
  }

  lemma {:induction false} SkipExtension(ext: Text, rest: Text)
    requires CR !in ext
    ensures SkipToCr(ext + CRLF + rest) == Ok((), CRLF + rest)
    decreases |ext|
  {
    var s := ext + CRLF + rest;
    if ext == [] {
      assert s == CRLF + rest;
    } else {
      assert ext[0] in ext && s[1..] == ext[1..] + CRLF + rest;
      SkipExtension(ext[1..], rest);
    }
  }

  lemma SizeLineParses(digits: Text, ext: Text, rest: Text)
    requires SizeLine(digits, ext)
    ensures ParseSize(digits + ext + CRLF + rest) == Ok(Worth(digits), rest)
  {
    var after := ext + CRLF + rest;
    assert digits + ext + CRLF + rest == digits + after;
    ReadDigits([], digits, after);
    assert [] + digits == digits;
    assert after[0] == (if ext == [] then CR else ext[0]) && HexVal(after[0]) == 16;
    SkipExtension(ext, rest);
    assert (CRLF + rest)[..2] == CRLF && (CRLF + rest)[2..] == rest;
  }

  /** The digits at the beginning of s. */
  function DigitsOf(s: Text): (n: nat)
    ensures n <= |s| && HexDigits(s[..n]) && (n < |s| ==> !HexDigit(s[n]))
  {
    if s == [] || !HexDigit(s[0]) then 0
    else
      var n := 1 + DigitsOf(s[1..]);
      assert s[..n] == [s[0]] + s[1..][..n - 1];
      n
  }

  lemma {:induction false} TooManyDigits(done: Text, s: Text)
    requires HexDigits(done) && |done| <= 15 && |done| + DigitsOf(s) > 15
    ensures ReadHex(s, Worth(done), |done|) == Err(TooLargeHexNum)
    decreases |s|
  {
    if |done| < 15 {
      var more := done + [s[0]];
      assert more[..|done|] == done;
      TooManyDigits(more, s[1..]);
    }
  }

  lemma ReadHexDecides(s: Text)
    ensures var k := DigitsOf(s);
            ReadHex(s, 0, 0) == if s == [] then Err(Eof)
                                else if k == 0 then Err(EmptyHexNum)
                                else if k > 15 then Err(TooLargeHexNum)
                                else Ok(Worth(s[..k]), s[k..])
  {
    var k := DigitsOf(s);
    if k > 15 {
      TooManyDigits([], s);
    } else {
      ReadDigits([], s[..k], s[k..]);
      assert s[..k] + s[k..] == s && [] + s[..k] == s[..k];
    }
  }

  lemma {:induction false} SkipDecides(s: Text) returns (n: nat)
    ensures n <= |s| && CR !in s[..n] && (n < |s| ==> s[n] == CR)
    ensures SkipToCr(s) == if n == |s| then Err(BrokenChunk) else Ok((), s[n..])
    decreases |s|
  {
    if s == [] || s[0] == CR {
      n := 0;
      assert s[0..] == s;
    } else {
      n := SkipDecides(s[1..]);
      assert s[1..][n..] == s[n + 1..] && s[..n + 1] == [s[0]] + s[1..][..n];
      n := n + 1;
    }
  }

  lemma ParseSizeSteps(s: Text)
    ensures ReadHex(s, 0, 0).Err? ==> ParseSize(s) == Err(ReadHex(s, 0, 0).e)
    ensures ReadHex(s, 0, 0).Ok? ==>
              var after := ReadHex(s, 0, 0).rest;
              && (SkipToCr(after).Err? ==> ParseSize(s) == Err(SkipToCr(after).e))
              && (SkipToCr(after).Ok? ==>
                    var atCr := SkipToCr(after).rest;
                    ParseSize(s) == if |atCr| >= 2 && atCr[..2] == CRLF then Ok(ReadHex(s, 0, 0).value, atCr[2..])
                                    else Err(BrokenChunk))
  {
    hide ReadHex, SkipToCr;
  }

  lemma ParsedSizeLine(s: Text) returns (digits: Text, ext: Text)
    requires ParseSize(s).Ok?
    ensures SizeLine(digits, ext) && ParseSize(s).value == Worth(digits)
    ensures s == digits + ext + CRLF + ParseSize(s).rest
  {
    hide ReadHex, SkipToCr, ParseSize, DigitsOf, Worth;
    ReadHexDecides(s);
    ParseSizeSteps(s);
    var k := DigitsOf(s);
    digits := s[..k];
    var n := SkipDecides(s[k..]);
    ext := s[k..][..n];
    assert ext != [] ==> ext[0] == s[k];
    CutLine(s, k, n);
  }

  lemma CutLine(s: Text, k: nat, n: nat)
    requires k + n + 2 <= |s| && s[k..][n..][..2] == CRLF
    ensures s == s[..k] + s[k..][..n] + CRLF + s[k..][n..][2..]
  {
    var t := s[k..];
    assert s == s[..k] + t && t == t[..n] + t[n..] && t[n..] == t[n..][..2] + t[n..][2..];
    Append3(s[..k], t[..n], t[n..]);
    Append3(s[..k] + t[..n], CRLF, t[n..][2..]);
  }

  /** A size line is read as n, leaving rest, if and only if it is 1 to 15 digits worth n, any
      extension, and CRLF. */
  lemma SizeLineExactly(s: Text, n: nat, rest: Text)
    ensures ParseSize(s) == Ok(n, rest) <==>
            exists digits, ext :: SizeLine(digits, ext) && n == Worth(digits) && s == digits + ext + CRLF + rest
  {
    if ParseSize(s) == Ok(n, rest) {
      var digits, ext := ParsedSizeLine(s);
    }
    forall digits, ext | SizeLine(digits, ext) && n == Worth(digits) && s == digits + ext + CRLF + rest
      ensures ParseSize(s) == Ok(n, rest)
    {
      SizeLineParses(digits, ext, rest);
    }
  }

  lemma FirstSixteen(s: Text)
    ensures DigitsOf(s) > 15 <==> |s| > 15 && HexDigits(s[..16])
    ensures DigitsOf(s) == 0 <==> s == [] || !HexDigit(s[0])
  {
    hide HexDigit;
    var k := DigitsOf(s);
    if k > 15 {
      assert s[..16] == s[..k][..16];
    } else if |s| > 15 {
      assert s[k] in s[..16];
    }
  }

  /** Why a size line is refused: nothing at all, no digit at its beginning, more than 15 digits, or no
      CRLF where the first CR should be. */
  lemma RefusedSizeLine(s: Text)
    ensures ParseSize(s) == Err(Eof) <==> s == []
    ensures ParseSize(s) == Err(EmptyHexNum) <==> s != [] && !HexDigit(s[0])
    ensures ParseSize(s) == Err(TooLargeHexNum) <==> |s| > 15 && HexDigits(s[..16])
    ensures ParseSize(s) == Err(BrokenChunk) <==>
            && s != [] && HexDigit(s[0]) && !(|s| > 15 && HexDigits(s[..16]))
            && !exists digits, ext, rest :: SizeLine(digits, ext) && s == digits + ext + CRLF + rest
  {
    hide ReadHex, SkipToCr, ParseSize, Worth, SizeLine;
    ReadHexDecides(s);
    ParseSizeSteps(s);
    FirstSixteen(s);
    if ReadHex(s, 0, 0).Ok? {
      var _ := SkipDecides(ReadHex(s, 0, 0).rest);
    }
    if ParseSize(s).Ok? {
      var digits, ext := ParsedSizeLine(s);
    }
    forall digits, ext, rest | SizeLine(digits, ext) && s == digits + ext + CRLF + rest
      ensures ParseSize(s).Ok?
    {
      SizeLineParses(digits, ext, rest);
    }
  }

  /** Any two size lines of the same number are the same to the reader; with or without extension. */
  lemma ExtensionsIgnored(lim: Limits, acc: Text, digits: Text, ext: Text, rest: Text)
    requires SizeLine(digits, ext)
    ensures ReadBody(lim, acc, digits + ext + CRLF + rest) == ReadBody(lim, acc, Hex(Worth(digits)) + CRLF + rest)
  {
    SizeLineParses(digits, ext, rest);
    WorthBelow(digits);
    ParsePrintedSize(Worth(digits), rest);
  }

  lemma {:induction false} WorthBelow(digits: Text)
    requires HexDigits(digits)
    ensures Worth(digits) < Pow16(|digits|)
    ensures |digits| <= 15 ==> Pow16(|digits|) <= Pow16(15)
  {
    if digits == [] {
      Pow16Grows(0, 15);
    } else {
      var k := |digits| - 1;
      assert digits[k] in digits;
      WorthBelow(digits[..k]);
      if |digits| <= 15 {
        Pow16Grows(|digits|, 15);
      }
    }
  }

  lemma {:induction false} Pow16Grows(a: nat, b: nat)
    requires a <= b
    ensures Pow16(a) <= Pow16(b)
  {
    if a < b {
      Pow16Grows(a, b - 1);
    }
  }

  lemma {:induction false} PrintedDigits(n: nat)
    ensures HexDigits(Hex(n)) && Worth(Hex(n)) == n
    decreases n
  {
    if n >= 16 {
      PrintedDigits(n / 16);
      var t := Hex(n);
      assert t[..|t| - 1] == Hex(n / 16);
    } else {
      assert Hex(n)[..0] == [];
    }
  }

  /** The extension theorem for a printed size. */
  lemma PrintedSizeWithExtension(lim: Limits, acc: Text, n: nat, ext: Text, rest: Text)
    requires n < Pow16(15) && CR !in ext && (ext != [] ==> !HexDigit(ext[0]))
    ensures ReadBody(lim, acc, Hex(n) + ext + CRLF + rest) == ReadBody(lim, acc, Hex(n) + CRLF + rest)
  {
    HexLength(n, 15);
    PrintedDigits(n);
    ExtensionsIgnored(lim, acc, Hex(n), ext, rest);
  }

  // ---------------------------------------------------------------------------
  // Chunks
  // ---------------------------------------------------------------------------

  datatype Received = Received(digits: Text, ext: Text, data: Text)

  ghost predicate WellFormed(chunks: seq<Received>) {
    forall c | c in chunks :: SizeLine(c.digits, c.ext) && Worth(c.digits) == |c.data| > 0
  }

  function Encoded(chunks: seq<Received>): Text {
    if chunks == [] then []
    else
      var c := chunks[0];
      (c.digits + c.ext + CRLF + (c.data + CRLF)) + Encoded(chunks[1..])
  }

  function Data(chunks: seq<Received>): Text {
    if chunks == [] then [] else chunks[0].data + Data(chunks[1..])
  }

  /** What follows the size line of a chunk of n bytes decides: too large for the limit, too large for the
      largest buffer, cut short, not ended by CRLF, or taken. */
  lemma ChunkDecides(lim: Limits, acc: Text, digits: Text, ext: Text, rest: Text)
    requires SizeLine(digits, ext)
    ensures var n := Worth(digits);
            var out := ReadBody(lim, acc, digits + ext + CRLF + rest);
            && (n == 0 ==> out == Done(acc, rest))
            && (n > 0 && lim.maxBody > 0 && |acc| + n > lim.maxBody ==> out == Failed(BodyTooLarge))
            && (n > 0 && Fits(lim, |acc| + n) && |rest| < n + 2 ==> out == Failed(UnexpectedEof))
            && (n > 0 && Fits(lim, |acc| + n) && |rest| >= n + 2 ==>
                  out == if rest[n] == CR && rest[n + 1] == LF then ReadBody(lim, acc + rest[..n], rest[n + 2..])
                         else Failed(BrokenChunk))
  {
    hide ReadBody, ParseSize, HexDigit, AfterSize, Worth;
    SizeLineParses(digits, ext, rest);
    ReadBodyUnfold(lim, acc, digits + ext + CRLF + rest);
    AfterSizeDecides(lim, acc, Worth(digits), rest);
  }

  lemma AfterSizeDecides(lim: Limits, acc: Text, n: nat, rest: Text)
    ensures var out := AfterSize(lim, acc, n, rest);
            && (n == 0 ==> out == Done(acc, rest))
            && (n > 0 && lim.maxBody > 0 && |acc| + n > lim.maxBody ==> out == Failed(BodyTooLarge))
            && (n > 0 && Fits(lim, |acc| + n) && |rest| < n + 2 ==> out == Failed(UnexpectedEof))
            && (n > 0 && Fits(lim, |acc| + n) && |rest| >= n + 2 ==>
                  out == if rest[n] == CR && rest[n + 1] == LF then ReadBody(lim, acc + rest[..n], rest[n + 2..])
                         else Failed(BrokenChunk))
  {
    hide ReadBody;
    if |rest| >= n + 2 {
      assert rest[n..n + 2] == [rest[n], rest[n + 1]];
    }
  }

  lemma ChunkTaken(lim: Limits, acc: Text, c: Received, more: Text)
    requires SizeLine(c.digits, c.ext) && Worth(c.digits) == |c.data| > 0 && Fits(lim, |acc + c.data|)
    ensures ReadBody(lim, acc, (c.digits + c.ext + CRLF + (c.data + CRLF)) + more)
         == ReadBody(lim, acc + c.data, more)
  {
    hide ReadBody, HexDigit, Worth;
    var rest := c.data + CRLF + more;
    Append3(c.digits + c.ext + CRLF, c.data + CRLF, more);
    ChunkDecides(lim, acc, c.digits, c.ext, rest);
    var n := |c.data|;
    assert rest[..n] == c.data && rest[n] == CR && rest[n + 1] == LF && rest[n + 2..] == more;
  }

  lemma {:induction false} ChunksTaken(lim: Limits, acc: Text, chunks: seq<Received>, tail: Text)
    requires WellFormed(chunks) && (chunks == [] || Fits(lim, |acc + Data(chunks)|))
    ensures ReadBody(lim, acc, Encoded(chunks) + tail) == ReadBody(lim, acc + Data(chunks), tail)
    decreases |chunks|
  {
    hide ReadBody, SizeLine, Worth;
    if chunks == [] {
      assert [] + tail == tail && acc + [] == acc;
    } else {
      var c := chunks[0];
      var more := Encoded(chunks[1..]) + tail;
      assert c in chunks && WellFormed(chunks[1..]);
      Append3(c.digits + c.ext + CRLF + (c.data + CRLF), Encoded(chunks[1..]), tail);
      ChunkTaken(lim, acc, c, more);
      ChunksTaken(lim, acc + c.data, chunks[1..], tail);
      Append3(acc, c.data, Data(chunks[1..]));
    }
  }

  ghost predicate Accepted(lim: Limits, acc: Text, s: Text, body: Text, rest: Text,
                           chunks: seq<Received>, digits: Text, ext: Text) {
    && WellFormed(chunks) && SizeLine(digits, ext) && Worth(digits) == 0
    && s == Encoded(chunks) + (digits + ext + CRLF + rest)
    && body == acc + Data(chunks) && (chunks == [] || Fits(lim, |body|))
  }

  lemma {:induction false} AcceptedChunks(lim: Limits, acc: Text, s: Text)
    returns (chunks: seq<Received>, digits: Text, ext: Text)
    requires ReadBody(lim, acc, s).Done?
    ensures var out := ReadBody(lim, acc, s);
            Accepted(lim, acc, s, out.body, out.rest, chunks, digits, ext)
    decreases |s|
  {
    hide ReadBody, ParseSize, Accepted, Worth, HexDigit;
    ReadBodyUnfold(lim, acc, s);
    digits, ext := ParsedSizeLine(s);
    var n, rest := Worth(digits), ParseSize(s).rest;
    if n == 0 {
      chunks := [];
      NoChunk(lim, acc, digits, ext, rest);
    } else {
      var c := Received(digits, ext, rest[..n]);
      var more := rest[n + 2..];
      ParseSizeShrinks(s);
      chunks, digits, ext := AcceptedChunks(lim, acc + c.data, more);
      AddChunk(lim, acc, c, more, ReadBody(lim, acc, s), chunks, digits, ext);
      assert rest == c.data + CRLF + more;
      assert s == (c.digits + c.ext + CRLF + (c.data + CRLF)) + more;
      chunks := [c] + chunks;
    }
  }

  lemma NoChunk(lim: Limits, acc: Text, digits: Text, ext: Text, rest: Text)
    requires SizeLine(digits, ext) && Worth(digits) == 0
    ensures Accepted(lim, acc, digits + ext + CRLF + rest, acc, rest, [], digits, ext)
  {
    assert [] + (digits + ext + CRLF + rest) == digits + ext + CRLF + rest && acc == acc + [];
  }

  lemma AddChunk(lim: Limits, acc: Text, c: Received, more: Text, out: Outcome, chunks: seq<Received>,
                 digits: Text, ext: Text)
    requires SizeLine(c.digits, c.ext) && Worth(c.digits) == |c.data| > 0 && Fits(lim, |acc + c.data|)
    requires out.Done? && Accepted(lim, acc + c.data, more, out.body, out.rest, chunks, digits, ext)
    ensures Accepted(lim, acc, (c.digits + c.ext + CRLF + (c.data + CRLF)) + more, out.body, out.rest,
                     [c] + chunks, digits, ext)
  {
    hide SizeLine, Worth;
    var all := [c] + chunks;
    assert all[0] == c && all[1..] == chunks;
    Append3(c.digits + c.ext + CRLF + (c.data + CRLF), Encoded(chunks), digits + ext + CRLF + out.rest);
    Append3(acc, c.data, Data(chunks));
    if chunks == [] {
      assert acc + c.data + [] == acc + c.data;
    }
  }

  /** The one-shot reader accepts s with this body and rest if and only if s is any chunks of at least one
      byte, with any extensions, and a size line worth 0, in front of the rest, the data of the chunks is
      the body, and the body is within the limit and the largest buffer. */
  lemma AcceptedExactly(lim: Limits, s: Text, body: Text, rest: Text)
    ensures ReadBody(lim, [], s) == Done(body, rest) <==>
            exists chunks, digits, ext :: Accepted(lim, [], s, body, rest, chunks, digits, ext)
  {
    if ReadBody(lim, [], s) == Done(body, rest) {
      var chunks, digits, ext := AcceptedChunks(lim, [], s);
    }
    forall chunks, digits, ext | Accepted(lim, [], s, body, rest, chunks, digits, ext)
      ensures ReadBody(lim, [], s) == Done(body, rest)
    {
      ChunksTaken(lim, [], chunks, digits + ext + CRLF + rest);
      ChunkDecides(lim, body, digits, ext, rest);
    }
  }
}
