/** The header line scanner (header.go), with header name normalisation off: it undoes
    appendHeaderLine and never takes a prefix of a header block for the whole. */
module HeaderScanners {
  import opened Bytes
  import opened Options

  datatype Header = Header(key: Text, value: Text)

  /** Folded: the value goes on in the next line, which normalizeHeaderValue would take over. */
  datatype Scanned =
    | Line(h: Header, rest: Text)
    | BlockEnd(rest: Text)
    | NeedMore
    | InvalidName
    | Folded

  // ---------------------------------------------------------------------------
  // Specification
  // ---------------------------------------------------------------------------

  /** Where c first stands in b, |b| if nowhere. */
  function Find(b: Text, c: Byte): (n: nat)
    ensures n <= |b| && c !in b[..n] && (n < |b| ==> b[n] == c)
  {
    if b == [] || b[0] == c then 0 else
      var n := 1 + Find(b[1..], c);
      assert b[..n] == [b[0]] + b[1..][..n - 1];
      n
  }

  function SkipSpaces(b: Text): nat
  {
    if b != [] && b[0] == SPACE then 1 + SkipSpaces(b[1..]) else 0
  }

  lemma {:induction false} SkipSpacesBound(b: Text)
    ensures SkipSpaces(b) <= |b|
    ensures SkipSpaces(b) < |b| ==> b[SkipSpaces(b)] != SPACE
    ensures forall i | 0 <= i < SkipSpaces(b) :: b[i] == SPACE
  {
    if b != [] && b[0] == SPACE {
      SkipSpacesBound(b[1..]);
    }
  }

  function TrimRight(v: Text): Text {
    if v != [] && v[|v| - 1] == SPACE then TrimRight(v[..|v| - 1]) else v
  }

  /** One CR and then all trailing spaces are taken off. */
  function TrimValue(v: Text): Text {
    TrimRight(if v != [] && v[|v| - 1] == CR then v[..|v| - 1] else v)
  }

  predicate Blank(c: Byte) {
    c == SPACE || c == TAB
  }

  /** A complete next line that starts with a blank and has no colon continues the value. */
  predicate Continues(rest: Text) {
    && rest != [] && Blank(rest[0])
    && Find(rest, LF) < |rest|
    && Find(rest, LF) <= Find(rest, COLON)
  }

  function ScanNext(b: Text): Scanned {
    if |b| >= 2 && b[..2] == CRLF then BlockEnd(b[2..])
    else if |b| >= 1 && b[0] == LF then BlockEnd(b[1..])
    else
      var n, x := Find(b, COLON), Find(b, LF);
      if x == |b| then NeedMore
      else if n < |b| && x < n then InvalidName
      else if n == |b| then NeedMore
      else ScanLine(b, n)
  }

  /** ScanNext once the colon is known to come before the line end. */
  function ScanLine(b: Text, n: nat): (r: Scanned)
    requires n < |b|
    ensures r.Line? || r.NeedMore? || r.Folded?
  {
    var v := ValueOf(b, n);
    var e := Find(v, LF);
    if e == |v| then NeedMore
    else if Continues(v[e + 1..]) then Folded
    else Line(Header(b[..n], TrimValue(v[..e])), v[e + 1..])
  }

  /** What follows the colon at n and its spaces. */
  function ValueOf(b: Text, n: nat): (v: Text)
    requires n < |b|
    ensures |v| < |b|
  {
    SkipSpacesBound(b[n + 1..]);
    b[n + 1..][SkipSpaces(b[n + 1..])..]
  }

  /** All headers of a block and how the scan of it ended. */
  function ScanAll(b: Text): (seq<Header>, Scanned)
    decreases |b|
  {
    match ScanNext(b)
    case Line(h, rest) =>
      var (hs, end) := ScanAll(rest);
      ([h] + hs, end)
    case end => ([], end)
  }

  function HeaderLine(h: Header): Text {
    h.key + [COLON, SPACE] + h.value + CRLF
  }

  function HeaderLines(hs: seq<Header>): Text {
    if hs == [] then [] else HeaderLine(hs[0]) + HeaderLines(hs[1..])
  }

  /** The headers that survive printing: no line feed, no colon in the key, no space around the value. */
  predicate Printable(h: Header) {
    && COLON !in h.key && LF !in h.key && LF !in h.value
    && (h.value != [] ==> h.value[0] != SPACE && h.value[|h.value| - 1] != SPACE)
  }

  // ---------------------------------------------------------------------------
  // The scanner undoes the printer
  // ---------------------------------------------------------------------------

  lemma {:induction false} FindIs(b: Text, c: Byte, n: nat)
    requires n <= |b| && c !in b[..n] && (n < |b| ==> b[n] == c)
    ensures Find(b, c) == n
    decreases n
  {
    if n > 0 {
      assert b[0] == b[..n][0] && b[1..][..n - 1] == b[..n][1..];
      FindIs(b[1..], c, n - 1);
    }
  }

  lemma FindAt(a: Text, c: Byte, b: Text)
    requires c !in a
    ensures Find(a + [c] + b, c) == |a|
  {
    assert (a + [c] + b)[..|a|] == a;
    FindIs(a + [c] + b, c, |a|);
  }

  lemma FindNone(b: Text, c: Byte)
    requires c !in b
    ensures Find(b, c) == |b|
  {
    FindIs(b, c, |b|);
  }

  lemma TrimPrinted(value: Text)
    requires value != [] ==> value[|value| - 1] != SPACE
    ensures TrimValue(value + [CR]) == value
  {
    assert (value + [CR])[..|value|] == value;
  }

  /** A printed line is no block end, and its colon and line end are where they were put. */
  lemma PrintedLineFinds(h: Header, rest: Text)
    requires Printable(h)
    ensures var b := HeaderLine(h) + rest;
            && |b| >= 2 && b[..2] != CRLF && b[0] != LF
            && Find(b, COLON) == |h.key| && b[..|h.key|] == h.key
            && Find(b, LF) == |h.key| + |h.value| + 3 < |b|
  {
    hide Find;
    var b := HeaderLine(h) + rest;
    var front := h.key + [COLON, SPACE] + h.value + [CR];
    assert b == front + [LF] + rest;
    FindAt(front, LF, rest);
    assert b == h.key + [COLON] + ([SPACE] + h.value + CRLF + rest);
    FindAt(h.key, COLON, [SPACE] + h.value + CRLF + rest);
    assert b[0] == front[0] && b[1] == front[1] && front[0] in front && front[1] in front;
    assert b[..2][1] == b[1];
  }

  lemma PrintedValue(h: Header, rest: Text)
    requires Printable(h)
    ensures var b, v := HeaderLine(h) + rest, h.value + CRLF + rest;
            && |h.key| < |b| && ValueOf(b, |h.key|) == v
            && Find(v, LF) == |h.value| + 1 < |v|
            && v[..|h.value| + 1] == h.value + [CR] && v[|h.value| + 2..] == rest
  {
    var b, v := HeaderLine(h) + rest, h.value + CRLF + rest;
    assert b[|h.key| + 1..] == [SPACE] + v;
    assert ([SPACE] + v)[1..] == v && v[0] != SPACE;
    assert SkipSpaces([SPACE] + v) == 1;
    assert v == (h.value + [CR]) + [LF] + rest;
    FindAt(h.value + [CR], LF, rest);
  }

  /** One printed line, when what follows does not continue its value. */
  lemma ScanPrintedLine(h: Header, rest: Text)
    requires Printable(h) && !Continues(rest)
    ensures ScanNext(HeaderLine(h) + rest) == Line(h, rest)
  {
    hide Find, ValueOf, HeaderLine, TrimValue, Continues;
    PrintedLineFinds(h, rest);
    PrintedValue(h, rest);
    TrimPrinted(h.value);
  }

  lemma ScanOne(h: Header, rest: Text)
    requires Printable(h) && !Continues(rest)
    ensures ScanAll(HeaderLine(h) + rest) == ([h] + ScanAll(rest).0, ScanAll(rest).1)
  {
    hide ScanNext, HeaderLine, Continues;
    ScanPrintedLine(h, rest);
  }

  lemma {:induction false} LinesCons(hs: seq<Header>, tail: Text)
    requires hs != []
    ensures HeaderLines(hs) + tail == HeaderLine(hs[0]) + (HeaderLines(hs[1..]) + tail)
    ensures hs == [hs[0]] + hs[1..] && hs[0] in hs
  {
    hide HeaderLine;
    Append3(HeaderLine(hs[0]), HeaderLines(hs[1..]), tail);
  }

  /** No part of a printed block reads as a continuation line, even where a key starts with a blank:
      the colon comes before the line end. */
  lemma NotContinued(hs: seq<Header>, tail: Text, p: Text)
    requires forall h | h in hs :: Printable(h)
    requires tail != [] && !Blank(tail[0]) && p <= HeaderLines(hs) + tail
    ensures !Continues(p)
  {
    if hs == [] {
      assert [] + tail == tail && (p != [] ==> p[0] == tail[0]);
    } else {
      LinesCons(hs, tail);
      var key, rest := hs[0].key, [SPACE] + hs[0].value + CRLF + (HeaderLines(hs[1..]) + tail);
      assert HeaderLines(hs) + tail == key + [COLON] + rest;
      if |p| <= |key| {
        assert p == key[..|p|] && LF !in p;
        FindNone(p, LF);
      } else {
        var q := p[|key| + 1..];
        assert p == key + [COLON] + q;
        FindAt(key, COLON, q);
        LateFind(key + [COLON], q, LF);
      }
    }
  }

  lemma LateFind(a: Text, b: Text, c: Byte)
    requires c !in a
    ensures Find(a + b, c) >= |a|
  {
  }

  /** A printed block is scanned back, key by key and value by value, whatever follows it. */
  lemma {:induction false} ScanPrinted(hs: seq<Header>, more: Text)
    requires forall h | h in hs :: Printable(h)
    ensures ScanAll(HeaderLines(hs) + (CRLF + more)) == (hs, BlockEnd(more))
    decreases |hs|
  {
    var tail := CRLF + more;
    if hs == [] {
      assert [] + tail == tail && tail[..2] == CRLF && tail[2..] == more;
    } else {
      hide ScanAll, HeaderLine, HeaderLines;
      LinesCons(hs, tail);
      NotContinued(hs[1..], tail, HeaderLines(hs[1..]) + tail);
      ScanPrinted(hs[1..], more);
      ScanOne(hs[0], HeaderLines(hs[1..]) + tail);
    }
  }

  /** Whatever is scanned, the headers found are printable ones. */
  lemma {:induction false} ScannedIsPrintable(b: Text)
    ensures forall h | h in ScanAll(b).0 :: Printable(h)
    decreases |b|
  {
    match ScanNext(b)
    case Line(h, rest) =>
      ScannedLineIsPrintable(b);
      ScannedIsPrintable(rest);
    case _ =>
  }

  lemma ScannedLineIsPrintable(b: Text)
    requires ScanNext(b).Line?
    ensures Printable(ScanNext(b).h)
  {
    hide Find, SkipSpaces, TrimValue, Continues;
    var n := Find(b, COLON);
    var v := ValueOf(b, n);
    var e := Find(v, LF);
    SkipSpacesBound(b[n + 1..]);
    assert v != [] ==> v[0] != SPACE;
    TrimValueIsPrefix(v[..e]);
    assert TrimValue(v[..e]) != [] ==> TrimValue(v[..e])[0] == v[0];
    assert b[..n] == b[..Find(b, LF)][..n];
  }

  lemma {:induction false} TrimRightIsPrefix(v: Text)
    ensures TrimRight(v) <= v && (TrimRight(v) != [] ==> TrimRight(v)[|TrimRight(v)| - 1] != SPACE)
  {
    if v != [] && v[|v| - 1] == SPACE {
      TrimRightIsPrefix(v[..|v| - 1]);
    }
  }

  lemma TrimValueIsPrefix(v: Text)
    ensures TrimValue(v) <= v && (TrimValue(v) != [] ==> TrimValue(v)[|TrimValue(v)| - 1] != SPACE)
  {
    TrimRightIsPrefix(v);
    if v != [] {
      TrimRightIsPrefix(v[..|v| - 1]);
    }
  }

  /** The round trip holds for precisely the printable lists of headers. */
  lemma {:induction false} ScanPrintedExact(hs: seq<Header>, more: Text)
    ensures ScanAll(HeaderLines(hs) + (CRLF + more)) == (hs, BlockEnd(more)) <==> forall h | h in hs :: Printable(h)
  {
    if forall h | h in hs :: Printable(h) {
      ScanPrinted(hs, more);
    } else {
      ScannedIsPrintable(HeaderLines(hs) + (CRLF + more));
    }
  }

  /** Scanning any strict prefix of a printed block asks for more data, after a prefix of its headers. */
  lemma {:induction false} ScanPrefix(hs: seq<Header>, p: Text)
    requires forall h | h in hs :: Printable(h)
    requires p < HeaderLines(hs) + CRLF
    ensures ScanAll(p).1 == NeedMore && ScanAll(p).0 <= hs
    decreases |hs|
  {
    if hs == [] {
      assert p == [] || p == [CR];
      FindNone(p, LF);
    } else {
      var line, rest := HeaderLine(hs[0]), HeaderLines(hs[1..]) + CRLF;
      LinesCons(hs, CRLF);
      if |p| < |line| {
        UnfinishedLine(hs[0], rest, p);
      } else {
        hide ScanAll, HeaderLine, HeaderLines;
        var p' := PrefixAfter(line, rest, p);
        NotContinued(hs[1..], CRLF, p');
        ScanPrefix(hs[1..], p');
        ScanOne(hs[0], p');
      }
    }
  }

  lemma PrefixAfter(a: Text, b: Text, p: Text) returns (p': Text)
    requires p < a + b && |p| >= |a|
    ensures p == a + p' && p' < b
  {
    p' := p[|a|..];
    assert p == (a + b)[..|p|];
    assert p[..|a|] == (a + b)[..|a|] == a;
    assert p' == (a + b)[|a|..][..|p| - |a|] && (a + b)[|a|..] == b;
  }

  lemma UnfinishedLine(h: Header, rest: Text, p: Text)
    requires Printable(h) && p <= HeaderLine(h) + rest && |p| < |HeaderLine(h)|
    ensures ScanNext(p) == NeedMore
  {
    var line := HeaderLine(h);
    var front := h.key + [COLON, SPACE] + h.value + [CR];
    assert line == front + [LF];
    assert p == (line + rest)[..|p|] == front[..|p|];
    assert LF !in p;
    FindNone(p, LF);
    assert |p| >= 2 ==> p[..2][1] == p[1] && p[1] in p;
  }

  // ---------------------------------------------------------------------------
  // The scanner
  // ---------------------------------------------------------------------------

  method AppendHeaderLine(dst: Text, key: Text, value: Text) returns (r: Text)
    ensures r == dst + HeaderLine(Header(key, value))
  {
    r := dst + key;
    r := r + [COLON, SPACE];
    r := r + value;
    r := r + CRLF;
  }

  datatype ScanError = ErrNeedMore | ErrInvalidName

  class HeaderScanner {
    var b: Text
    var key: Text
    var value: Text
    var err: Option<ScanError>
    var hLen: nat
    var nextColon: int
    var nextNewLine: int
    var initialized: bool

    constructor (b: Text)
      ensures Valid() && this.b == b && hLen == 0 && err == None
    {
      this.b, key, value, err, hLen := b, [], [], None, 0;
      nextColon, nextNewLine, initialized := 0, 0, false;
    }

    /** The positions remembered from the look at the next line are the ones a fresh search finds. */
    ghost predicate Valid()
      reads this
    {
      initialized ==>
        if nextColon >= 0 then
          && nextColon == Find(b, COLON) < Find(b, LF) < |b|
          && nextNewLine == Find(b, LF) - nextColon - 1
          && b[0] != LF && b[0] != CR
        else nextNewLine < 0
    }

    /** next(). folded reports the continuation line that normalizeHeaderValue would handle. */
    method Next() returns (more: bool, folded: bool)
      requires Valid()
      modifies this
      ensures match ScanNext(old(b))
              case Line(h, rest) =>
                more && !folded && Valid() && key == h.key && value == h.value && b == rest
                && hLen == old(hLen) + |old(b)| - |rest| && err == old(err)
              case BlockEnd(rest) =>
                !more && !folded && b == rest && hLen == old(hLen) + |old(b)| - |rest| && err == old(err)
              case NeedMore => !more && !folded && err == Some(ErrNeedMore)
              case InvalidName => !more && !folded && err == Some(ErrInvalidName)
              case Folded => folded
    {
      hide Find, ScanLine;
      folded := false;
      if !initialized {
        nextColon, nextNewLine, initialized := -1, -1, true;
      }
      if |b| >= 2 && b[0] == CR && b[1] == LF {
        assert b[..2] == CRLF;
        b, hLen := b[2..], hLen + 2;
        return false, false;
      }
      assert |b| >= 2 ==> b[..2][0] == b[0] && b[..2][1] == b[1];
      if |b| >= 1 && b[0] == LF {
        b, hLen := b[1..], hLen + 1;
        return false, false;
      }
      var n: int;
      if nextColon >= 0 {
        n := nextColon;
        nextColon := -1;
      } else {
        n := IndexByte(b, COLON);
        var x := IndexByte(b, LF);
        FoundAt(b, COLON, n);
        FoundAt(b, LF, x);
        if x < 0 {
          err := Some(ErrNeedMore);
          return false, false;
        }
        if x < n {
          err := Some(ErrInvalidName);
          return false, false;
        }
      }
      if n < 0 {
        err := Some(ErrNeedMore);
        return false, false;
      }
      more, folded := ScanValue(n);
    }

    /** The spaces after the colon; a remembered line end moves along. */
    method SkipColon(colon: nat) returns (n: nat)
      requires colon == Find(b, COLON) < Find(b, LF) < |b|
      requires nextNewLine < 0 || nextNewLine == Find(b, LF) - colon - 1
      modifies this`nextNewLine
      ensures colon < n <= Find(b, LF) && b[n..] == ValueOf(b, colon)
      ensures nextNewLine < 0 || nextNewLine == Find(b, LF) - colon - 1 - (n - colon - 1)
    {
      n := colon + 1;
      ghost var after := b[colon + 1..];
      SkipSpacesBound(after);
      ghost var skip := SkipSpaces(after);
      hide SkipSpaces, Find;
      while |b| > n && b[n] == SPACE
        invariant colon < n <= colon + 1 + skip && n <= Find(b, LF)
        invariant n < colon + 1 + skip ==> b[n] == after[n - colon - 1] == SPACE
        invariant nextNewLine < 0 || nextNewLine == Find(b, LF) - n
      {
        n := n + 1;
        nextNewLine := nextNewLine - 1;
      }
      assert b[n..] == after[skip..];
    }

    /** The end of the line that b starts with, remembered or searched for. */
    method LineEnd() returns (e: int)
      requires nextNewLine < 0 || nextNewLine == Find(b, LF)
      requires Find(b, LF) < |b|
      modifies this`nextNewLine
      ensures e == Find(b, LF) && nextNewLine < 0
    {
      if nextNewLine >= 0 {
        e := nextNewLine;
        nextNewLine := -1;
      } else {
        e := IndexByte(b, LF);
        FoundAt(b, LF, e);
      }
    }

    /** The rest of next(), from the colon on. */
    method ScanValue(colon: nat) returns (more: bool, folded: bool)
      requires initialized && nextColon < 0
      requires colon == Find(b, COLON) < Find(b, LF) < |b|
      requires nextNewLine < 0 || nextNewLine == Find(b, LF) - colon - 1
      modifies this
      ensures match ScanLine(old(b), colon)
              case Line(h, rest) =>
                more && !folded && Valid() && key == h.key && value == h.value && b == rest
                && hLen == old(hLen) + |old(b)| - |rest| && err == old(err)
              case NeedMore => !more && !folded && err == Some(ErrNeedMore)
              case _ => folded
    {
      hide Find, ValueOf, Continues;
      key := b[..colon];
      var n := SkipColon(colon);
      FindInTail(b, LF, n);
      hLen := hLen + n;
      b := b[n..];
      var e := LineEnd();
      folded := LookAhead(e);
      if folded {
        return false, true;
      }
      value := b[..e];
      hLen := hLen + e + 1;
      b := b[e + 1..];
      value := Trimmed(value);
      return true, false;
    }

    /** The loop over continuation lines: its first turn decides. It remembers where the colon and
        the line end of the next line are when that line starts with a blank but is a header. */
    method LookAhead(n: nat) returns (isMultiLineValue: bool)
      requires n < |b| && b[n] == LF && nextColon < 0 && nextNewLine < 0
      modifies this`nextColon, this`nextNewLine
      ensures isMultiLineValue <==> Continues(b[n + 1..])
      ensures var next := b[n + 1..];
              !isMultiLineValue ==>
                if nextColon >= 0 then
                  && nextColon == Find(next, COLON) < Find(next, LF) < |next|
                  && nextNewLine == Find(next, LF) - nextColon - 1
                  && next[0] != LF && next[0] != CR
                else nextNewLine < 0
    {
      if n + 1 >= |b| || (b[n + 1] != SPACE && b[n + 1] != TAB) {
        return false;
      }
      ghost var next := b[n + 1..];
      var d := IndexByte(b[n + 1..], LF);
      FoundAt(next, LF, d);
      if d <= 0 || (d == 1 && b[n + 1] == CR) {
        return false;
      }
      var c := IndexByte(b[n + 1..][..d], COLON);
      FoundAt(next[..d], COLON, c);
      FindInHead(next, COLON, d);
      if c >= 0 {
        nextColon := c;
        nextNewLine := d - c - 1;
        return false;
      }
      return true;
    }
  }

  /** The loop that callers run: next() until it returns false. */
  method ScanHeaders(b: Text) returns (hs: seq<Header>, hLen: nat, err: Option<ScanError>, folded: bool)
    ensures match ScanAll(b).1
            case BlockEnd(rest) => !folded && err == None && hLen == |b| - |rest|
            case NeedMore => !folded && err == Some(ErrNeedMore)
            case InvalidName => !folded && err == Some(ErrInvalidName)
            case _ => folded
    ensures hs == ScanAll(b).0
  {
    hide ScanNext;
    var s := new HeaderScanner(b);
    hs := [];
    var more := true;
    assert [] + ScanAll(b).0 == ScanAll(b).0;
    while true
      invariant fresh(s) && s.Valid() && s.err == None && s.hLen == |b| - |s.b|
      invariant ScanAll(b) == (hs + ScanAll(s.b).0, ScanAll(s.b).1)
      decreases |s.b|
    {
      LineShrinks(s.b);
      ghost var found := ScanAll(s.b).0;
      more, folded := s.Next();
      if folded || !more {
        assert hs + [] == hs;
        return hs, s.hLen, s.err, folded;
      }
      Append3(hs, [Header(s.key, s.value)], ScanAll(s.b).0);
      hs := hs + [Header(s.key, s.value)];
    }
  }

  lemma LineShrinks(b: Text)
    ensures ScanNext(b).Line? ==> |ScanNext(b).rest| < |b|
  {
  }

  method Trimmed(v: Text) returns (r: Text)
    ensures r == TrimValue(v)
  {
    var n := |v|;
    if n > 0 && v[n - 1] == CR {
      n := n - 1;
    }
    assert v[..|v|] == v;
    while n > 0 && v[n - 1] == SPACE
      invariant 0 <= n <= |v|
      invariant TrimRight(v[..n]) == TrimValue(v)
    {
      assert v[..n][..n - 1] == v[..n - 1];
      n := n - 1;
    }
    r := v[..n];
  }

  lemma FoundAt(b: Text, c: Byte, n: int)
    requires n >= 0 ==> n < |b| && b[n] == c && c !in b[..n]
    requires n < 0 ==> c !in b
    ensures Find(b, c) == if n >= 0 then n else |b|
  {
    if n >= 0 {
      FindIs(b, c, n);
    } else {
      FindNone(b, c);
    }
  }

  lemma {:induction false} FindInTail(b: Text, c: Byte, n: nat)
    requires n <= |b| && n <= Find(b, c)
    ensures Find(b[n..], c) == Find(b, c) - n
    decreases n
  {
    if n > 0 {
      FindInTail(b[1..], c, n - 1);
      assert b[1..][n - 1..] == b[n..];
    } else {
      assert b[0..] == b;
    }
  }

  lemma {:induction false} FindInHead(b: Text, c: Byte, d: nat)
    requires d <= |b|
    ensures Find(b[..d], c) == if Find(b, c) < d then Find(b, c) else d
    decreases d
  {
    if d > 0 && b[0] != c {
      FindInHead(b[1..], c, d - 1);
      assert b[..d][1..] == b[1..][..d - 1];
    }
  }
}
