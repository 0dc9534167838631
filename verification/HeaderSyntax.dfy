/** What the header scanner answers, on the bytes alone: where the lines of a block end, how a value is cut
    out of its line, and which input is refused or incomplete. */
module HeaderSyntax {
  import opened Bytes
  import opened HeaderScanners

  predicate Spaces(s: Text) {
    forall i | 0 <= i < |s| :: s[i] == SPACE
  }

  /** rest starts with a blank and its first line, which is complete, holds no colon. */
  ghost predicate GoesOn(rest: Text) {
    && rest != [] && (rest[0] == SPACE || rest[0] == TAB)
    && exists i | 0 <= i < |rest| :: rest[i] == LF && COLON !in rest[..i]
  }

  predicate EndsBlock(b: Text) {
    (|b| >= 1 && b[0] == LF) || (|b| >= 2 && b[0] == CR && b[1] == LF)
  }

  /** A line: a name, a colon, spaces, the value, spaces, at most one CR, and a line feed. Everything but the
      value is named so that there is one way to cut a line. */
  ghost predicate IsLine(line: Text, name: Text, lead: Text, value: Text, trail: Text, cr: Text) {
    && line == name + [COLON] + (lead + (value + trail + cr) + [LF])
    && COLON !in name && LF !in name && LF !in value
    && Spaces(lead) && Spaces(trail)
    && (value == [] ==> trail == [])
    && (value != [] ==> value[0] != SPACE && value[|value| - 1] != SPACE)
    && (cr == [CR] || (cr == [] && (value != [] && trail == [] ==> value[|value| - 1] != CR)))
  }

  lemma TwoBytes(b: Text)
    ensures |b| >= 2 ==> (b[..2] == CRLF <==> b[0] == CR && b[1] == LF)
  {
    assert |b| >= 2 ==> b[..2] == [b[0], b[1]];
  }

  // ---------------------------------------------------------------------------
  // First occurrences
  // ---------------------------------------------------------------------------

  lemma FindUpTo(b: Text, c: Byte, i: nat)
    requires i <= |b|
    ensures c in b[..i] <==> Find(b, c) < i
  {
    var n := Find(b, c);
    if n < i {
      assert b[..i][n] == c;
    } else {
      assert b[..i] == b[..n][..i];
    }
  }

  lemma GoesOnExactly(rest: Text)
    ensures Continues(rest) <==> GoesOn(rest)
  {
    var n := Find(rest, LF);
    FindUpTo(rest, COLON, n);
    forall i | 0 <= i < |rest| && rest[i] == LF && COLON !in rest[..i]
      ensures n < |rest| && n <= Find(rest, COLON)
    {
      FindUpTo(rest, COLON, i);
      FindUpTo(rest, LF, i + 1);
      assert rest[..i + 1][i] == LF;
    }
  }

  // ---------------------------------------------------------------------------
  // Trimming
  // ---------------------------------------------------------------------------

  lemma {:induction false} SkipLead(lead: Text, s: Text)
    requires Spaces(lead) && (s != [] ==> s[0] != SPACE)
    ensures SkipSpaces(lead + s) == |lead| && (lead + s)[|lead|..] == s
  {
    if lead == [] {
      assert lead + s == s;
    } else {
      assert (lead + s)[1..] == lead[1..] + s;
      SkipLead(lead[1..], s);
    }
  }

  lemma {:induction false} TrimTrail(value: Text, trail: Text)
    requires Spaces(trail) && (value != [] ==> value[|value| - 1] != SPACE)
    ensures TrimRight(value + trail) == value
    decreases |trail|
  {
    var v := value + trail;
    if trail == [] {
      assert v == value;
    } else {
      var k := |trail| - 1;
      assert v[..|v| - 1] == value + trail[..k];
      TrimTrail(value, trail[..k]);
    }
  }

  lemma TrimLine(value: Text, trail: Text, cr: Text)
    requires Spaces(trail) && (value == [] ==> trail == [])
    requires value != [] ==> value[|value| - 1] != SPACE
    requires cr == [CR] || (cr == [] && (value != [] && trail == [] ==> value[|value| - 1] != CR))
    ensures TrimValue(value + trail + cr) == value
  {
    var v := value + trail + cr;
    TrimTrail(value, trail);
    if cr == [CR] {
      assert v[..|v| - 1] == value + trail;
    } else {
      assert v == value + trail;
      assert v != [] ==> v[|v| - 1] == (if trail == [] then value[|value| - 1] else trail[|trail| - 1]);
    }
  }

  // ---------------------------------------------------------------------------
  // Lines
  // ---------------------------------------------------------------------------

  lemma LineFinds(line: Text, name: Text, lead: Text, value: Text, trail: Text, cr: Text, rest: Text)
    requires IsLine(line, name, lead, value, trail, cr)
    ensures var b, v := line + rest, (value + trail + cr) + [LF] + rest;
            && !EndsBlock(b) && Find(b, COLON) == |name| < Find(b, LF) < |b| && b[..|name|] == name
            && ValueOf(b, |name|) == v
            && Find(v, LF) == |value + trail + cr| && v[..|value + trail + cr|] == value + trail + cr
            && v[|value + trail + cr| + 1..] == rest
  {
    hide Find, SkipSpaces;
    var b, body := line + rest, value + trail + cr;
    var v := body + [LF] + rest;
    assert b == name + [COLON] + (lead + v);
    FindAt(name, COLON, lead + v);
    assert LF !in trail && LF !in lead && LF !in body;
    FindAt(body, LF, rest);
    assert b == (name + [COLON] + lead + body) + [LF] + rest;
    FindAt(name + [COLON] + lead + body, LF, rest);
    assert b[0] == (name + [COLON])[0] && (|b| >= 2 && name != [] ==> b[1] == (name + [COLON])[1]);
    assert name != [] ==> (name + [COLON])[0] in name;
    assert |name| > 1 ==> (name + [COLON])[1] in name;
    assert v[0] != SPACE by {
      assert v[0] == (body + [LF])[0];
    }
    assert b[|name| + 1..] == lead + v;
    SkipLead(lead, v);
  }

  lemma {:induction false} SplitSpaces(v: Text) returns (value: Text, trail: Text)
    ensures v == value + trail && Spaces(trail) && (value != [] ==> value[|value| - 1] != SPACE)
  {
    if v != [] && v[|v| - 1] == SPACE {
      value, trail := SplitSpaces(v[..|v| - 1]);
      assert v == value + (trail + [SPACE]);
      trail := trail + [SPACE];
    } else {
      value, trail := v, [];
    }
  }

  lemma CutBody(body: Text) returns (value: Text, trail: Text, cr: Text)
    requires body != [] ==> body[0] != SPACE
    ensures body == value + trail + cr && Spaces(trail) && (value == [] ==> trail == [])
    ensures value != [] ==> value[0] != SPACE && value[|value| - 1] != SPACE
    ensures cr == [CR] || (cr == [] && (value != [] && trail == [] ==> value[|value| - 1] != CR))
  {
    cr := if body != [] && body[|body| - 1] == CR then [CR] else [];
    value, trail := SplitSpaces(body[..|body| - |cr|]);
    assert body == value + trail + cr;
    assert value == [] ==> body == trail + cr;
    assert value != [] ==> value[0] == body[0];
    assert cr == [] && value != [] && trail == [] ==> value == body;
  }

  /** Every line with a colon before its end can be cut so. */
  lemma CutLine(name: Text, raw: Text) returns (lead: Text, value: Text, trail: Text, cr: Text)
    requires COLON !in name && LF !in name && LF !in raw
    ensures IsLine(name + [COLON] + raw + [LF], name, lead, value, trail, cr)
  {
    hide SkipSpaces;
    SkipSpacesBound(raw);
    var k := SkipSpaces(raw);
    lead := raw[..k];
    var body := raw[k..];
    value, trail, cr := CutBody(body);
    assert raw == lead + (value + trail + cr);
    assert LF !in value by {
      assert forall i | 0 <= i < |value| :: value[i] == body[i] == raw[k + i];
    }
    assert name + [COLON] + raw + [LF] == name + [COLON] + (raw + [LF]);
    assert raw + [LF] == lead + (value + trail + cr) + [LF];
  }

  /** The first line of b, when its colon comes before its end. */
  lemma FirstLine(b: Text) returns (line: Text, name: Text, lead: Text, value: Text, trail: Text, cr: Text, rest: Text)
    requires Find(b, COLON) < Find(b, LF) < |b|
    ensures b == line + rest && IsLine(line, name, lead, value, trail, cr)
  {
    hide IsLine;
    var n, x := Find(b, COLON), Find(b, LF);
    hide Find;
    FindUpTo(b, LF, n);
    name, rest := b[..n], b[x + 1..];
    var raw := b[n + 1..x];
    assert LF !in raw by {
      assert raw == b[..x][n + 1..];
    }
    lead, value, trail, cr := CutLine(name, raw);
    line := name + [COLON] + raw + [LF];
    assert b == line + rest;
  }

  // ---------------------------------------------------------------------------
  // Main results
  // ---------------------------------------------------------------------------

  /** Any line, whatever the spaces around its value and with or without CR, is read as its name and value,
      unless the next line continues it. */
  lemma AnyLine(line: Text, name: Text, lead: Text, value: Text, trail: Text, cr: Text, rest: Text)
    requires IsLine(line, name, lead, value, trail, cr)
    ensures ScanNext(line + rest) == if GoesOn(rest) then Folded else Line(Header(name, value), rest)
  {
    LineFinds(line, name, lead, value, trail, cr, rest);
    TrimLine(value, trail, cr);
    GoesOnExactly(rest);
    hide Find, ValueOf, TrimValue, Continues, GoesOn, IsLine;
    TwoBytes(line + rest);
  }

  /** And nothing else is read as a header. */
  lemma ScannedLine(b: Text) returns (line: Text, lead: Text, trail: Text, cr: Text)
    requires ScanNext(b).Line?
    ensures var (h, rest) := (ScanNext(b).h, ScanNext(b).rest);
            b == line + rest && IsLine(line, h.key, lead, h.value, trail, cr) && !GoesOn(rest)
  {
    LineHasColon(b);
    var name, value, rest;
    line, name, lead, value, trail, cr, rest := FirstLine(b);
    hide ScanNext, IsLine, Find;
    AnyLine(line, name, lead, value, trail, cr, rest);
  }

  lemma NoColonNoLine(b: Text, n: nat, x: nat)
    requires n == Find(b, COLON) && x == Find(b, LF) && (x == |b| || x < n)
    ensures !ScanNext(b).Line?
  {
    hide Find, ScanLine;
  }

  lemma LineHasColon(b: Text)
    requires ScanNext(b).Line?
    ensures Find(b, COLON) < Find(b, LF) < |b|
  {
    hide ScanNext, Find;
    var n, x := Find(b, COLON), Find(b, LF);
    if x == |b| || x < n {
      NoColonNoLine(b, n, x);
    } else {
      assert b[x] == LF;
    }
  }

  /** A line feed before the first colon is refused, and nothing else is. */
  lemma RefusedName(b: Text)
    ensures ScanNext(b) == InvalidName <==>
            && !EndsBlock(b)
            && (exists x | 0 <= x < |b| :: b[x] == LF && COLON !in b[..x] && COLON in b[x..])
  {
    var n := Find(b, COLON);
    TwoBytes(b);
    forall x | 0 <= x < |b| && b[x] == LF && COLON !in b[..x] && COLON in b[x..]
      ensures Find(b, LF) < n < |b|
    {
      FindUpTo(b, COLON, x);
      FindUpTo(b, LF, x + 1);
      assert b[..x + 1][x] == LF;
      assert COLON in b;
      assert b[..|b|] == b;
      FindUpTo(b, COLON, |b|);
    }
    if Find(b, LF) < n < |b| {
      FindUpTo(b, COLON, Find(b, LF));
      assert b[Find(b, LF)..][n - Find(b, LF)] == COLON;
    }
  }

  /** More data is asked for exactly as long as there is no line feed, or no colon, in what there is and
      the block has not ended. */
  lemma Incomplete(b: Text)
    ensures ScanNext(b) == NeedMore <==> !EndsBlock(b) && (LF !in b || COLON !in b)
  {
    TwoBytes(b);
    assert b[..|b|] == b;
    FindUpTo(b, LF, |b|);
    FindUpTo(b, COLON, |b|);
    var n, x := Find(b, COLON), Find(b, LF);
    if n < x < |b| {
      var line, name, lead, value, trail, cr, rest := FirstLine(b);
      AnyLine(line, name, lead, value, trail, cr, rest);
    }
  }

  /** The end of a block is an empty line, with or without CR. */
  lemma EndOfBlock(b: Text)
    ensures ScanNext(b).BlockEnd? <==> EndsBlock(b)
    ensures ScanNext(b).BlockEnd? ==> b == [LF] + ScanNext(b).rest || b == CRLF + ScanNext(b).rest
  {
    TwoBytes(b);
  }
}
