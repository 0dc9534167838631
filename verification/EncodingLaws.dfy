/** Percent encoding and query strings on their bytes alone: a grammar of what the decoder reads, which bytes
    the printers quote, and how a query string falls into fields. */
module EncodingLaws {
  import opened Bytes
  import opened PercentCodec
  import opened QueryArgs

  // ---------------------------------------------------------------------------
  // Decoding
  // ---------------------------------------------------------------------------

  datatype Token = Plain(c: Byte) | Plus | Escape(hi: Byte, lo: Byte) | Percent

  function Spelled(t: Token): Text {
    match t
    case Plain(c) => [c]
    case Plus => [PLUS]
    case Escape(hi, lo) => [PERCENT, hi, lo]
    case Percent => [PERCENT]
  }

  function Meant(t: Token): Text {
    match t
    case Plain(c) => [c]
    case Plus => [SPACE]
    case Escape(hi, lo) => if HexDigit(hi) && HexDigit(lo) then [16 * DigitWorth(hi) + DigitWorth(lo)] else []
    case Percent => [PERCENT]
  }

  function Spelling(ts: seq<Token>): Text {
    if ts == [] then [] else Spelled(ts[0]) + Spelling(ts[1..])
  }

  function Meaning(ts: seq<Token>): Text {
    if ts == [] then [] else Meant(ts[0]) + Meaning(ts[1..])
  }

  /** A token in front of after: a percent sign stands for itself when two bytes follow that are not both
      digits. */
  predicate Reads(t: Token, after: Text, plus: bool) {
    match t
    case Plain(c) => c != PERCENT && !(plus && c == PLUS)
    case Plus => plus
    case Escape(hi, lo) => HexDigit(hi) && HexDigit(lo)
    case Percent => |after| >= 2 && !(HexDigit(after[0]) && HexDigit(after[1]))
  }

  /** Tokens and what is left: nothing, or a percent sign with at most one byte behind it. */
  predicate Tokens(ts: seq<Token>, tail: Text, plus: bool) {
    if ts == [] then tail == [] || (tail[0] == PERCENT && |tail| < 3)
    else Reads(ts[0], Spelling(ts[1..]) + tail, plus) && Tokens(ts[1..], tail, plus)
  }

  lemma DecodeToken(t: Token, after: Text, plus: bool)
    requires Reads(t, after, plus)
    ensures Decode(Spelled(t) + after, plus) == Meant(t) + Decode(after, plus)
  {
    var s := Spelled(t) + after;
    match t
    case Escape(hi, lo) =>
      assert s[1] == hi && s[2] == lo && s[3..] == after;
    case _ =>
      assert s[1..] == after;
      assert |after| >= 2 ==> s[1] == after[0] && s[2] == after[1];
  }

  lemma {:induction false} DecodeTokens(ts: seq<Token>, tail: Text, plus: bool)
    requires Tokens(ts, tail, plus)
    ensures Decode(Spelling(ts) + tail, plus) == Meaning(ts) + tail
  {
    if ts == [] {
      assert [] + tail == tail;
    } else {
      hide Decode;
      DecodeTokens(ts[1..], tail, plus);
      DecodeToken(ts[0], Spelling(ts[1..]) + tail, plus);
      Append3(Spelled(ts[0]), Spelling(ts[1..]), tail);
      Append3(Meant(ts[0]), Meaning(ts[1..]), tail);
    }
  }

  function FirstToken(s: Text, plus: bool): (t: Token)
    requires s != [] && !(s[0] == PERCENT && |s| < 3)
  {
    if s[0] == PERCENT then
      if HexDigit(s[1]) && HexDigit(s[2]) then Escape(s[1], s[2]) else Percent
    else if plus && s[0] == PLUS then Plus
    else Plain(s[0])
  }

  lemma FirstTokenReads(s: Text, plus: bool) returns (after: Text)
    requires s != [] && !(s[0] == PERCENT && |s| < 3)
    ensures s == Spelled(FirstToken(s, plus)) + after && Reads(FirstToken(s, plus), after, plus)
  {
    after := s[|Spelled(FirstToken(s, plus))|..];
  }

  lemma {:induction false} TokensOf(s: Text, plus: bool) returns (ts: seq<Token>, tail: Text)
    ensures Tokens(ts, tail, plus) && s == Spelling(ts) + tail
    decreases |s|
  {
    if s == [] || (s[0] == PERCENT && |s| < 3) {
      ts, tail := [], s;
      assert [] + s == s;
    } else {
      hide Reads;
      var after := FirstTokenReads(s, plus);
      ts, tail := TokensOf(after, plus);
      var t := FirstToken(s, plus);
      assert ([t] + ts)[1..] == ts;
      Append3(Spelled(t), Spelling(ts), tail);
      ts := [t] + ts;
    }
  }

  /** A text decodes to what its tokens mean and its tail, and to nothing else: an escape is a percent sign
      and two digits of either case, any other percent sign stands for itself, and one with less than two
      bytes behind it ends the decoding with the rest as it is. */
  lemma DecodesExactly(s: Text, plus: bool, out: Text)
    ensures Decode(s, plus) == out <==>
            exists ts, tail :: Tokens(ts, tail, plus) && s == Spelling(ts) + tail && out == Meaning(ts) + tail
  {
    hide Decode, Tokens, Spelling, Meaning;
    var ts, tail := TokensOf(s, plus);
    DecodeTokens(ts, tail, plus);
    forall ts, tail | Tokens(ts, tail, plus) && s == Spelling(ts) + tail && out == Meaning(ts) + tail
      ensures Decode(s, plus) == out
    {
      DecodeTokens(ts, tail, plus);
    }
  }

  // ---------------------------------------------------------------------------
  // Quoting
  // ---------------------------------------------------------------------------

  predicate LetterOrDigit(c: Byte) {
    48 <= c <= 57 || 65 <= c <= 90 || 97 <= c <= 122
  }

  /** A percent sign and two upper-case digits worth c. */
  predicate IsEscape(t: Text, c: Byte) {
    && |t| == 3 && t[0] == PERCENT
    && HexDigit(t[1]) && t[1] < 97 && HexDigit(t[2]) && t[2] < 97
    && 16 * DigitWorth(t[1]) + DigitWorth(t[2]) == c
  }

  lemma {:induction false} QuoteArgJoins(a: Text, b: Text)
    ensures QuoteArg(a + b) == QuoteArg(a) + QuoteArg(b)
  {
    if a == [] {
      assert a + b == b;
    } else {
      QuoteArgJoins(a[1..], b);
      assert (a + b)[1..] == a[1..] + b;
      Append3(QuoteArgByte(a[0]), QuoteArg(a[1..]), QuoteArg(b));
    }
  }

  lemma {:induction false} QuotePathJoins(a: Text, b: Text)
    ensures QuotePathBytes(a + b) == QuotePathBytes(a) + QuotePathBytes(b)
  {
    if a == [] {
      assert a + b == b;
    } else {
      QuotePathJoins(a[1..], b);
      assert (a + b)[1..] == a[1..] + b;
      Append3(if EscapeInPath(a[0]) then Escaped(a[0]) else [a[0]], QuotePathBytes(a[1..]), QuotePathBytes(b));
    }
  }

  /** Arguments are quoted byte by byte: letters, digits, "-", ".", "_" and "~" stay, a space becomes "+",
      everything else becomes an escape. */
  lemma ArgQuoting(a: Text, c: Byte, b: Text)
    ensures QuoteArg(a + [c] + b) == QuoteArg(a) + QuoteArg([c]) + QuoteArg(b)
    ensures var t := QuoteArg([c]);
            if LetterOrDigit(c) || c == 45 || c == 46 || c == 95 || c == 126 then t == [c]
            else if c == SPACE then t == [PLUS]
            else IsEscape(t, c)
  {
    QuoteArgJoins(a + [c], b);
    QuoteArgJoins(a, [c]);
    assert QuoteArg([c]) == QuoteArgByte(c);
  }

  /** Paths likewise, where "$", "&", "+", ",", "/", ":", ";", "=" and "@" stay too; the path "*" is left
      as it is. */
  lemma PathQuoting(a: Text, c: Byte, b: Text)
    ensures QuotePath([STAR]) == [STAR]
    ensures QuotePathBytes(a + [c] + b) == QuotePathBytes(a) + QuotePathBytes([c]) + QuotePathBytes(b)
    ensures a + [c] + b != [STAR] ==> QuotePath(a + [c] + b) == QuotePathBytes(a + [c] + b)
    ensures var t := QuotePathBytes([c]);
            if || LetterOrDigit(c) || c == 45 || c == 46 || c == 95 || c == 126
               || c == 36 || c == 38 || c == 43 || c == 44 || c == 47 || c == 58 || c == 59 || c == 61 || c == 64
            then t == [c]
            else IsEscape(t, c)
  {
    QuotePathJoins(a + [c], b);
    QuotePathJoins(a, [c]);
    assert QuotePathBytes([c]) == if EscapeInPath(c) then Escaped(c) else [c];
  }

  // ---------------------------------------------------------------------------
  // Query strings
  // ---------------------------------------------------------------------------

  /** A query string falls apart at any "&". */
  lemma {:induction false} ParseJoins(a: Text, b: Text)
    ensures Parse(a + [AMP] + b) == Parse(a) + Parse(b)
    decreases |a|
  {
    hide Parse, ParseField;
    var n := Find(a, AMP, 0);
    if n == |a| {
      assert a[0..n] == a;
      ParseOne(a);
      ParseCons(a, b);
      if a == [] {
        EmptyField();
      }
    } else {
      var f, rest := a[..n], a[n + 1..];
      assert a == f + [AMP] + rest && a + [AMP] + b == f + [AMP] + (rest + [AMP] + b);
      ParseCons(f, rest);
      ParseCons(f, rest + [AMP] + b);
      ParseJoins(rest, b);
      Append3(if ParseField(f).Empty() then [] else [ParseField(f)], Parse(rest), Parse(b));
    }
  }

  lemma EmptyField()
    ensures ParseField([]).Empty()
  {
  }

  /** Between two "&" the first "=" ends the key; key and value are decoded. A field whose key and value are
      empty gives no entry, and one without "=" an entry without value. */
  lemma ParseKeyValue(key: Text, value: Text)
    requires AMP !in key && AMP !in value && EQUALS !in key
    ensures var (k, v) := (Decode(key, true), Decode(value, true));
            && Parse(key + [EQUALS] + value) == (if k == [] && v == [] then [] else [ArgsKV(k, v, false)])
            && Parse(key) == (if k == [] then [] else [ArgsKV(k, [], true)])
  {
    var field := key + [EQUALS] + value;
    ParseOne(field);
    ParseOne(key);
    FindAfter(key, EQUALS, value, 0);
    FindNone(key, EQUALS);
    assert field[..|key|] == key && field[|key| + 1..] == value;
    assert ParseField(key) == ArgsKV(Decode(key, true), [], true);
    assert ParseField(field) == ArgsKV(Decode(key, true), Decode(value, true), false);
  }
}
