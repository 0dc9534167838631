/** Percent encoding of query arguments and paths (args.go, bytesconv.go). */
module PercentCodec {
  import opened Bytes

  // ---------------------------------------------------------------------------
  // Tables (bytesconv_table_gen.go)
  // ---------------------------------------------------------------------------

  /** hex2intTable: 16 marks a byte that is no hex digit. */
  function HexVal(c: Byte): (v: Byte)
    ensures v <= 16
  {
    if 48 <= c <= 57 then c - 48
    else if 97 <= c <= 102 then c - 97 + 10
    else if 65 <= c <= 70 then c - 65 + 10
    else 16
  }

  /** 0 to 9, A to F, a to f, and what they are worth. */
  predicate HexDigit(c: Byte) {
    48 <= c <= 57 || 65 <= c <= 70 || 97 <= c <= 102
  }

  function DigitWorth(c: Byte): (d: nat)
    requires HexDigit(c)
    ensures d < 16
  {
    if c <= 57 then c as int - 48 else if c <= 70 then c as int - 55 else c as int - 87
  }

  function UpperHex(v: Byte): Byte
    requires v < 16
  {
    if v < 10 then 48 + v else 65 + v - 10
  }

  predicate Unreserved(c: Byte) {
    97 <= c <= 122 || 65 <= c <= 90 || 48 <= c <= 57 || c == 45 || c == 95 || c == DOT || c == 126
  }

  /** quotedArgShouldEscapeTable. */
  predicate EscapeInArg(c: Byte) {
    !Unreserved(c)
  }

  /** quotedPathShouldEscapeTable: the path also keeps $ & + , / : ; = @. */
  predicate EscapeInPath(c: Byte) {
    !Unreserved(c) && c !in [36, AMP, PLUS, 44, SLASH, COLON, 59, EQUALS, 64]
  }

  // ---------------------------------------------------------------------------
  // Specification
  // ---------------------------------------------------------------------------

  function Escaped(c: Byte): Text {
    [PERCENT, UpperHex(c / 16), UpperHex(c % 16)]
  }

  function QuoteArgByte(c: Byte): Text {
    if c == SPACE then [PLUS] else if EscapeInArg(c) then Escaped(c) else [c]
  }

  function QuoteArg(s: Text): Text {
    if s == [] then [] else QuoteArgByte(s[0]) + QuoteArg(s[1..])
  }

  function QuotePathBytes(s: Text): Text {
    if s == [] then []
    else (if EscapeInPath(s[0]) then Escaped(s[0]) else [s[0]]) + QuotePathBytes(s[1..])
  }

  function QuotePath(s: Text): Text {
    if s == [STAR] then [STAR] else QuotePathBytes(s)
  }

  /** What a decoder makes of src; plus says whether '+' stands for a space. */
  function Decode(src: Text, plus: bool): Text
    decreases |src|
  {
    if src == [] then []
    else if src[0] == PERCENT then
      if |src| < 3 then src
      else if HexVal(src[1]) == 16 || HexVal(src[2]) == 16 then [PERCENT] + Decode(src[1..], plus)
      else [16 * HexVal(src[1]) + HexVal(src[2])] + Decode(src[3..], plus)
    else if plus && src[0] == PLUS then [SPACE] + Decode(src[1..], plus)
    else [src[0]] + Decode(src[1..], plus)
  }

  // ---------------------------------------------------------------------------
  // Decoding undoes quoting
  // ---------------------------------------------------------------------------

  lemma DecodeEscaped(c: Byte, rest: Text, plus: bool)
    ensures Decode(Escaped(c) + rest, plus) == [c] + Decode(rest, plus)
  {
    var s := Escaped(c) + rest;
    assert s[3..] == rest;
    assert HexVal(UpperHex(c / 16)) == c / 16 && HexVal(UpperHex(c % 16)) == c % 16;
  }

  lemma DecodePlainByte(c: Byte, rest: Text, plus: bool)
    requires c != PERCENT && !(plus && c == PLUS)
    ensures Decode([c] + rest, plus) == [c] + Decode(rest, plus)
  {
    assert ([c] + rest)[1..] == rest;
  }

  lemma {:induction false} DecodeQuoteArg(s: Text)
    ensures Decode(QuoteArg(s), true) == s
  {
    if s != [] {
      var c, rest := s[0], QuoteArg(s[1..]);
      DecodeQuoteArg(s[1..]);
      if c == SPACE {
        assert ([PLUS] + rest)[1..] == rest;
      } else if EscapeInArg(c) {
        DecodeEscaped(c, rest, true);
      } else {
        DecodePlainByte(c, rest, true);
      }
    }
  }

  lemma {:induction false} DecodeQuotePathBytes(s: Text)
    ensures Decode(QuotePathBytes(s), false) == s
  {
    if s != [] {
      var c, rest := s[0], QuotePathBytes(s[1..]);
      DecodeQuotePathBytes(s[1..]);
      if EscapeInPath(c) {
        DecodeEscaped(c, rest, false);
      } else {
        DecodePlainByte(c, rest, false);
      }
    }
  }

  /** The printed path decodes to the path, the single '*' included. */
  lemma DecodeQuotePath(s: Text)
    ensures Decode(QuotePath(s), false) == s
  {
    if s == [STAR] {
      DecodePlainByte(STAR, [], false);
    } else {
      DecodeQuotePathBytes(s);
    }
  }

  /** Quoted arguments hold no separator of the query syntax. */
  lemma {:induction false} QuoteArgHasNoSeparators(s: Text)
    ensures AMP !in QuoteArg(s) && EQUALS !in QuoteArg(s)
    ensures s != [] ==> QuoteArg(s) != []
  {
    if s != [] {
      QuoteArgHasNoSeparators(s[1..]);
      assert AMP !in QuoteArgByte(s[0]) && EQUALS !in QuoteArgByte(s[0]);
    }
  }

  // ---------------------------------------------------------------------------
  // The byte loops
  // ---------------------------------------------------------------------------

  predicate Plain(s: Text, plus: bool) {
    PERCENT !in s && (plus ==> PLUS !in s)
  }

  lemma {:induction false} DecodePlainPrefix(a: Text, b: Text, plus: bool)
    requires Plain(a, plus)
    ensures Decode(a + b, plus) == a + Decode(b, plus)
  {
    if a == [] {
      assert a + b == b;
    } else {
      DecodePlainPrefix(a[1..], b, plus);
      assert a + b == [a[0]] + (a[1..] + b);
      DecodePlainByte(a[0], a[1..] + b, plus);
      assert [a[0]] + (a[1..] + Decode(b, plus)) == a + Decode(b, plus);
    }
  }

  lemma QuoteArgFrom(s: Text, i: nat)
    requires i < |s|
    ensures QuoteArg(s[i..]) == QuoteArgByte(s[i]) + QuoteArg(s[i + 1..])
  {
    assert s[i..][1..] == s[i + 1..];
  }

  method AppendQuotedArg(dst: Text, src: Text) returns (r: Text)
    ensures r == dst + QuoteArg(src)
  {
    r := dst;
    for i := 0 to |src|
      invariant r + QuoteArg(src[i..]) == dst + QuoteArg(src)
    {
      hide QuoteArg;
      var c := src[i];
      ghost var before := r;
      if c == SPACE {
        r := r + [PLUS];
      } else if EscapeInArg(c) {
        r := r + [PERCENT, UpperHex(c / 16), UpperHex(c % 16)];
      } else {
        r := r + [c];
      }
      QuoteArgFrom(src, i);
      assert r == before + QuoteArgByte(c);
      Append3(before, QuoteArgByte(c), QuoteArg(src[i + 1..]));
    }
  }

  method AppendQuotedPath(dst: Text, src: Text) returns (r: Text)
    ensures r == dst + QuotePath(src)
  {
    if |src| == 1 && src[0] == STAR {
      return dst + [STAR];
    }
    r := dst;
    for i := 0 to |src|
      invariant r + QuotePathBytes(src[i..]) == dst + QuotePathBytes(src)
    {
      var c := src[i];
      assert src[i..][1..] == src[i + 1..];
      if EscapeInPath(c) {
        r := r + [PERCENT, UpperHex(c / 16), UpperHex(c % 16)];
      } else {
        r := r + [c];
      }
    }
  }

  /** Where the slow path starts: the first encoded byte, or -1. */
  method FirstEncoded(src: Text, plus: bool) returns (idx: int)
    ensures idx == -1 ==> Plain(src, plus)
    ensures idx != -1 ==> 0 <= idx < |src| && Plain(src[..idx], plus)
  {
    var idxPercent := IndexByte(src, PERCENT);
    if !plus {
      return idxPercent;
    }
    var idxPlus := IndexByte(src, PLUS);
    if idxPercent == -1 {
      idx := idxPlus;
    } else if idxPlus == -1 {
      idx := idxPercent;
    } else if idxPercent > idxPlus {
      idx := idxPlus;
      assert src[..idx] == src[..idxPercent][..idx];
    } else {
      idx := idxPercent;
      assert src[..idx] == src[..idxPlus][..idx];
    }
  }

  /** One turn of the decoding loop: how many bytes it reads and what it writes. The last turn
      of a truncated escape takes the whole rest. */
  function Turn(src: Text, i: nat, plus: bool): (nat, Text)
    requires i < |src|
  {
    var c := src[i];
    if c == PERCENT then
      if i + 2 >= |src| then (|src| - i, src[i..])
      else if HexVal(src[i + 1]) == 16 || HexVal(src[i + 2]) == 16 then (1, [PERCENT])
      else (3, [16 * HexVal(src[i + 1]) + HexVal(src[i + 2])])
    else if plus && c == PLUS then (1, [SPACE])
    else (1, [c])
  }

  lemma DecodeTurn(src: Text, i: nat, plus: bool)
    requires i < |src|
    ensures var (n, out) := Turn(src, i, plus);
            && 1 <= n <= |src| - i && |out| <= n
            && Decode(src[i..], plus) == out + Decode(src[i + n..], plus)
  {
    var (n, out) := Turn(src, i, plus);
    assert src[i..][1..] == src[i + 1..];
    if i + 2 < |src| {
      assert src[i..][1] == src[i + 1] && src[i..][2] == src[i + 2];
      assert src[i..][3..] == src[i + 3..];
    } else if src[i] == PERCENT {
      assert src[i + n..] == [];
    }
  }

  lemma DecodeFast(src: Text, idx: nat, plus: bool)
    requires idx <= |src| && Plain(src[..idx], plus)
    ensures Decode(src, plus) == src[..idx] + Decode(src[idx..], plus)
  {
    DecodePlainPrefix(src[..idx], src[idx..], plus);
    assert src[..idx] + src[idx..] == src;
  }

  /** The body of the decoding loop. */
  method DecodeNext(dst: Text, src: Text, from: nat, plus: bool) returns (r: Text, i: nat)
    requires from < |src|
    ensures var (n, out) := Turn(src, from, plus); r == dst + out && i == from + n
  {
    i := from;
    var c := src[i];
    if c == PERCENT {
      if i + 2 >= |src| {
        return dst + src[i..], |src|;
      }
      var x2 := HexVal(src[i + 2]);
      var x1 := HexVal(src[i + 1]);
      if x1 == 16 || x2 == 16 {
        r := dst + [PERCENT];
      } else {
        r := dst + [16 * x1 + x2];
        i := i + 2;
      }
    } else if plus && c == PLUS {
      r := dst + [SPACE];
    } else {
      r := dst + [c];
    }
    i := i + 1;
  }

  /** decodeArgAppend (plus) and decodeArgAppendNoPlus (!plus). */
  method DecodeArgAppend(dst: Text, src: Text, plus: bool) returns (r: Text)
    ensures r == dst + Decode(src, plus)
  {
    var idx := FirstEncoded(src, plus);
    if idx == -1 {
      assert src[..|src|] == src && src[|src|..] == [];
      DecodeFast(src, |src|, plus);
      return dst + src;
    }
    r := dst + src[..idx];
    DecodeFast(src, idx, plus);
    Append3(dst, src[..idx], Decode(src[idx..], plus));
    var i: nat := idx;
    while i < |src|
      invariant i <= |src|
      invariant r + Decode(src[i..], plus) == dst + Decode(src, plus)
    {
      hide Decode, Turn;
      DecodeTurn(src, i, plus);
      ghost var (n, out) := Turn(src, i, plus);
      Append3(r, out, Decode(src[i + n..], plus));
      r, i := DecodeNext(r, src, i, plus);
    }
    assert src[i..] == [];
  }

  /** The same body when dst is the beginning of src's own storage. */
  method DecodeNextInPlace(a: array<Byte>, done: nat, from: nat, plus: bool) returns (w: nat, i: nat)
    requires done <= from < a.Length
    modifies a
    ensures var (n, out) := Turn(old(a[..]), from, plus);
            && i == from + n && w <= i <= a.Length
            && a[..w] == old(a[..done]) + out
            && a[i..] == old(a[i..])
  {
    w, i := done, from;
    var c := a[i];
    if c == PERCENT {
      if i + 2 >= a.Length {
        CopyDown(a, w, i, a.Length);
        w, i := w + (a.Length - i), a.Length;
        assert a[..w] == a[..done] + a[done..w];
        return;
      }
      var x2 := HexVal(a[i + 2]);
      var x1 := HexVal(a[i + 1]);
      if x1 == 16 || x2 == 16 {
        a[w] := PERCENT;
      } else {
        a[w] := 16 * x1 + x2;
        i := i + 2;
      }
    } else if plus && c == PLUS {
      a[w] := SPACE;
    } else {
      a[w] := c;
    }
    w := w + 1;
    i := i + 1;
  }

  lemma TurnIsLocal(src: Text, src': Text, i: nat, plus: bool)
    requires i < |src| == |src'| && src[i..] == src'[i..]
    ensures Turn(src, i, plus) == Turn(src', i, plus)
  {
    assert forall k | i <= k < |src| :: src[k] == src[i..][k - i] == src'[k];
  }

  lemma TailOfTail(s: Text, t: Text, i: nat, n: nat)
    requires i + n <= |s| == |t| && s[i..] == t[i..]
    ensures s[i + n..] == t[i + n..]
  {
    assert s[i + n..] == s[i..][n..];
  }

  /** A turn in place moves bytes from what is to be decoded to what is. */
  method DecodeTurnInPlace(a: array<Byte>, ghost src: Text, done: nat, from: nat, plus: bool)
    returns (w: nat, i: nat)
    requires done <= from < a.Length == |src| && a[..][from..] == src[from..]
    modifies a
    ensures w <= i <= a.Length && from < i
    ensures a[..][i..] == src[i..]
    ensures a[..w] + Decode(src[i..], plus) == old(a[..done]) + Decode(src[from..], plus)
  {
    hide Decode, Turn;
    DecodeTurn(src, from, plus);
    TurnIsLocal(src, a[..], from, plus);
    ghost var (n, out) := Turn(src, from, plus);
    Append3(a[..done], out, Decode(src[from + n..], plus));
    TailOfTail(a[..], src, from, n);
    w, i := DecodeNextInPlace(a, done, from, plus);
  }

  /** Decoding with dst = src[:0]: the result grows over the bytes already read, and is the same
      as when it is built elsewhere. */
  method DecodeInPlace(a: array<Byte>, plus: bool) returns (w: nat)
    modifies a
    ensures w <= a.Length
    ensures a[..w] == Decode(old(a[..]), plus)
  {
    ghost var src := a[..];
    var idx := FirstEncoded(a[..], plus);
    if idx == -1 {
      assert src[..|src|] == src && src[|src|..] == [];
      DecodeFast(src, |src|, plus);
      return a.Length;
    }
    DecodeFast(src, idx, plus);
    w := idx;
    var i: nat := idx;
    while i < a.Length
      invariant w <= i <= a.Length
      invariant a[..][i..] == src[i..]
      invariant a[..w] + Decode(src[i..], plus) == Decode(src, plus)
    {
      hide Decode;
      w, i := DecodeTurnInPlace(a, src, w, i, plus);
    }
    assert src[i..] == [];
  }
}
