/** Chunk sizes in hexadecimal (bytesconv.go, 64-bit build). */
module HexInts {
  import opened Bytes
  import opened Options
  import opened PercentCodec
  import opened ByteSource

  const MAX_HEX_INT_CHARS := 15
  const INT_SPAN := 0x8000_0000_0000_0000

  datatype BodyError = Eof | UnexpectedEof | EmptyHexNum | TooLargeHexNum | BrokenChunk | BodyTooLarge

  datatype Parsed<+T> = Ok(value: T, rest: Text) | Err(e: BodyError)

  function Pow16(k: nat): (p: nat)
    ensures p >= 1
  {
    if k == 0 then 1 else 16 * Pow16(k - 1)
  }

  function LowerHex(v: Byte): Byte
    requires v < 16
  {
    if v < 10 then 48 + v else 97 + v - 10
  }

  /** The digits writeHexInt prints. */
  function Hex(n: nat): (t: Text)
    ensures t != []
  {
    if n < 16 then [LowerHex(n)] else Hex(n / 16) + [LowerHex(n % 16)]
  }

  /** readHexInt after i digits worth n. */
  function ReadHex(s: Text, n: nat, i: nat): Parsed<nat>
    decreases |s|
  {
    if s == [] then
      if i > 0 then Ok(n, s) else Err(Eof)
    else
      var k := HexVal(s[0]);
      if k == 16 then
        if i == 0 then Err(EmptyHexNum) else Ok(n, s)
      else if i >= MAX_HEX_INT_CHARS then Err(TooLargeHexNum)
      else ReadHex(s[1..], 16 * n + k, i + 1)
  }

  // ---------------------------------------------------------------------------
  // Reading undoes writing
  // ---------------------------------------------------------------------------

  lemma {:induction false} HexLength(n: nat, k: nat)
    requires k > 0
    ensures |Hex(n)| <= k <==> n < Pow16(k)
  {
    if n >= 16 {
      if k == 1 {
        assert Pow16(1) == 16 * Pow16(0);
      } else {
        HexLength(n / 16, k - 1);
      }
    } else {
      assert Pow16(k) == 16 * Pow16(k - 1);
    }
  }

  lemma ReadHexStep(s: Text, d: Byte, n: nat, i: nat)
    requires d < 16
    ensures ReadHex([LowerHex(d)] + s, n, i)
         == if i >= MAX_HEX_INT_CHARS then Err(TooLargeHexNum) else ReadHex(s, 16 * n + d, i + 1)
  {
    assert HexVal(LowerHex(d)) == d;
    assert ([LowerHex(d)] + s)[1..] == s;
  }

  lemma {:induction false} ReadHexDigits(n: nat, rest: Text)
    ensures ReadHex(Hex(n) + rest, 0, 0)
         == if |Hex(n)| <= MAX_HEX_INT_CHARS then ReadHex(rest, n, |Hex(n)|) else Err(TooLargeHexNum)
    decreases n
  {
    if n < 16 {
      ReadHexStep(rest, n, 0, 0);
    } else {
      var d := LowerHex(n % 16);
      ReadHexDigits(n / 16, [d] + rest);
      Append3(Hex(n / 16), [d], rest);
      ReadHexStep(rest, n % 16, n / 16, |Hex(n / 16)|);
    }
  }

  /** A printed size is read back exactly when it has at most 15 digits; larger ones are rejected. */
  lemma ReadWrittenHex(n: nat, rest: Text)
    requires rest != [] && HexVal(rest[0]) == 16
    ensures ReadHex(Hex(n) + rest, 0, 0)
         == if n < Pow16(MAX_HEX_INT_CHARS) then Ok(n, rest) else Err(TooLargeHexNum)
  {
    ReadHexDigits(n, rest);
    HexLength(n, MAX_HEX_INT_CHARS);
  }

  lemma IntFits16Digits()
    ensures INT_SPAN < Pow16(MAX_HEX_INT_CHARS + 1)
  {
    assert Pow16(4) == 0x1_0000;
    assert Pow16(8) == 0x1_0000_0000;
    assert Pow16(12) == 0x1_0000_0000_0000;
  }

  // ---------------------------------------------------------------------------
  // The loops
  // ---------------------------------------------------------------------------

  /** The digit buffer is filled from its end; an int always fits into it. */
  method WriteHexInt(w: Text, n: nat) returns (r: Text)
    requires n < INT_SPAN
    ensures r == w + Hex(n)
  {
    var buf := new Byte[MAX_HEX_INT_CHARS + 1];
    var i: nat := MAX_HEX_INT_CHARS;
    var m: nat := n;
    IntFits16Digits();
    while true
      invariant i <= MAX_HEX_INT_CHARS && m < Pow16(i + 1)
      invariant Hex(n) == Hex(m) + buf[i + 1..]
      decreases i
    {
      HexShift(m, i);
      hide Hex, Pow16;
      ghost var low, d := buf[i + 1..], LowerHex(m % 16);
      buf[i] := LowerHex(m % 16);
      assert buf[i..] == [d] + low;
      m := m / 16;
      if m == 0 {
        break;
      }
      Append3(Hex(m), [d], low);
      i := i - 1;
    }
    r := w + buf[i..];
  }

  lemma HexShift(m: nat, i: nat)
    requires m < Pow16(i + 1)
    ensures m / 16 < Pow16(i) && (m / 16 != 0 ==> i > 0)
    ensures Hex(m) == if m / 16 == 0 then [LowerHex(m % 16)] else Hex(m / 16) + [LowerHex(m % 16)]
  {
    assert Pow16(i + 1) == 16 * Pow16(i) && Pow16(0) == 1;
  }

  method ReadHexInt(r: BufReader) returns (n: int, err: Option<BodyError>)
    requires r.Valid()
    modifies r
    ensures r.Valid()
    ensures match ReadHex(old(r.Rest()), 0, 0)
            case Ok(v, rest) => err == None && n == v && r.Rest() == rest
            case Err(e) => err == Some(e) && n == -1
    ensures err == None ==> |r.Rest()| < |old(r.Rest())|
  {
    n := 0;
    var i := 0;
    while true
      invariant r.Valid() && 0 <= i <= MAX_HEX_INT_CHARS && n >= 0
      invariant ReadHex(r.Rest(), n, i) == ReadHex(old(r.Rest()), 0, 0)
      invariant |r.Rest()| + i == |old(r.Rest())|
      decreases |r.Rest()|
    {
      ghost var before := r.Rest();
      var c := r.ReadByte();
      if c.None? {
        if i > 0 {
          return n, None;
        }
        return -1, Some(Eof);
      }
      assert before[1..] == r.Rest();
      var k := HexVal(c.value);
      if k == 16 {
        if i == 0 {
          return -1, Some(EmptyHexNum);
        }
        r.UnreadByte();
        return n, None;
      }
      if i >= MAX_HEX_INT_CHARS {
        return -1, Some(TooLargeHexNum);
      }
      n := 16 * n + k;
      i := i + 1;
    }
  }
}
