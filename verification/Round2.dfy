/** round2 (http.go): the buffer size for n bytes, computed by smearing the top bit of a uint32.
    Words are natural numbers below 2^32, and | and >> act on their binary digits. */
module Round2s {

  const MAX_INT32 := 0x7fff_ffff
  const UINT32_SPAN := 0x1_0000_0000

  function Pow2(k: nat): (p: nat)
    ensures p >= 1
  {
    if k == 0 then 1 else 2 * Pow2(k - 1)
  }

  function Or(a: nat, b: nat): nat {
    if a == 0 && b == 0 then 0
    else 2 * Or(a / 2, b / 2) + if a % 2 == 1 || b % 2 == 1 then 1 else 0
  }

  function Shr(x: nat, k: nat): nat {
    if k == 0 then x else Shr(x / 2, k - 1)
  }

  function Bit(x: nat, i: nat): bool
    decreases i
  {
    if i == 0 then x % 2 == 1 else Bit(x / 2, i - 1)
  }

  function Smear(x: nat): nat {
    var x := Or(x, Shr(x, 1));
    var x := Or(x, Shr(x, 2));
    var x := Or(x, Shr(x, 4));
    var x := Or(x, Shr(x, 8));
    Or(x, Shr(x, 16))
  }

  function Round2(n: int): int {
    if n <= 0 then 0
    else
      var x := Smear((n - 1) % UINT32_SPAN);
      if x >= MAX_INT32 then MAX_INT32 else x + 1
  }

  // ---------------------------------------------------------------------------
  // Digits
  // ---------------------------------------------------------------------------

  lemma {:induction false} OrAtLeast(a: nat, b: nat)
    ensures a <= Or(a, b)
  {
    if a != 0 || b != 0 {
      OrAtLeast(a / 2, b / 2);
    }
  }

  lemma {:induction false} OrBit(a: nat, b: nat, i: nat)
    ensures Bit(Or(a, b), i) <==> Bit(a, i) || Bit(b, i)
    decreases i
  {
    assert Or(a, b) / 2 == Or(a / 2, b / 2);
    if i > 0 {
      OrBit(a / 2, b / 2, i - 1);
    }
  }

  lemma {:induction false} ShrBit(x: nat, k: nat, i: nat)
    ensures Bit(Shr(x, k), i) <==> Bit(x, i + k)
    decreases k
  {
    if k > 0 {
      ShrBit(x / 2, k - 1, i);
    }
  }

  lemma {:induction false} BitBound(x: nat, i: nat)
    requires Bit(x, i)
    ensures x >= Pow2(i)
    decreases i
  {
    if i > 0 {
      BitBound(x / 2, i - 1);
    }
  }

  ghost predicate BitWithin(x: nat, i: nat, span: nat) {
    exists j | i <= j < i + span :: Bit(x, j)
  }

  /** One smearing step doubles the reach. */
  lemma SmearStep(x: nat, y: nat, span: nat)
    requires forall i: nat :: Bit(y, i) <==> BitWithin(x, i, span)
    ensures forall i: nat :: Bit(Or(y, Shr(y, span)), i) <==> BitWithin(x, i, 2 * span)
  {
    forall i: nat ensures Bit(Or(y, Shr(y, span)), i) <==> BitWithin(x, i, 2 * span) {
      OrBit(y, Shr(y, span), i);
      ShrBit(y, span, i);
      assert Bit(y, i + span) <==> BitWithin(x, i + span, span);
      if BitWithin(x, i, 2 * span) {
        var j :| i <= j < i + 2 * span && Bit(x, j);
        assert if j < i + span then BitWithin(x, i, span) else BitWithin(x, i + span, span);
      }
    }
  }

  lemma BitWithinOne(x: nat, i: nat)
    ensures Bit(x, i) <==> BitWithin(x, i, 1)
  {
    if Bit(x, i) {
      assert i <= i < i + 1;
    }
  }

  lemma SmearBits(x: nat)
    ensures forall i: nat :: Bit(Smear(x), i) <==> BitWithin(x, i, 32)
  {
    forall i: nat ensures Bit(x, i) <==> BitWithin(x, i, 1) {
      BitWithinOne(x, i);
    }
    var x1 := Or(x, Shr(x, 1));
    SmearStep(x, x, 1);
    var x2 := Or(x1, Shr(x1, 2));
    SmearStep(x, x1, 2);
    var x3 := Or(x2, Shr(x2, 4));
    SmearStep(x, x2, 4);
    var x4 := Or(x3, Shr(x3, 8));
    SmearStep(x, x3, 8);
    SmearStep(x, x4, 16);
  }

  /** A number whose digits are ones from its top digit down. */
  lemma {:induction false} OnesArePow2(x: nat, top: nat) returns (k: nat)
    requires forall i: nat :: Bit(x, i) ==> i < top && forall j | 0 <= j <= i :: Bit(x, j)
    ensures x + 1 == Pow2(k) && (k > 0 ==> Bit(x, k - 1))
    decreases x
  {
    if x == 0 {
      k := 0;
    } else {
      assert Bit(x, 0) by {
        if !Bit(x, 0) {
          var i := SomeBit(x);
        }
      }
      forall i: nat | Bit(x / 2, i) ensures i < top && forall j | 0 <= j <= i :: Bit(x / 2, j) {
        assert Bit(x, i + 1);
        forall j | 0 <= j <= i ensures Bit(x / 2, j) {
          assert Bit(x, j + 1);
        }
      }
      k := OnesArePow2(x / 2, top);
      k := k + 1;
    }
  }

  lemma {:induction false} SomeBit(x: nat) returns (i: nat)
    requires x > 0
    ensures Bit(x, i)
  {
    if x % 2 == 1 {
      i := 0;
    } else {
      i := SomeBit(x / 2);
      i := i + 1;
    }
  }

  lemma {:induction false} NoHighBits(x: nat, i: nat, k: nat)
    requires x < Pow2(k) && k <= i
    ensures !Bit(x, i)
    decreases k
  {
    if Bit(x, i) {
      BitBound(x, i);
      Pow2Mono(k, i);
    }
  }

  lemma {:induction false} Pow2Mono(k: nat, i: nat)
    requires k <= i
    ensures Pow2(k) <= Pow2(i)
    decreases i
  {
    if k < i {
      Pow2Mono(k, i - 1);
    }
  }

  lemma Pow2Of32()
    ensures Pow2(32) == UINT32_SPAN && Pow2(31) == MAX_INT32 + 1
  {
    assert Pow2(8) == 256;
    assert Pow2(16) == 65536;
    assert Pow2(24) == 0x100_0000;
  }

  /** The smeared word, plus one, is the least power of two above x. */
  lemma SmearIsLeast(x: nat) returns (k: nat)
    requires x < UINT32_SPAN
    ensures Smear(x) + 1 == Pow2(k) && x < Pow2(k) && (k > 0 ==> Pow2(k - 1) <= x)
  {
    SmearBits(x);
    Pow2Of32();
    var s := Smear(x);
    forall i: nat | Bit(s, i) ensures i < 32 && forall j | 0 <= j <= i :: Bit(s, j) {
      var b :| i <= b < i + 32 && Bit(x, b);
      if b >= 32 {
        NoHighBits(x, b, 32);
      }
      forall j | 0 <= j <= i ensures Bit(s, j) {
        assert BitWithin(x, j, 32);
      }
    }
    k := OnesArePow2(s, 32);
    SmearAtLeast(x);
    if k > 0 {
      var b :| k - 1 <= b < k - 1 + 32 && Bit(x, b);
      BitBound(x, b);
      Pow2Mono(k - 1, b);
    }
  }

  lemma SmearAtLeast(x: nat)
    ensures x <= Smear(x)
  {
    var x1 := Or(x, Shr(x, 1));
    OrAtLeast(x, Shr(x, 1));
    var x2 := Or(x1, Shr(x1, 2));
    OrAtLeast(x1, Shr(x1, 2));
    var x3 := Or(x2, Shr(x2, 4));
    OrAtLeast(x2, Shr(x2, 4));
    var x4 := Or(x3, Shr(x3, 8));
    OrAtLeast(x3, Shr(x3, 8));
    OrAtLeast(x4, Shr(x4, 16));
  }

  /** The buffer is large enough exactly for lengths that fit an int32: beyond that the
      truncation to uint32 and the cap at MaxInt32 make it too small. */
  lemma Round2Fits(n: int)
    ensures Round2(n) >= n <==> n <= MAX_INT32
  {
    hide Smear;
    if 0 < n <= MAX_INT32 {
      SmearAtLeast(n - 1);
    }
  }

  /** Up to 2^30 the result is the least power of two that is large enough; from there to the
      largest int32 it is the largest int32. */
  lemma Round2IsLeastPower(n: int) returns (k: nat)
    requires 0 < n <= MAX_INT32
    ensures Pow2(k) >= n && (k > 0 ==> Pow2(k - 1) < n)
    ensures Round2(n) == if Pow2(k) <= MAX_INT32 then Pow2(k) else MAX_INT32
  {
    hide Smear;
    k := SmearIsLeast(n - 1);
  }
}
