/**
 Bit operations on unsigned words, as naturals: masking, smearing and rounding up to a power
 of two.
 */
module PowerOfTwo {

  function Pow2(k: nat): (p: nat)
    ensures p >= 1
  {
    if k == 0 then 1 else 2 * Pow2(k - 1)
  }

  const WORD := 0x1_0000_0000_0000_0000
  const HALF_WORD := 0x8000_0000_0000_0000

  ghost predicate IsPowerOfTwo(n: nat)
  {
    exists k: nat :: n == Pow2(k)
  }

  predicate Bit(x: nat, i: nat)
  {
    if i == 0 then x % 2 == 1 else Bit(x / 2, i - 1)
  }

  function And(x: nat, y: nat): nat
  {
    if x == 0 then 0 else 2 * And(x / 2, y / 2) + (if x % 2 == 1 && y % 2 == 1 then 1 else 0)
  }

  function Or(x: nat, y: nat): nat
    decreases x + y
  {
    if x == 0 && y == 0 then 0 else 2 * Or(x / 2, y / 2) + (if x % 2 == 1 || y % 2 == 1 then 1 else 0)
  }

  function ShiftRight(x: nat, s: nat): nat
  {
    if s == 0 then x else ShiftRight(x / 2, s - 1)
  }

  // ---------- masking ----------

  /** Masking with capacity - 1 is the remainder, when capacity is a power of two. */
  lemma {:induction false} MaskIsModulo(h: nat, k: nat)
    ensures And(h, Pow2(k) - 1) == h % Pow2(k)
    decreases k
  {
    if k == 0 {
      AndZero(h);
    } else {
      var p := Pow2(k - 1);
      MaskIsModulo(h / 2, k - 1);
      assert (Pow2(k) - 1) / 2 == p - 1 && (Pow2(k) - 1) % 2 == 1;
      HalfModulo(h, p);
    }
  }

  lemma {:induction false} AndZero(h: nat)
    ensures And(h, 0) == 0
  {
    if h > 0 {
      AndZero(h / 2);
    }
  }

  lemma HalfModulo(h: nat, p: nat)
    requires p >= 1
    ensures h % (2 * p) == 2 * ((h / 2) % p) + h % 2
  {
    var q, r := (h / 2) / p, (h / 2) % p;
    assert h == 2 * (q * p + r) + h % 2;
    assert h == q * (2 * p) + (2 * r + h % 2);
    Remainder(h, 2 * p, q, 2 * r + h % 2);
  }

  lemma Remainder(h: nat, m: nat, q: nat, r: nat)
    requires m >= 1 && h == q * m + r && r < m
    ensures h % m == r
  {
    assert h == (h / m) * m + h % m;
    SameRemainder(m, q, r, h / m, h % m);
  }

  lemma SameRemainder(m: nat, q: int, r: int, q': int, r': int)
    requires q * m + r == q' * m + r' && 0 <= r < m && 0 <= r' < m
    ensures r == r'
  {
    var d := q - q';
    assert d * m == r' - r;
    AtLeastOnce(d, m);
  }

  lemma AtLeastOnce(d: int, m: nat)
    ensures (d >= 1 ==> d * m >= m) && (d <= -1 ==> -(d * m) >= m)
  {
  }

  lemma {:induction false} AndSelf(x: nat)
    ensures And(x, x) == x
  {
    if x > 0 {
      AndSelf(x / 2);
    }
  }

  /** The test made before rounding is exact. */
  lemma {:induction false} PowerOfTwoTest(c: nat)
    requires c >= 1
    ensures And(c, c - 1) == 0 <==> IsPowerOfTwo(c)
  {
    if c == 1 {
      assert c == Pow2(0) && And(1, 0) == 0;
    } else if c % 2 == 0 {
      PowerOfTwoTest(c / 2);
      assert (c - 1) / 2 == c / 2 - 1;
      if IsPowerOfTwo(c / 2) {
        var k: nat :| c / 2 == Pow2(k);
        assert c == Pow2(k + 1);
      }
      if IsPowerOfTwo(c) {
        var k: nat :| c == Pow2(k);
        assert k > 0 && c / 2 == Pow2(k - 1);
      }
    } else {
      AndSelf(c / 2);
      assert (c - 1) / 2 == c / 2;
      OnlyOneIsOdd(c);
    }
  }

  lemma OnlyOneIsOdd(c: nat)
    requires c % 2 == 1
    ensures IsPowerOfTwo(c) ==> c == 1
  {
    if IsPowerOfTwo(c) {
      var k: nat :| c == Pow2(k);
      if k > 0 {
        PowersAreEven(k);
      }
    }
  }

  lemma PowersAreEven(k: nat)
    requires k >= 1
    ensures Pow2(k) % 2 == 0
  {
  }

  // ---------- rounding up ----------

  lemma {:induction false} BitOr(x: nat, y: nat, i: nat)
    ensures Bit(Or(x, y), i) <==> Bit(x, i) || Bit(y, i)
    decreases i
  {
    if i > 0 {
      BitOr(x / 2, y / 2, i - 1);
    }
    if x == 0 && y == 0 {
      ZeroHasNoBits(i);
    }
  }

  lemma {:induction false} ZeroHasNoBits(i: nat)
    ensures !Bit(0, i)
  {
    if i > 0 {
      ZeroHasNoBits(i - 1);
    }
  }

  lemma {:induction false} BitShift(x: nat, s: nat, i: nat)
    ensures Bit(ShiftRight(x, s), i) <==> Bit(x, i + s)
    decreases s
  {
    if s > 0 {
      BitShift(x / 2, s - 1, i);
    }
  }

  lemma {:induction false} ZeroShifted(s: nat)
    ensures ShiftRight(0, s) == 0
  {
    if s > 0 {
      ZeroShifted(s - 1);
    }
  }

  lemma {:induction false} HighBitsAreZero(x: nat, n: nat, i: nat)
    requires x < Pow2(n) && i >= n
    ensures !Bit(x, i)
    decreases i
  {
    if n == 0 {
      ZeroHasNoBits(i);
    } else {
      HighBitsAreZero(x / 2, n - 1, i - 1);
    }
  }

  lemma {:induction false} TopBitIsOne(x: nat, n: nat)
    requires Pow2(n) <= x < Pow2(n + 1)
    ensures Bit(x, n)
    decreases n
  {
    if n > 0 {
      assert Pow2(n) == 2 * Pow2(n - 1) && Pow2(n + 1) == 2 * Pow2(n);
      TopBitIsOne(x / 2, n - 1);
    }
  }

  lemma {:induction false} AllOnes(x: nat, n: nat)
    requires forall i: nat :: Bit(x, i) <==> i < n
    ensures x == Pow2(n) - 1
    decreases n + x
  {
    forall i: nat ensures Bit(x / 2, i) <==> i < n - 1 {
      assert Bit(x, i + 1) <==> i + 1 < n;
    }
    assert Bit(x, 0) <==> 0 < n;
    if n > 0 {
      AllOnes(x / 2, n - 1);
    } else if x > 0 {
      AllOnes(x / 2, 0);
    }
  }

  lemma {:induction false} TopBit(x: nat) returns (n: nat)
    requires x >= 1
    ensures Pow2(n) <= x < Pow2(n + 1)
  {
    if x == 1 {
      n := 0;
    } else {
      n := TopBit(x / 2);
      n := n + 1;
      assert Pow2(n) == 2 * Pow2(n - 1) && Pow2(n + 1) == 2 * Pow2(n);
    }
  }

  lemma {:induction false} Pow2Monotone(a: nat, b: nat)
    requires a <= b
    ensures Pow2(a) <= Pow2(b)
  {
    if a < b {
      Pow2Monotone(a, b - 1);
    }
  }

  /** The top bit is at n, and the width bits from there downwards are all ones. */
  ghost predicate Smeared(x: nat, n: nat, width: nat)
  {
    && (forall i: nat :: i > n ==> !Bit(x, i))
    && (forall i: nat :: i <= n < i + width ==> Bit(x, i))
  }

  lemma SmearDoubles(x: nat, n: nat, width: nat)
    requires Smeared(x, n, width) && width >= 1
    ensures Smeared(Or(x, ShiftRight(x, width)), n, 2 * width)
  {
    var y := Or(x, ShiftRight(x, width));
    forall i: nat | i > n ensures !Bit(y, i) {
      SmearedBit(x, width, i);
    }
    forall i: nat | i <= n < i + 2 * width ensures Bit(y, i) {
      SmearedBit(x, width, i);
      assert n < i + width || i + width <= n < i + width + width;
    }
  }

  lemma SmearedBit(x: nat, width: nat, i: nat)
    ensures Bit(Or(x, ShiftRight(x, width)), i) <==> Bit(x, i) || Bit(x, i + width)
  {
    BitOr(x, ShiftRight(x, width), i);
    BitShift(x, width, i);
  }

  /** The least power of two that is at least v. */
  ghost predicate IsLeastPowerAbove(p: nat, v: nat)
  {
    IsPowerOfTwo(p) && p >= v && forall q: nat :: IsPowerOfTwo(q) && q >= v ==> p <= q
  }

  lemma LeastPower(v: nat, n: nat)
    requires v >= 1 && Pow2(n) < v <= Pow2(n + 1)
    ensures IsLeastPowerAbove(Pow2(n + 1), v)
  {
    forall q: nat | IsPowerOfTwo(q) && q >= v ensures Pow2(n + 1) <= q {
      var k: nat :| q == Pow2(k);
      if k <= n {
        Pow2Monotone(k, n);
      }
      Pow2Monotone(n + 1, if k <= n then n + 1 else k);
    }
  }

  lemma WordIsPow2()
    ensures Pow2(32) == 0x1_0000_0000 && Pow2(63) == HALF_WORD && Pow2(64) == WORD
  {
    assert Pow2(8) == 256;
    assert Pow2(16) == 65536 by { Pow2Sum(8, 8); }
    assert Pow2(32) == 0x1_0000_0000 by { Pow2Sum(16, 16); }
    assert Pow2(64) == WORD by { Pow2Sum(32, 32); }
    assert Pow2(64) == 2 * Pow2(63);
  }

  lemma {:induction false} Pow2Sum(a: nat, b: nat)
    ensures Pow2(a + b) == Pow2(a) * Pow2(b)
    decreases b
  {
    if b > 0 {
      Pow2Sum(a, b - 1);
      assert Pow2(a) * (2 * Pow2(b - 1)) == 2 * (Pow2(a) * Pow2(b - 1));
    }
  }

  /** The loop of next_power_of_two: or-ing the word with itself shifted by 1, 2, 4 .. 32. */
  method Smear(start: nat) returns (x: nat, ghost n: nat)
    requires start < WORD
    ensures start == 0 ==> x == 0
    ensures start > 0 ==> n < 64 && Pow2(n) <= start < Pow2(n + 1) && x == Pow2(n + 1) - 1
  {
    x, n := start, 0;
    if x > 0 {
      n := TopBit(x);
      SmearStart(x, n);
    }
    var i, shf := 0, 0;
    while shf < 32
      invariant start == 0 ==> x == 0
      invariant start > 0 ==> Smeared(x, n, Pow2(i))
      invariant 0 <= i && shf == (if i == 0 then 0 else Pow2(i - 1)) <= 32
      decreases 32 - shf
    {
      NextShift(i, shf);
      shf := Pow2(i);
      if start > 0 {
        SmearDoubles(x, n, shf);
      } else {
        ZeroShifted(shf);
      }
      x := Or(x, ShiftRight(x, shf));
      i := i + 1;
    }
    if start > 0 {
      WholeWordSmeared(start, x, n, Pow2(i));
    }
  }

  lemma NextShift(i: nat, shf: nat)
    requires shf == (if i == 0 then 0 else Pow2(i - 1)) < 32
    ensures shf < Pow2(i) <= 32
  {
    SmallPowers();
    if i > 5 {
      Pow2Monotone(5, i - 1);
    } else {
      Pow2Monotone(i, 5);
    }
  }

  /** next_power_of_two on 64-bit words, with its wrap-around: it is the least power of two that
      is at least v for 1 <= v <= 2^63, and 1 for zero and for everything larger. */
  method NextPowerOfTwo(v: nat) returns (r: nat)
    requires v < WORD
    ensures 1 <= v <= HALF_WORD ==> IsLeastPowerAbove(r, v)
    ensures v == 0 || v > HALF_WORD ==> r == 1
  {
    var start: nat := (v + WORD - 1) % WORD;
    var x, n := Smear(start);
    if start > 0 {
      RoundedUp(v, start, n);
    } else {
      OneRounds();
    }
    x := (x + 1) % WORD;
    r := if x > 1 then x else 1;
  }

  lemma SmallPowers()
    ensures Pow2(0) == 1 && Pow2(1) == 2 && Pow2(2) == 4 && Pow2(3) == 8 && Pow2(4) == 16 && Pow2(5) == 32
              && Pow2(6) == 64
  {
  }

  lemma OneRounds()
    ensures IsLeastPowerAbove(1, 1)
  {
    assert Pow2(0) == 1;
  }

  lemma WholeWordSmeared(start: nat, x: nat, n: nat, width: nat)
    requires Pow2(n) <= start < WORD && Smeared(x, n, width) && width >= 64
    ensures n < 64 && x == Pow2(n + 1) - 1
  {
    WordIsPow2();
    TopBitBelow(start, n, 64);
    AllOnes(x, n + 1);
  }

  lemma RoundedUp(v: nat, start: nat, n: nat)
    requires v < WORD && start == (v + WORD - 1) % WORD && Pow2(n) <= start < Pow2(n + 1) && n < 64
    ensures var r := Pow2(n + 1) % WORD;
            if 1 <= v <= HALF_WORD then IsLeastPowerAbove(r, v) && r > 1 else r == 0
  {
    WordIsPow2();
    if 1 <= v <= HALF_WORD {
      LeastPower(v, n);
      TopBitBelow(start, n, 63);
      Pow2Monotone(n + 1, 63);
      assert Pow2(n + 1) == 2 * Pow2(n);
    } else {
      TopBitAbove(start, n, 63);
    }
  }

  lemma SmearStart(x: nat, n: nat)
    requires Pow2(n) <= x < Pow2(n + 1)
    ensures Smeared(x, n, 1)
  {
    TopBitIsOne(x, n);
    forall i: nat | i > n ensures !Bit(x, i) {
      HighBitsAreZero(x, n + 1, i);
    }
  }

  lemma TopBitBelow(x: nat, n: nat, m: nat)
    requires Pow2(n) <= x < Pow2(m)
    ensures n < m
  {
    if m <= n {
      Pow2Monotone(m, n);
    }
  }

  lemma TopBitAbove(x: nat, n: nat, m: nat)
    requires Pow2(m) <= x < Pow2(n + 1)
    ensures m <= n
  {
    if n < m {
      Pow2Monotone(n + 1, m);
    }
  }
}
