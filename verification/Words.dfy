/**
 * JavaScript's 32-bit operators on bit patterns: a word is the natural number its 32 bits spell,
 * so the sign a language prints it with does not matter. Also bit strings, most significant first.
 */
module Words {

  function And(a: nat, b: nat): nat
    decreases a
  {
    if a == 0 || b == 0 then 0
    else 2 * And(a / 2, b / 2) + (if a % 2 == 1 && b % 2 == 1 then 1 else 0)
  }

  function Or(a: nat, b: nat): nat
    decreases a + b
  {
    if a == 0 then b
    else if b == 0 then a
    else 2 * Or(a / 2, b / 2) + (if a % 2 == 1 || b % 2 == 1 then 1 else 0)
  }

  /** The low `k` bits of `v`. */
  function Low(v: nat, k: nat): nat {
    if k == 0 then 0 else 2 * Low(v / 2, k - 1) + v % 2
  }

  /** `k` ones. */
  function Ones(k: nat): nat {
    if k == 0 then 0 else 2 * Ones(k - 1) + 1
  }

  function Doubled(v: nat, k: nat): nat {
    if k == 0 then v else 2 * Doubled(v, k - 1)
  }

  function Halved(v: nat, k: nat): nat {
    if k == 0 then v else Halved(v / 2, k - 1)
  }

  /** `v << k`: the bits pushed past the thirty-second are lost. */
  function Shl(v: nat, k: nat): nat {
    Low(Doubled(v, k), 32)
  }

  /** `v >>> k`. */
  function Shr(v: nat, k: nat): nat {
    Halved(v, k)
  }

  /** `v` needs no more than `k` bits. */
  predicate Fits(v: nat, k: nat) {
    Low(v, k) == v
  }

  lemma {:induction false} FitsIff(v: nat, k: nat)
    ensures Fits(v, k) <==> v <= Ones(k)
  {
    if k > 0 {
      FitsIff(v / 2, k - 1);
    }
  }

  lemma {:induction false} LowOfZero(k: nat)
    ensures Low(0, k) == 0
  {
    if k > 0 {
      LowOfZero(k - 1);
    }
  }

  /** Masking with `k` ones keeps the low `k` bits. */
  lemma {:induction false} AndOnes(v: nat, k: nat)
    ensures And(v, Ones(k)) == Low(v, k)
  {
    if k > 0 {
      AndOnes(v / 2, k - 1);
      if v == 0 {
        LowOfZero(k);
      }
    }
  }

  lemma {:induction false} LowFits(v: nat, k: nat)
    ensures Fits(Low(v, k), k)
  {
    if k > 0 {
      LowFits(v / 2, k - 1);
    }
  }

  lemma {:induction false} LowOfDoubled(v: nat, m: nat, k: nat)
    ensures Low(Doubled(v, k), m + k) == Doubled(Low(v, m), k)
  {
    if k > 0 {
      LowOfDoubled(v, m, k - 1);
    }
  }

  // ---- bit strings ----

  type Bits = seq<bool>

  /** The low `width` bits of `n`. */
  function BitsOf(n: nat, width: nat): (b: Bits)
    ensures |b| == width
  {
    if width == 0 then [] else BitsOf(n / 2, width - 1) + [n % 2 == 1]
  }

  function Number(b: Bits): nat {
    if b == [] then 0 else 2 * Number(b[..|b| - 1]) + if b[|b| - 1] then 1 else 0
  }

  function Zeros(k: nat): (b: Bits)
    ensures |b| == k
    ensures forall i :: 0 <= i < k ==> !b[i]
  {
    seq(k, _ => false)
  }

  lemma {:induction false} NumberOfBits(n: nat, width: nat)
    ensures Number(BitsOf(n, width)) == Low(n, width)
  {
    if width > 0 {
      NumberOfBits(n / 2, width - 1);
      var b := BitsOf(n, width);
      assert b[..|b| - 1] == BitsOf(n / 2, width - 1);
    }
  }

  lemma {:induction false} BitsOfNumber(b: Bits)
    ensures BitsOf(Number(b), |b|) == b
    ensures Fits(Number(b), |b|)
  {
    if b != [] {
      BitsOfNumber(b[..|b| - 1]);
      assert b == b[..|b| - 1] + [b[|b| - 1]];
    }
  }

  lemma BitsDetermine(m: nat, n: nat, width: nat)
    requires Fits(m, width) && Fits(n, width)
    requires BitsOf(m, width) == BitsOf(n, width)
    ensures m == n
  {
    NumberOfBits(m, width);
    NumberOfBits(n, width);
  }

  /** Low bits do not depend on the bits above them. */
  lemma {:induction false} BitsOfLow(n: nat, width: nat, k: nat)
    requires width <= k
    ensures BitsOf(Low(n, k), width) == BitsOf(n, width)
    decreases k
  {
    if width > 0 {
      BitsOfLow(n / 2, width - 1, k - 1);
    }
  }

  /** `width + k` bits are the `width` bits above bit `k`, then the low `k`. */
  lemma {:induction false} BitsSplit(n: nat, width: nat, k: nat)
    ensures BitsOf(n, width + k) == BitsOf(Halved(n, k), width) + BitsOf(n, k)
    decreases k
  {
    if k > 0 {
      BitsSplit(n / 2, width, k - 1);
      var (a, b) := (BitsOf(Halved(n, k), width), BitsOf(n / 2, k - 1));
      assert a + (b + [n % 2 == 1]) == a + b + [n % 2 == 1];
    }
  }

  /** Filling empty low bits with `|` appends them. */
  lemma {:induction false} OrBelow(x: nat, low: nat, k: nat, width: nat)
    requires Fits(low, k)
    ensures BitsOf(Or(Doubled(x, k), low), width + k) == BitsOf(x, width) + BitsOf(low, k)
    decreases k
  {
    if k > 0 {
      OrBelow(x, low / 2, k - 1, width);
      var n := Or(Doubled(x, k), low);
      assert n / 2 == Or(Doubled(x, k - 1), low / 2) && n % 2 == low % 2;
      var (a, b) := (BitsOf(x, width), BitsOf(low / 2, k - 1));
      assert a + (b + [low % 2 == 1]) == a + b + [low % 2 == 1];
    }
  }

  lemma {:induction false} BitsShifted(n: nat, width: nat, k: nat)
    ensures BitsOf(Doubled(n, k), width + k) == BitsOf(n, width) + Zeros(k)
    decreases k
  {
    if k == 0 {
      assert BitsOf(n, width) + Zeros(0) == BitsOf(n, width);
    } else {
      BitsShifted(n, width, k - 1);
      assert Zeros(k) == Zeros(k - 1) + [false];
      assert BitsOf(n, width) + Zeros(k - 1) + [false] == BitsOf(n, width) + (Zeros(k - 1) + [false]);
    }
  }

  /** `(v << k) | low` in a 32-bit word: `low` follows the bits already there. */
  lemma ShiftIn(v: nat, low: nat, k: nat, width: nat)
    requires Fits(low, k) && width + k <= 32
    ensures BitsOf(Or(Shl(v, k), low), width + k) == BitsOf(v, width) + BitsOf(low, k)
  {
    LowOfDoubled(v, 32 - k, k);
    OrBelow(Low(v, 32 - k), low, k, width);
    BitsOfLow(v, width, 32 - k);
  }

  /** `(v >>> k) & mask`, with a mask of `width` ones, reads the `width` bits above bit `k`. */
  lemma ReadOut(v: nat, k: nat, width: nat)
    ensures var x := And(Shr(v, k), Ones(width));
      && Fits(x, width)
      && BitsOf(v, width + k) == BitsOf(x, width) + BitsOf(v, k)
  {
    AndOnes(Shr(v, k), width);
    LowFits(Shr(v, k), width);
    BitsSplit(v, width, k);
    BitsOfLow(Shr(v, k), width, width);
  }

  /** `(v << k) & mask` pads the low bits of `v` with `k` zeros on the right. */
  lemma PadOut(v: nat, k: nat, width: nat)
    requires k <= width <= 32
    ensures var x := And(Shl(v, k), Ones(width));
      && Fits(x, width)
      && BitsOf(x, width) == BitsOf(v, width - k) + Zeros(k)
  {
    AndOnes(Shl(v, k), width);
    LowFits(Shl(v, k), width);
    BitsOfLow(Shl(v, k), width, width);
    BitsOfLow(Doubled(v, k), width, 32);
    BitsShifted(v, width - k, k);
  }

  lemma {:induction false} DoubledTwice(v: nat, j: nat, k: nat)
    ensures Doubled(v, j + k) == Doubled(Doubled(v, j), k)
  {
    if k > 0 {
      DoubledTwice(v, j, k - 1);
    }
  }

  lemma DoubledTwo(v: nat)
    ensures Doubled(v, 2) == 4 * v
  {
    assert Doubled(v, 1) == 2 * Doubled(v, 0);
  }

  /** Bit `k` of `v`, the lowest being bit 0. */
  predicate Bit(v: nat, k: nat) {
    Halved(v, k) % 2 == 1
  }

  lemma {:induction false} HalvedZero(k: nat)
    ensures Halved(0, k) == 0
  {
    if k > 0 {
      HalvedZero(k - 1);
    }
  }

  /** `&` and `|` work on each bit by itself. */
  lemma {:induction false} BitwiseAnd(a: nat, b: nat, k: nat)
    ensures Bit(And(a, b), k) <==> Bit(a, k) && Bit(b, k)
    decreases k
  {
    HalvedZero(k);
    if a > 0 && b > 0 && k > 0 {
      BitwiseAnd(a / 2, b / 2, k - 1);
      assert And(a, b) / 2 == And(a / 2, b / 2);
    }
  }

  lemma {:induction false} BitwiseOr(a: nat, b: nat, k: nat)
    ensures Bit(Or(a, b), k) <==> Bit(a, k) || Bit(b, k)
    decreases k
  {
    HalvedZero(k);
    if a > 0 && b > 0 && k > 0 {
      BitwiseOr(a / 2, b / 2, k - 1);
      assert Or(a, b) / 2 == Or(a / 2, b / 2);
    }
  }
}
