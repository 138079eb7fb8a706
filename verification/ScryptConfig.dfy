/** Start-up validation of the scrypt cost parameters. */
module ScryptConfig {
  import opened Strings
  import opened Words

  /** A JavaScript number. */
  datatype Number = Finite(value: real) | NotANumber | PlusInfinity | MinusInfinity

  datatype Password = Password(
    costFactor: Option<Number>,
    blockSize: Option<Number>,
    parallelization: Option<Number>)

  datatype ConfigError = NotIntegral(name: string) | TooSmall(name: string) | NotPowerOfTwo | TooMuchMemory

  const DEFAULT_COST_FACTOR := 131_072.0
  const DEFAULT_BLOCK_SIZE := 8.0
  const MAX_KDF_BYTES_PER_DERIVATION := 536_870_912.0
  const WORD: int := 0x1_0000_0000

  predicate IsInteger(n: Number) {
    n.Finite? && n.value.Floor as real == n.value
  }

  predicate IsBelow(n: Number, bound: real) {
    n.MinusInfinity? || (n.Finite? && n.value < bound)
  }

  /** `n & (n - 1)` of an integer: both operands are first reduced to their low 32 bits. */
  function AndPredecessor(n: int): nat {
    And(n % WORD, (n - 1) % WORD)
  }

  function AssertIntegral(name: string, n: Option<Number>): Option<ConfigError> {
    if n.None? || IsInteger(n.value) then None else Some(NotIntegral(name))
  }

  function ValidateCostFactor(p: Password): Option<ConfigError> {
    if p.costFactor.None? then None
    else if !IsInteger(p.costFactor.value) then AssertIntegral("costFactor", p.costFactor)
    else if IsBelow(p.costFactor.value, 16_384.0) then Some(TooSmall("costFactor"))
    else if AndPredecessor(p.costFactor.value.value.Floor) != 0 then Some(NotPowerOfTwo)
    else None
  }

  function Effective(n: Option<Number>, default: real): real {
    if n.Some? && n.value.Finite? then n.value.value else default
  }

  function ValidateMemory(p: Password): Option<ConfigError> {
    if AssertIntegral("blockSize", p.blockSize).Some? then AssertIntegral("blockSize", p.blockSize)
    else if p.blockSize.Some? && IsBelow(p.blockSize.value, 8.0) then Some(TooSmall("blockSize"))
    else if AssertIntegral("parallelization", p.parallelization).Some? then
      AssertIntegral("parallelization", p.parallelization)
    else if p.parallelization.Some? && IsBelow(p.parallelization.value, 1.0) then Some(TooSmall("parallelization"))
    else if 128.0 * Effective(p.costFactor, DEFAULT_COST_FACTOR) * Effective(p.blockSize, DEFAULT_BLOCK_SIZE)
            > MAX_KDF_BYTES_PER_DERIVATION then Some(TooMuchMemory)
    else None
  }

  /** The order of the start-up checks: the cost factor first. */
  function Validate(p: Password): Option<ConfigError> {
    var e := ValidateCostFactor(p);
    if e.Some? then e else ValidateMemory(p)
  }

  predicate IsPowerOfTwo(n: nat) {
    n == 1 || (n > 1 && n % 2 == 0 && IsPowerOfTwo(n / 2))
  }

  lemma {:induction false} AndSelf(n: nat)
    ensures And(n, n) == n
  {
    if n > 0 {
      AndSelf(n / 2);
    }
  }

  lemma {:induction false} AndPredecessorIff(n: nat)
    requires n > 0
    ensures And(n, n - 1) == 0 <==> IsPowerOfTwo(n)
  {
    if n > 1 {
      if n % 2 == 0 {
        AndPredecessorIff(n / 2);
        assert (n - 1) / 2 == n / 2 - 1;
      } else {
        AndSelf(n / 2);
        assert (n - 1) / 2 == n / 2;
      }
    }
  }

  /** What the bit test really asks: only the low 32 bits, and all of them zero passes too. */
  lemma BitTestIff(n: int)
    ensures AndPredecessor(n) == 0 <==> n % WORD == 0 || IsPowerOfTwo(n % WORD)
  {
    var low := n % WORD;
    if low > 0 {
      assert (n - 1) % WORD == low - 1;
      AndPredecessorIff(low);
    }
  }

  lemma LowBitIsKept(n: nat)
    ensures n % WORD % 2 == n % 2
  {
    var q := n / 0x1_0000_0000;
    assert n == 2 * (0x8000_0000 * q) + n % 0x1_0000_0000;
  }

  lemma OneIsAPowerOfTwo()
    ensures IsPowerOfTwo(1)
  {
  }

  lemma OddIsNoPowerOfTwo(n: nat)
    requires n > 1 && n % 2 == 1
    ensures !IsPowerOfTwo(n)
  {
  }

  /** Alone it lets through every number above 1 whose low 32 bits are 1, such as 2^32 + 1: none is a power of two. */
  lemma BitTestAloneIsNotEnough(n: nat)
    requires n > 1 && n % WORD == 1
    ensures AndPredecessor(n) == 0 && !IsPowerOfTwo(n)
  {
    hide AndPredecessor, IsPowerOfTwo;
    BitTestIff(n);
    OneIsAPowerOfTwo();
    LowBitIsKept(n);
    OddIsNoPowerOfTwo(n);
  }

  predicate IsAtLeast(n: Number, bound: real) {
    IsInteger(n) && n.value >= bound
  }

  predicate FitsInMemory(p: Password) {
    128.0 * Effective(p.costFactor, DEFAULT_COST_FACTOR) * Effective(p.blockSize, DEFAULT_BLOCK_SIZE)
      <= MAX_KDF_BYTES_PER_DERIVATION
  }

  lemma MemoryAcceptedIff(p: Password)
    ensures ValidateMemory(p) == None <==>
      && (p.blockSize.Some? ==> IsAtLeast(p.blockSize.value, 8.0))
      && (p.parallelization.Some? ==> IsAtLeast(p.parallelization.value, 1.0))
      && FitsInMemory(p)
  {
    hide Effective;
  }

  lemma CostAcceptedIff(p: Password)
    ensures ValidateCostFactor(p) == None <==> p.costFactor.Some? ==>
      && IsAtLeast(p.costFactor.value, 16_384.0)
      && AndPredecessor(p.costFactor.value.value.Floor) == 0
  {
    hide AndPredecessor;
  }

  lemma MemoryBoundsCost(n: real, r: real)
    requires n >= 0.0 && r >= 8.0
    ensures 128.0 * n * r <= MAX_KDF_BYTES_PER_DERIVATION ==> n <= 524_288.0
  {
    assert n * r >= n * 8.0;
    assert 128.0 * n * r == 128.0 * (n * r);
  }

  lemma LargestCost(p: Password)
    requires FitsInMemory(p) && p.costFactor.Some? && IsAtLeast(p.costFactor.value, 16_384.0)
    requires p.blockSize.Some? ==> IsAtLeast(p.blockSize.value, 8.0)
    ensures p.costFactor.value.value <= 524_288.0
  {
    MemoryBoundsCost(Effective(p.costFactor, DEFAULT_COST_FACTOR), Effective(p.blockSize, DEFAULT_BLOCK_SIZE));
  }

  lemma BitTestOnModestCost(n: int)
    requires 0 < n < WORD
    ensures AndPredecessor(n) == 0 <==> IsPowerOfTwo(n)
  {
    hide AndPredecessor, IsPowerOfTwo;
    BitTestIff(n);
    assert n % WORD == n;
  }

  /**
   * The accepted configurations, exactly: a cost factor that is a true power of two from 2^14 to
   * 2^19, a whole block size of at least 8, a whole parallelization of at least 1, and no more
   * than 2^29 bytes per derivation. The memory ceiling is what makes the bit test sound.
   */
  lemma AcceptedIff(p: Password)
    ensures Validate(p) == None <==>
      && (p.costFactor.Some? ==>
            && IsInteger(p.costFactor.value)
            && 16_384.0 <= p.costFactor.value.value <= 524_288.0
            && IsPowerOfTwo(p.costFactor.value.value.Floor))
      && (p.blockSize.Some? ==> IsAtLeast(p.blockSize.value, 8.0))
      && (p.parallelization.Some? ==> IsAtLeast(p.parallelization.value, 1.0))
      && FitsInMemory(p)
  {
    MemoryAcceptedIff(p);
    CostAcceptedIff(p);
    hide ValidateMemory, ValidateCostFactor, FitsInMemory, AndPredecessor, IsPowerOfTwo;
    if FitsInMemory(p) && (p.blockSize.Some? ==> IsAtLeast(p.blockSize.value, 8.0)) && p.costFactor.Some?
       && IsAtLeast(p.costFactor.value, 16_384.0) {
      LargestCost(p);
      BitTestOnModestCost(p.costFactor.value.value.Floor);
    }
  }

  // ---- the accepted configurations, spelled out ----

  predicate IsWhole(n: Number, least: int) {
    n.Finite? && n.value == n.value.Floor as real && n.value.Floor >= least
  }

  lemma WholeIff(n: Number, least: int)
    ensures IsWhole(n, least) <==> IsAtLeast(n, least as real)
  {
  }

  lemma SmallPowers(m: nat)
    requires IsPowerOfTwo(m) && m <= 32
    ensures m in {1, 2, 4, 8, 16, 32}
  {
    assert m > 1 ==> IsPowerOfTwo(m / 2);
    assert m > 3 ==> IsPowerOfTwo(m / 2 / 2);
    assert m > 7 ==> IsPowerOfTwo(m / 2 / 2 / 2);
    assert m > 15 ==> IsPowerOfTwo(m / 2 / 2 / 2 / 2);
  }

  lemma {:induction false} DoubledIsPositive(k: nat)
    ensures Doubled(1, k) >= 1
  {
    if k > 0 {
      DoubledIsPositive(k - 1);
    }
  }

  lemma {:induction false} HalveMany(n: nat, k: nat) returns (m: nat)
    requires IsPowerOfTwo(n) && n >= Doubled(1, k)
    ensures IsPowerOfTwo(m) && n == Doubled(m, k)
  {
    m := n;
    if k > 0 {
      DoubledIsPositive(k - 1);
      m := HalveMany(n / 2, k - 1);
    }
  }

  lemma Fourteen(m: nat)
    ensures Doubled(m, 14) == 16_384 * m
  {
    hide Doubled;
    DoubledTwo(m);
    DoubledTwo(4 * m);
    DoubledTwo(16 * m);
    DoubledTwo(64 * m);
    DoubledTwo(256 * m);
    DoubledTwo(1_024 * m);
    DoubledTwo(4_096 * m);
    DoubledTwice(m, 2, 2);
    DoubledTwice(m, 4, 2);
    DoubledTwice(m, 6, 2);
    DoubledTwice(m, 8, 2);
    DoubledTwice(m, 10, 2);
    DoubledTwice(m, 12, 2);
  }

  lemma {:induction false} DoubledPower(m: nat, k: nat)
    requires IsPowerOfTwo(m)
    ensures IsPowerOfTwo(Doubled(m, k))
  {
    if k > 0 {
      DoubledPower(m, k - 1);
    }
  }

  lemma PowerInRange(n: nat)
    requires IsPowerOfTwo(n) && 16_384 <= n <= 524_288
    ensures n in {16_384, 32_768, 65_536, 131_072, 262_144, 524_288}
  {
    hide Doubled, IsPowerOfTwo;
    Fourteen(1);
    var m := HalveMany(n, 14);
    Fourteen(m);
    SmallPowers(m);
  }

  lemma MultipleIsPower(m: nat)
    requires m in {1, 2, 4, 8, 16, 32}
    ensures IsPowerOfTwo(16_384 * m)
  {
    assert IsPowerOfTwo(1) && IsPowerOfTwo(2) && IsPowerOfTwo(4) && IsPowerOfTwo(8) && IsPowerOfTwo(16);
    hide Doubled;
    DoubledPower(m, 14);
    Fourteen(m);
  }

  lemma PowersInRange(n: nat)
    ensures IsPowerOfTwo(n) && 16_384 <= n <= 524_288 <==>
      n in {16_384, 32_768, 65_536, 131_072, 262_144, 524_288}
  {
    if IsPowerOfTwo(n) && 16_384 <= n <= 524_288 {
      PowerInRange(n);
    }
    if n in {16_384, 32_768, 65_536, 131_072, 262_144, 524_288} {
      MultipleIsPower(n / 16_384);
    }
  }

  function Given(n: Option<Number>, default: real): real {
    if n.Some? && n.value.Finite? then n.value.value else default
  }

  lemma MemorySpelledOut(p: Password)
    ensures FitsInMemory(p) <==>
      128.0 * Given(p.costFactor, 131_072.0) * Given(p.blockSize, 8.0) <= 536_870_912.0
  {
  }

  lemma CostSpelledOut(n: Number)
    ensures IsInteger(n) && 16_384.0 <= n.value <= 524_288.0 && IsPowerOfTwo(n.value.Floor) <==>
      n in {Finite(16_384.0), Finite(32_768.0), Finite(65_536.0),
            Finite(131_072.0), Finite(262_144.0), Finite(524_288.0)}
  {
    hide IsPowerOfTwo;
    if n.Finite? && n.value >= 0.0 {
      PowersInRange(n.value.Floor);
    }
  }

  /**
   * Start-up accepts six cost factors, every whole block size from 8, every whole parallelization
   * from 1, and of these the combinations within 512 MiB, an absent value counting as its default.
   */
  lemma AcceptedSpelledOut(p: Password)
    ensures Validate(p) == None <==>
      && (p.costFactor.Some? ==> p.costFactor.value in {
            Finite(16_384.0), Finite(32_768.0), Finite(65_536.0),
            Finite(131_072.0), Finite(262_144.0), Finite(524_288.0)})
      && (p.blockSize.Some? ==> IsWhole(p.blockSize.value, 8))
      && (p.parallelization.Some? ==> IsWhole(p.parallelization.value, 1))
      && 128.0 * Given(p.costFactor, 131_072.0) * Given(p.blockSize, 8.0) <= 536_870_912.0
  {
    hide Validate, IsWhole, IsAtLeast, IsPowerOfTwo, IsInteger, FitsInMemory, Given;
    AcceptedIff(p);
    MemorySpelledOut(p);
    if p.blockSize.Some? {
      WholeIff(p.blockSize.value, 8);
    }
    if p.parallelization.Some? {
      WholeIff(p.parallelization.value, 1);
    }
    if p.costFactor.Some? {
      CostSpelledOut(p.costFactor.value);
    }
  }

  lemma OptionNamesDiffer()
    ensures "costFactor" != "blockSize" && "costFactor" != "parallelization" && "blockSize" != "parallelization"
  {
    assert |"costFactor"| == 10 && |"blockSize"| == 9 && |"parallelization"| == 15;
  }

  /** Which error is reported: the first check that fails, with the name of its option. */
  lemma ErrorsNameTheirOption(p: Password)
    ensures var e := Validate(p);
      var costOk := ValidateCostFactor(p).None?;
      var sizeOk := costOk && (p.blockSize.Some? ==> IsAtLeast(p.blockSize.value, 8.0));
      && (e == Some(NotIntegral("costFactor")) <==> p.costFactor.Some? && !IsInteger(p.costFactor.value))
      && (e == Some(TooSmall("costFactor")) <==>
            p.costFactor.Some? && IsInteger(p.costFactor.value) && p.costFactor.value.value < 16_384.0)
      && (e == Some(NotPowerOfTwo) <==>
            && p.costFactor.Some? && IsAtLeast(p.costFactor.value, 16_384.0)
            && AndPredecessor(p.costFactor.value.value.Floor) != 0)
      && (e == Some(NotIntegral("blockSize")) <==> costOk && p.blockSize.Some? && !IsInteger(p.blockSize.value))
      && (e == Some(TooSmall("blockSize")) <==>
            costOk && p.blockSize.Some? && IsInteger(p.blockSize.value) && p.blockSize.value.value < 8.0)
      && (e == Some(NotIntegral("parallelization")) <==>
            sizeOk && p.parallelization.Some? && !IsInteger(p.parallelization.value))
      && (e == Some(TooSmall("parallelization")) <==>
            && sizeOk && p.parallelization.Some? && IsInteger(p.parallelization.value)
            && p.parallelization.value.value < 1.0)
  {
    hide AndPredecessor, Effective;
    OptionNamesDiffer();
  }
}
