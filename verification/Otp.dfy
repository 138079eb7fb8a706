/** HOTP (RFC 4226) and TOTP (RFC 6238): counter bytes, dynamic truncation, codes and the window. */
module Otp {
  import opened Strings
  import opened Words
  import Base32

  type byte = Base32.byte

  /** An HMAC-SHA1 output. */
  type Digest = d: seq<byte> | |d| == 20 witness seq(20, _ => 0)

  /** The keyed hash, as a function of the key and the message. */
  type Hmac = (seq<nat>, seq<nat>) -> Digest

  const MAX_SAFE_INTEGER: nat := 0x1F_FFFF_FFFF_FFFF
  const MIN_SECRET_BYTES: nat := 20
  const TOTP_STEP_SECONDS: nat := 30
  const MAX_VERIFY_WINDOW: int := 2

  datatype HotpError = BadSecret(error: Base32.DecodeError) | SecretTooShort(length: nat) | BadCounter(counter: int)

  // ---- the counter as eight big-endian bytes ----

  function BigEndian(n: nat, width: nat): (bytes: seq<nat>)
    ensures |bytes| == width
    ensures forall i :: 0 <= i < width ==> bytes[i] < 256
  {
    if width == 0 then [] else BigEndian(n / 256, width - 1) + [n % 256]
  }

  function BigEndianValue(bytes: seq<nat>): nat {
    if bytes == [] then 0 else BigEndianValue(bytes[..|bytes| - 1]) * 256 + bytes[|bytes| - 1]
  }

  function BigEndianLimit(width: nat): nat {
    if width == 0 then 1 else 256 * BigEndianLimit(width - 1)
  }

  lemma {:induction false} BigEndianReadsBack(n: nat, width: nat)
    ensures n / 256 < BigEndianLimit(width) ==> n < 256 * BigEndianLimit(width)
    ensures n < BigEndianLimit(width) ==> BigEndianValue(BigEndian(n, width)) == n
    decreases width
  {
    if width > 0 {
      BigEndianReadsBack(n / 256, width - 1);
      var b := BigEndian(n, width);
      assert b[..|b| - 1] == BigEndian(n / 256, width - 1);
    }
  }

  lemma ByteStep(q: nat, m: nat)
    ensures (q * 256 + m) / 256 == q + m / 256 && (q * 256 + m) % 256 == m % 256
  {
  }

  lemma NestedDivision(n: nat)
    ensures n / 256 / 256 == n / 0x1_0000 && n / 256 / 256 / 256 == n / 0x100_0000
  {
  }

  lemma BytesOfLowHalf(q: nat, m: nat)
    ensures var n := q * 0x1_0000_0000 + m;
      && n / 0x100_0000 % 256 == m / 0x100_0000 % 256
      && n / 0x1_0000 % 256 == m / 0x1_0000 % 256
      && n / 256 % 256 == m / 256 % 256
      && n % 256 == m % 256
  {
    var n := q * 0x1_0000_0000 + m;
    ByteStep(q * 0x100_0000, m);
    ByteStep(q * 0x1_0000, m / 256);
    ByteStep(q * 256, m / 256 / 256);
    ByteStep(q, m / 256 / 256 / 256);
    NestedDivision(m);
    NestedDivision(n);
  }

  lemma FourBytes(n: nat)
    ensures BigEndian(n, 4) == [n / 0x100_0000 % 256, n / 0x1_0000 % 256, n / 256 % 256, n % 256]
  {
    var (a, b, c) := (n / 256, n / 256 / 256, n / 256 / 256 / 256);
    assert BigEndian(c, 1) == BigEndian(c / 256, 0) + [c % 256] == [c % 256];
    assert BigEndian(b, 2) == BigEndian(c, 1) + [b % 256];
    assert BigEndian(a, 3) == BigEndian(b, 2) + [a % 256];
  }

  lemma LowFour(n: nat)
    ensures BigEndian(n, 8) == BigEndian(n / 0x1_0000_0000, 4)
      + [n / 0x100_0000 % 256, n / 0x1_0000 % 256, n / 256 % 256, n % 256]
  {
    var (a, b, c, d) := (n / 256, n / 256 / 256, n / 256 / 256 / 256, n / 256 / 256 / 256 / 256);
    assert d == n / 0x1_0000_0000;
    assert BigEndian(c, 5) == BigEndian(d, 4) + [c % 256];
    assert BigEndian(b, 6) == BigEndian(c, 5) + [b % 256];
    assert BigEndian(a, 7) == BigEndian(b, 6) + [a % 256];
    assert BigEndian(n, 8) == BigEndian(a, 7) + [n % 256];
  }

  /** Two 32-bit halves written one after the other are the eight bytes of the whole counter. */
  lemma HalvesAreTheWhole(n: nat)
    ensures BigEndian(n / 0x1_0000_0000, 4) + BigEndian(n % 0x1_0000_0000, 4) == BigEndian(n, 8)
  {
    hide BigEndian;
    var (q, m) := (n / 0x1_0000_0000, n % 0x1_0000_0000);
    FourBytes(m);
    LowFour(n);
    BytesOfLowHalf(q, m);
    assert n == q * 0x1_0000_0000 + m;
  }

  method WriteUInt32BE(buffer: array<nat>, value: nat, offset: nat)
    requires value < 0x1_0000_0000 && offset + 4 <= buffer.Length
    modifies buffer
    ensures buffer[..] == old(buffer[..offset]) + BigEndian(value, 4) + old(buffer[offset + 4..])
  {
    FourBytes(value);
    buffer[offset] := value / 0x100_0000 % 256;
    buffer[offset + 1] := value / 0x1_0000 % 256;
    buffer[offset + 2] := value / 256 % 256;
    buffer[offset + 3] := value % 256;
  }

  method CounterBuffer(counter: nat) returns (buffer: array<nat>)
    requires counter <= MAX_SAFE_INTEGER
    ensures fresh(buffer) && buffer[..] == BigEndian(counter, 8)
  {
    buffer := new nat[8];
    var hi := counter / 0x1_0000_0000;
    var lo := counter % 0x1_0000_0000;
    WriteUInt32BE(buffer, hi, 0);
    ghost var high := buffer[..];
    assert high[..4] == BigEndian(hi, 4);
    WriteUInt32BE(buffer, lo, 4);
    assert buffer[..] == BigEndian(hi, 4) + BigEndian(lo, 4);
    HalvesAreTheWhole(counter);
  }

  lemma EightBytesSuffice()
    ensures MAX_SAFE_INTEGER < BigEndianLimit(8)
  {
    assert BigEndianLimit(4) == 0x1_0000_0000;
    assert BigEndianLimit(8) == 0x1_0000_0000 * BigEndianLimit(4) by {
      assert BigEndianLimit(6) == 0x1_0000 * BigEndianLimit(4);
    }
  }

  /** Different counters never hash the same message. */
  lemma CounterBytesDetermine(m: nat, n: nat)
    requires m <= MAX_SAFE_INTEGER && n <= MAX_SAFE_INTEGER
    requires BigEndian(m, 8) == BigEndian(n, 8)
    ensures m == n
  {
    EightBytesSuffice();
    BigEndianReadsBack(m, 8);
    BigEndianReadsBack(n, 8);
  }

  // ---- dynamic truncation ----

  function FourByteNumber(a: nat, b: nat, c: nat, d: nat): (n: nat)
    ensures a < 128 && b < 256 && c < 256 && d < 256 ==> n < 0x8000_0000
  {
    ((a * 256 + b) * 256 + c) * 256 + d
  }

  /** The four bytes at the offset, as a number below 2^31. */
  function Truncated(d: Digest): (n: nat)
    ensures n < 0x8000_0000
  {
    var offset: nat := d[19] % 16;
    FourByteNumber(d[offset] % 128, d[offset + 1], d[offset + 2], d[offset + 3])
  }

  /** Filling empty low bits with `|` is addition. */
  lemma {:induction false} OrAdds(x: nat, low: nat, k: nat)
    requires Fits(low, k)
    ensures Or(Doubled(x, k), low) == Doubled(x, k) + low
    decreases k
  {
    if k > 0 {
      OrAdds(x, low / 2, k - 1);
    }
  }

  lemma DoubledByte(v: nat)
    ensures Doubled(v, 8) == 256 * v
  {
    DoubledTwo(v);
    DoubledTwo(4 * v);
    DoubledTwo(16 * v);
    DoubledTwo(64 * v);
    DoubledTwice(v, 2, 2);
    DoubledTwice(v, 4, 2);
    DoubledTwice(v, 6, 2);
  }

  lemma Doublings(v: nat)
    ensures Doubled(v, 16) == 0x1_0000 * v
    ensures Doubled(v, 24) == 0x100_0000 * v
  {
    DoubledByte(v);
    DoubledByte(256 * v);
    DoubledByte(0x1_0000 * v);
    DoubledTwice(v, 8, 8);
    DoubledTwice(v, 16, 8);
  }

  lemma {:induction false} OnesSum(j: nat, k: nat)
    ensures Ones(j + k) == Doubled(Ones(j), k) + Ones(k)
  {
    if k > 0 {
      OnesSum(j, k - 1);
    }
  }

  lemma OnesByte(j: nat)
    ensures Ones(j + 8) == 256 * Ones(j) + Ones(8)
  {
    hide Ones, Doubled;
    OnesSum(j, 8);
    DoubledByte(Ones(j));
  }

  lemma OnesEight()
    ensures Ones(8) == 0xff
  {
    assert Ones(4) == 15;
  }

  lemma OnesOf()
    ensures Ones(8) == 0xff && Ones(16) == 0xffff && Ones(24) == 0xff_ffff && Ones(32) == 0xffff_ffff
  {
    OnesEight();
    hide Ones;
    OnesByte(8);
    OnesByte(16);
    OnesByte(24);
  }

  lemma OnesSmall()
    ensures Ones(4) == 15 && Ones(7) == 127
  {
  }

  lemma {:induction false} LowOfSum(q: nat, r: nat, k: nat)
    requires Fits(r, k)
    ensures Low(Doubled(q, k) + r, k) == r
    decreases k
  {
    if k > 0 {
      LowOfSum(q, r / 2, k - 1);
    }
  }

  lemma DoubledFourSeven(q: nat)
    ensures Doubled(q, 4) == 16 * q && Doubled(q, 7) == 128 * q
  {
    DoubledTwo(q);
    DoubledTwo(4 * q);
    DoubledTwo(16 * q);
    DoubledTwice(q, 2, 2);
    DoubledTwice(q, 4, 2);
    DoubledTwice(q, 6, 1);
    assert Doubled(64 * q, 1) == 2 * Doubled(64 * q, 0);
  }

  lemma LowSeven(v: nat)
    ensures Low(v, 4) == v % 16 && Low(v, 7) == v % 128
  {
    hide Low, Fits, Doubled, Ones;
    OnesSmall();
    FitsIff(v % 16, 4);
    FitsIff(v % 128, 7);
    LowOfSum(v / 16, v % 16, 4);
    LowOfSum(v / 128, v % 128, 7);
    DoubledFourSeven(v / 16);
    DoubledFourSeven(v / 128);
  }

  lemma LowEight(v: byte)
    ensures Low(v, 8) == v
  {
    hide Low, Ones;
    OnesOf();
    FitsIff(v, 8);
  }

  lemma Masks(v: byte)
    ensures And(v, 0x0f) == v % 16
    ensures And(v, 0x7f) == v % 128
    ensures And(v, 0xff) == v
  {
    hide Low, Fits, Doubled, Ones;
    OnesSmall();
    OnesOf();
    AndOnes(v, 4);
    AndOnes(v, 7);
    AndOnes(v, 8);
    FitsIff(v, 8);
    LowSeven(v);
    LowEight(v);
  }

  lemma ShlKeeps(v: nat, k: nat)
    requires v < 256 && (k == 8 || k == 16 || (k == 24 && v < 128))
    ensures Shl(v, k) == Doubled(v, k)
  {
    hide Or, Low, Doubled, Ones;
    OnesOf();
    Doublings(v);
    DoubledByte(v);
    FitsIff(Doubled(v, k), 32);
  }

  /** The shifts and ors of the code are the arithmetic of `Truncated`. */
  lemma ShiftsAreArithmetic(a: nat, b: nat, c: nat, d: nat)
    requires a < 128 && b < 256 && c < 256 && d < 256
    ensures Or(Or(Or(Shl(a, 24), Shl(b, 16)), Shl(c, 8)), d) == FourByteNumber(a, b, c, d)
  {
    hide Or, Low, Fits, Doubled, Ones;
    OnesOf();
    ShlKeeps(a, 24);
    ShlKeeps(b, 16);
    ShlKeeps(c, 8);
    Doublings(a);
    Doublings(b);
    DoubledByte(c);
    FitsIff(Doubled(b, 16), 24);
    OrAdds(a, Doubled(b, 16), 24);
    var ab := a * 256 + b;
    Doublings(ab);
    FitsIff(Doubled(c, 8), 16);
    OrAdds(ab, Doubled(c, 8), 16);
    var abc := ab * 256 + c;
    DoubledByte(abc);
    FitsIff(d, 8);
    OrAdds(abc, d, 8);
  }

  method Truncate(hmac: Digest) returns (truncated: nat)
    ensures truncated == Truncated(hmac)
  {
    hide Or, Shl, And, FourByteNumber;
    Masks(hmac[|hmac| - 1]);
    var offset := And(hmac[|hmac| - 1], 0x0f);
    Masks(hmac[offset]);
    Masks(hmac[offset + 1]);
    Masks(hmac[offset + 2]);
    ShiftsAreArithmetic(hmac[offset] % 128, hmac[offset + 1], hmac[offset + 2], hmac[offset + 3]);
    truncated := Or(Or(Or(
      Shl(And(hmac[offset], 0x7f), 24),
      Shl(And(hmac[offset + 1], 0xff), 16)),
      Shl(And(hmac[offset + 2], 0xff), 8)),
      hmac[offset + 3]);
  }

  // ---- codes ----

  function PadStart(s: string, width: nat, fill: char): (t: string)
    ensures |t| == if |s| < width then width else |s|
  {
    if |s| < width then seq(width - |s|, _ => fill) + s else s
  }

  function CodeOf(n: nat): string {
    PadStart(Decimal(n % 1_000_000), 6, '0')
  }

  predicate IsSixDigits(code: string) {
    |code| == 6 && AllDigits(code)
  }

  function Pow10(k: nat): nat {
    if k == 0 then 1 else 10 * Pow10(k - 1)
  }

  lemma {:induction false} DecimalLength(n: nat, k: nat)
    requires k >= 1 && n < Pow10(k)
    ensures |Decimal(n)| <= k
    decreases k
  {
    assert Pow10(1) == 10;
    if n >= 10 && k > 1 {
      DecimalLength(n / 10, k - 1);
    }
  }

  lemma {:induction false} LeadingZeros(zeros: string, s: string)
    requires forall i :: 0 <= i < |zeros| ==> zeros[i] == '0'
    requires AllDigits(s)
    ensures AllDigits(zeros + s) && DecimalValue(zeros + s) == DecimalValue(s)
    decreases |zeros| + |s|
  {
    var t := zeros + s;
    if s != [] {
      assert t[..|t| - 1] == zeros + s[..|s| - 1];
      LeadingZeros(zeros, s[..|s| - 1]);
    } else if zeros != [] {
      assert t == zeros && t[..|t| - 1] == zeros[..|zeros| - 1] + [];
      LeadingZeros(zeros[..|zeros| - 1], []);
    }
  }

  /** Every code is exactly six digits, and they spell the truncated value modulo a million. */
  lemma CodeIsSixDigits(n: nat)
    ensures IsSixDigits(CodeOf(n)) && DecimalValue(CodeOf(n)) == n % 1_000_000
  {
    var s := Decimal(n % 1_000_000);
    assert Pow10(3) == 1000 && Pow10(6) == 1_000_000;
    DecimalLength(n % 1_000_000, 6);
    DecimalReadsBack(n % 1_000_000);
    LeadingZeros(seq(6 - |s|, _ => '0'), s);
  }

  function Hotp(secret: string, counter: int, hmac: Hmac): Result<string, HotpError> {
    match Base32.Decode(secret)
    case Err(e) => Err(BadSecret(e))
    case Ok(key) =>
      if |key| < MIN_SECRET_BYTES then Err(SecretTooShort(|key|))
      else if counter < 0 || counter > MAX_SAFE_INTEGER then Err(BadCounter(counter))
      else Ok(CodeOf(Truncated(hmac(key, BigEndian(counter, 8)))))
  }

  method GenerateHotp(secret: string, counter: int, hmac: Hmac) returns (r: Result<string, HotpError>)
    ensures r == Hotp(secret, counter, hmac)
  {
    var decoded := Base32.FromBase32(secret);
    if decoded.Err? {
      return Err(BadSecret(decoded.error));
    }
    var key := decoded.value;
    if |key| < MIN_SECRET_BYTES {
      return Err(SecretTooShort(|key|));
    }
    if counter < 0 || counter > MAX_SAFE_INTEGER {
      return Err(BadCounter(counter));
    }
    var buffer := CounterBuffer(counter);
    var digest := hmac(key, buffer[..]);
    var truncated := Truncate(digest);
    r := Ok(PadStart(Decimal(truncated % 1_000_000), 6, '0'));
  }

  // ---- the standard's own words ----

  lemma FourByteValue(bytes: seq<nat>)
    requires |bytes| == 4
    ensures BigEndianValue(bytes) == ((bytes[0] * 256 + bytes[1]) * 256 + bytes[2]) * 256 + bytes[3]
  {
    assert bytes[..3][..2] == bytes[..2] && bytes[..2][..1] == bytes[..1] && bytes[..1][..0] == [];
    assert BigEndianValue(bytes[..1]) == bytes[0];
    assert BigEndianValue(bytes[..2]) == bytes[0] * 256 + bytes[1];
    assert BigEndianValue(bytes[..3]) == (bytes[0] * 256 + bytes[1]) * 256 + bytes[2];
  }

  lemma TopBit(a: byte, rest: nat)
    requires rest < 0x100_0000
    ensures (a * 0x100_0000 + rest) % 0x8000_0000 == a % 128 * 0x100_0000 + rest
  {
    assert a == a / 128 * 128 + a % 128;
  }

  /** The offset is the low four bits of the last byte, and the bytes there are read without their sign. */
  lemma TruncatedIsTheStandards(d: Digest, q: nat, offset: nat)
    requires d[19] == 16 * q + offset && offset < 16
    ensures Truncated(d) == BigEndianValue(d[offset..offset + 4]) % 0x8000_0000
  {
    assert d[19] % 16 == offset;
    var a: byte, b: byte := d[offset], d[offset + 1];
    FourByteValue(d[offset..offset + 4]);
    TopBit(a, ((b * 256) + d[offset + 2]) * 256 + d[offset + 3]);
  }

  /** Eight bytes are the ones written for the number they spell. */
  lemma {:induction false} BytesOfValue(bytes: seq<nat>)
    requires forall i :: 0 <= i < |bytes| ==> bytes[i] < 256
    ensures BigEndian(BigEndianValue(bytes), |bytes|) == bytes
  {
    if bytes != [] {
      var init := bytes[..|bytes| - 1];
      BytesOfValue(init);
      var n := BigEndianValue(bytes);
      assert n / 256 == BigEndianValue(init) && n % 256 == bytes[|bytes| - 1];
    }
  }

  /**
   * A generated code end to end: six digits that read as the 31-bit number at the digest's offset
   * modulo a million, the digest being that of the decoded secret and of the eight bytes that
   * spell the counter.
   */
  lemma CodesAreTheStandards(secret: string, counter: nat, hmac: Hmac, key: seq<nat>, message: seq<nat>,
    q: nat, offset: nat)
    requires Base32.Decode(secret) == Ok(key) && |key| >= 20
    requires counter <= 0x1F_FFFF_FFFF_FFFF
    requires |message| == 8 && (forall i :: 0 <= i < 8 ==> message[i] < 256) && BigEndianValue(message) == counter
    requires hmac(key, message)[19] == 16 * q + offset && offset < 16
    ensures var r := Hotp(secret, counter, hmac);
      && r.Ok? && |r.value| == 6 && AllDigits(r.value)
      && DecimalValue(r.value) ==
           BigEndianValue(hmac(key, message)[offset..offset + 4]) % 0x8000_0000 % 1_000_000
  {
    hide Base32.Decode, Truncated, CodeOf, BigEndian, BigEndianValue;
    BytesOfValue(message);
    TruncatedIsTheStandards(hmac(key, message), q, offset);
    CodeIsSixDigits(Truncated(hmac(key, message)));
  }

  /** The example of section 5.4 of RFC 4226: the last byte 5a, 50ef7f19 at offset 10, the code 872921. */
  lemma StandardExample(d: Digest)
    requires d[19] == 0x5a && d[10] == 0x50 && d[11] == 0xef && d[12] == 0x7f && d[13] == 0x19
    ensures Truncated(d) == 0x50ef_7f19 && DecimalValue(CodeOf(Truncated(d))) == 872_921
  {
    hide CodeOf, DecimalValue;
    assert Truncated(d) == FourByteNumber(0x50 % 128, 0xef, 0x7f, 0x19) by {
      assert d[19] % 16 == 10;
    }
    CodeIsSixDigits(Truncated(d));
  }

  /** When there is a code: a secret of at least 160 bits and a counter a double can hold exactly. */
  lemma HotpIsOkIff(secret: string, counter: int, hmac: Hmac)
    ensures var key := Base32.Decode(secret);
      var r := Hotp(secret, counter, hmac);
      && (r.Ok? <==> key.Ok? && |key.value| >= 20 && 0 <= counter <= 9_007_199_254_740_991)
      && (r.Err? && r.error.BadSecret? <==> key.Err?)
      && (key.Ok? ==> (r == Err(SecretTooShort(|key.value|)) <==> |key.value| < 20))
      && (key.Ok? && |key.value| >= 20 ==>
            (r == Err(BadCounter(counter)) <==> counter < 0 || counter > 9_007_199_254_740_991))
  {
    hide Base32.Decode, CodeOf, Truncated, BigEndian;
  }

  // ---- the window ----

  function Clamp(window: int): (e: int)
    ensures 0 <= e <= MAX_VERIFY_WINDOW
    ensures 0 <= window <= MAX_VERIFY_WINDOW ==> e == window
  {
    var low := if window > 0 then window else 0;
    if low < MAX_VERIFY_WINDOW then low else MAX_VERIFY_WINDOW
  }

  function StepAt(nowMs: nat): nat {
    nowMs / (1000 * TOTP_STEP_SECONDS)
  }

  /** The code of `step` is among those compared at `nowMs`. */
  predicate IsEnumerated(step: int, nowMs: nat, window: int) {
    StepAt(nowMs) - Clamp(window) <= step <= StepAt(nowMs) + Clamp(window)
  }

  ghost predicate Accepts(secret: string, code: string, window: int, nowMs: nat, hmac: Hmac) {
    exists step :: IsEnumerated(step, nowMs, window) && Hotp(secret, step, hmac) == Ok(code)
  }

  /** Once the first step of the window has a code, so has every other. */
  lemma LaterStepsFailAlike(secret: string, first: int, later: int, hmac: Hmac)
    requires first <= later <= MAX_SAFE_INTEGER
    ensures Hotp(secret, first, hmac).Ok? ==> Hotp(secret, later, hmac).Ok?
  {
    hide Base32.Decode, CodeOf, Truncated, BigEndian;
  }

  function FirstStep(nowMs: nat, window: int): int {
    StepAt(nowMs) - Clamp(window)
  }

  /**
   * The answer for a code: nothing but six digits is looked at; an unusable secret (or a clock
   * so early that the window starts before step 0) is an error; otherwise the code is accepted
   * exactly when some step of the window has it.
   */
  ghost predicate IsVerdict(secret: string, code: string, window: int, nowMs: nat, hmac: Hmac,
    r: Result<bool, HotpError>)
  {
    if !IsSixDigits(code) then r == Ok(false)
    else
      match Hotp(secret, FirstStep(nowMs, window), hmac)
      case Err(e) => r == Err(e)
      case Ok(_) => r.Ok? && (r.value <==> Accepts(secret, code, window, nowMs, hmac))
  }

  ghost predicate NoneBefore(secret: string, code: string, first: int, next: int, hmac: Hmac) {
    forall s :: first <= s < next ==> Hotp(secret, s, hmac) != Ok(code)
  }

  lemma MatchIsAccepted(secret: string, code: string, window: int, nowMs: nat, hmac: Hmac, step: int)
    requires IsEnumerated(step, nowMs, window) && Hotp(secret, step, hmac) == Ok(code)
    requires Hotp(secret, FirstStep(nowMs, window), hmac).Ok? && IsSixDigits(code)
    ensures IsVerdict(secret, code, window, nowMs, hmac, Ok(true))
  {
    hide Hotp, IsSixDigits;
  }

  lemma NothingMatches(secret: string, code: string, window: int, nowMs: nat, hmac: Hmac)
    requires NoneBefore(secret, code, FirstStep(nowMs, window), StepAt(nowMs) + Clamp(window) + 1, hmac)
    requires Hotp(secret, FirstStep(nowMs, window), hmac).Ok? && IsSixDigits(code)
    ensures IsVerdict(secret, code, window, nowMs, hmac, Ok(false))
  {
    hide Hotp, IsSixDigits;
  }

  lemma FailureIsReported(secret: string, code: string, window: int, nowMs: nat, hmac: Hmac)
    requires Hotp(secret, FirstStep(nowMs, window), hmac).Err? && IsSixDigits(code)
    ensures IsVerdict(secret, code, window, nowMs, hmac, Err(Hotp(secret, FirstStep(nowMs, window), hmac).error))
  {
    hide Hotp, IsSixDigits;
  }

  lemma BadFormatIsRefused(secret: string, code: string, window: int, nowMs: nat, hmac: Hmac)
    requires !IsSixDigits(code)
    ensures IsVerdict(secret, code, window, nowMs, hmac, Ok(false))
  {
  }

  lemma NothingTried(secret: string, code: string, first: int, hmac: Hmac)
    ensures NoneBefore(secret, code, first, first, hmac)
  {
  }

  lemma OneMoreTried(secret: string, code: string, first: int, next: int, hmac: Hmac)
    requires NoneBefore(secret, code, first, next, hmac) && Hotp(secret, next, hmac) != Ok(code)
    ensures NoneBefore(secret, code, first, next + 1, hmac)
  {
    hide Hotp;
  }

  method VerifyTotp(secret: string, code: string, window: int, nowMs: nat, hmac: Hmac)
    returns (r: Result<bool, HotpError>)
    requires nowMs <= MAX_SAFE_INTEGER
    ensures IsVerdict(secret, code, window, nowMs, hmac, r)
  {
    hide Hotp, IsSixDigits, IsVerdict, NoneBefore;
    if !IsSixDigits(code) {
      BadFormatIsRefused(secret, code, window, nowMs, hmac);
      return Ok(false);
    }
    var currentStep := StepAt(nowMs);
    var effective := Clamp(window);
    ghost var first := FirstStep(nowMs, window);
    var delta := -effective;
    NothingTried(secret, code, first, hmac);
    while delta <= effective
      invariant -effective <= delta <= effective + 1
      invariant delta > -effective ==> Hotp(secret, first, hmac).Ok?
      invariant NoneBefore(secret, code, first, currentStep + delta, hmac)
    {
      var expected := GenerateHotp(secret, currentStep + delta, hmac);
      LaterStepsFailAlike(secret, first, currentStep + delta, hmac);
      if expected.Err? {
        FailureIsReported(secret, code, window, nowMs, hmac);
        return Err(expected.error);
      }
      if expected.value == code {
        MatchIsAccepted(secret, code, window, nowMs, hmac, currentStep + delta);
        return Ok(true);
      }
      OneMoreTried(secret, code, first, currentStep + delta, hmac);
      delta := delta + 1;
    }
    NothingMatches(secret, code, window, nowMs, hmac);
    return Ok(false);
  }

  /** A string that is not six digits is nobody's code, so the format check refuses nothing else. */
  lemma FormatCheckIsRedundant(secret: string, code: string, window: int, nowMs: nat, hmac: Hmac)
    requires Accepts(secret, code, window, nowMs, hmac)
    ensures IsSixDigits(code)
  {
    hide Base32.Decode, CodeOf, Truncated;
    var step :| IsEnumerated(step, nowMs, window) && Hotp(secret, step, hmac) == Ok(code);
    var key := Base32.Decode(secret).value;
    CodeIsSixDigits(Truncated(hmac(key, BigEndian(step, 8))));
  }

  /** The window that counts: none below zero, two at most. */
  function Effective(window: int): int {
    if window < 0 then 0 else if window > 2 then 2 else window
  }

  /**
   * A step's code is compared during an interval of exactly `(2e + 1) * 30` seconds, which is the
   * time a used code has to be remembered.
   */
  lemma EnumeratedDuring(step: int, nowMs: nat, window: int)
    ensures var e := Effective(window);
      IsEnumerated(step, nowMs, window) <==>
        (step - e) * 30_000 <= nowMs < (step - e) * 30_000 + (2 * e + 1) * 30_000
  {
  }

  /** A code remembered for that long is not compared again; a shorter memory would let it back in. */
  lemma ReplayMemoryIsExact(step: nat, window: int, memoryMs: nat)
    requires step >= Effective(window)
    ensures (forall used: nat, again: nat ::
        IsEnumerated(step, used, window) && IsEnumerated(step, again, window) ==> again - used < memoryMs)
      <==> memoryMs >= (2 * Effective(window) + 1) * 30_000
  {
    var e := Effective(window);
    var (first, span) := ((step - e) * 30_000, (2 * e + 1) * 30_000);
    forall t: nat ensures IsEnumerated(step, t, window) <==> first <= t < first + span {
      EnumeratedDuring(step, t, window);
    }
    assert IsEnumerated(step, first, window) && IsEnumerated(step, first + span - 1, window);
  }
}
