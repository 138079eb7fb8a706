/** Base32 (section 6 of RFC 4648) with a 32-bit accumulator that silently wraps. */
module Base32 {
  import opened Strings
  import opened Words

  type byte = n: nat | n < 256

  const BASE32_ALPHABET := "ABCDEFGHIJKLMNOPQRSTUVWXYZ234567"

  /** The alphabet in closed form: twenty-six letters, then the digits two to seven. */
  function CharOf(i: nat): char
    requires i < 32
  {
    if i < 26 then 'A' + i as char else '2' + (i - 26) as char
  }

  predicate InAlphabet(c: char) {
    'A' <= c <= 'Z' || '2' <= c <= '7'
  }

  function ValueOf(c: char): (i: nat)
    requires InAlphabet(c)
    ensures i < 32 && CharOf(i) == c
  {
    if 'A' <= c <= 'Z' then (c - 'A') as nat else 26 + (c - '2') as nat
  }

  lemma AlphabetSpelledOut(i: nat)
    requires i < 32
    ensures BASE32_ALPHABET[i] == CharOf(i)
  {
  }

  lemma AlphabetIndex(c: char)
    ensures IndexOf(BASE32_ALPHABET, c) < 32 <==> InAlphabet(c)
    ensures InAlphabet(c) ==> IndexOf(BASE32_ALPHABET, c) == ValueOf(c)
  {
    hide IndexOf;
    var k := IndexOf(BASE32_ALPHABET, c);
    assert |BASE32_ALPHABET| == 32;
    if k < 32 {
      AlphabetSpelledOut(k);
    }
    if InAlphabet(c) {
      var j := ValueOf(c);
      AlphabetSpelledOut(j);
      IndexOfIsFirst(BASE32_ALPHABET, c, j);
    }
  }

  datatype DecodeError = InvalidCharacter(c: char)

  // ---- the meaning: bit strings cut into fives and eights ----

  function ByteBits(bytes: seq<nat>): (b: Bits)
    ensures |b| == 8 * |bytes|
  {
    if bytes == [] then [] else BitsOf(bytes[0], 8) + ByteBits(bytes[1..])
  }

  function QuintetBits(quintets: seq<nat>): (b: Bits)
    ensures |b| == 5 * |quintets|
  {
    if quintets == [] then [] else BitsOf(quintets[0], 5) + QuintetBits(quintets[1..])
  }

  /** Fives, the last one filled with zeros on the right. */
  function Quintets(b: Bits): (q: seq<nat>)
    ensures forall i :: 0 <= i < |q| ==> Fits(q[i], 5)
    ensures |q| == (|b| + 4) / 5
    decreases |b|
  {
    if b == [] then []
    else if |b| < 5 then
      var last := b + Zeros(5 - |b|);
      BitsOfNumber(last);
      [Number(last)]
    else
      BitsOfNumber(b[..5]);
      [Number(b[..5])] + Quintets(b[5..])
  }

  /** Whole eights; what is left over is dropped. */
  function Octets(b: Bits): (o: seq<nat>)
    ensures forall i :: 0 <= i < |o| ==> Fits(o[i], 8)
    ensures |o| == |b| / 8
    decreases |b|
  {
    if |b| < 8 then []
    else
      BitsOfNumber(b[..8]);
      [Number(b[..8])] + Octets(b[8..])
  }

  lemma FitsFive(n: nat)
    ensures Fits(n, 5) <==> n < 32
  {
    FitsIff(n, 5);
  }

  lemma FitsEight(n: nat)
    ensures Fits(n, 8) <==> n < 256
  {
    FitsIff(n, 8);
  }

  function Spell(quintets: seq<nat>): (s: string)
    requires forall i :: 0 <= i < |quintets| ==> Fits(quintets[i], 5)
    ensures |s| == |quintets|
  {
    seq(|quintets|, i requires 0 <= i < |quintets| => FitsFive(quintets[i]); CharOf(quintets[i]))
  }

  function Encode(bytes: seq<byte>): string {
    Spell(Quintets(ByteBits(bytes)))
  }

  /** `toUpperCase` as far as it can produce alphabet characters; any other character stays invalid. */
  function Upper(c: char): string {
    if 'a' <= c <= 'z' then [c - 32 as char]
    else if c == '\U{0131}' then "I"
    else if c == '\U{017F}' then "S"
    else if c == '\U{00DF}' then "SS"
    else if c == '\U{FB00}' then "FF"
    else if c == '\U{FB01}' then "FI"
    else if c == '\U{FB02}' then "FL"
    else if c == '\U{FB03}' then "FFI"
    else if c == '\U{FB04}' then "FFL"
    else if c == '\U{FB05}' || c == '\U{FB06}' then "ST"
    else [c]
  }

  predicate IsSeparator(c: char) {
    IsSpace(c) || c == '=' || c == '-'
  }

  function UpperAll(s: string): string {
    if s == [] then [] else Upper(s[0]) + UpperAll(s[1..])
  }

  function Strip(s: string): string {
    if s == [] then [] else (if IsSeparator(s[0]) then [] else [s[0]]) + Strip(s[1..])
  }

  function Normalize(input: string): string {
    Strip(UpperAll(input))
  }

  predicate IsSpelled(s: string) {
    forall i :: 0 <= i < |s| ==> InAlphabet(s[i])
  }

  function Unspell(s: string): (q: seq<nat>)
    requires IsSpelled(s)
    ensures |q| == |s|
    ensures forall i :: 0 <= i < |q| ==> Fits(q[i], 5)
  {
    if s == [] then []
    else
      FitsFive(ValueOf(s[0]));
      [ValueOf(s[0])] + Unspell(s[1..])
  }

  function FirstInvalid(s: string): (k: nat)
    ensures k <= |s|
    ensures k < |s| ==> !InAlphabet(s[k])
    ensures IsSpelled(s[..k])
  {
    if s == [] || !InAlphabet(s[0]) then 0
    else
      var k := FirstInvalid(s[1..]);
      assert s[..k + 1] == [s[0]] + s[1..][..k];
      k + 1
  }

  function DecodeSpelling(s: string): Result<seq<nat>, DecodeError> {
    var k := FirstInvalid(s);
    if k < |s| then Err(InvalidCharacter(s[k]))
    else
      assert s[..k] == s;
      Ok(Octets(QuintetBits(Unspell(s))))
  }

  function Decode(input: string): Result<seq<nat>, DecodeError> {
    DecodeSpelling(Normalize(input))
  }

  // ---- the code: one pass with a wrapping accumulator ----

  /** What was written, the pending bits and the unread input spell the whole input. */
  ghost predicate Encoding(input: seq<byte>, i: nat, quintets: seq<nat>, value: nat, bits: nat, output: string) {
    && i <= |input|
    && (forall j :: 0 <= j < |quintets| ==> Fits(quintets[j], 5))
    && output == Spell(quintets)
    && quintets + Quintets(BitsOf(value, bits) + ByteBits(input[i..])) == Quintets(ByteBits(input))
  }

  lemma EncodingStarts(input: seq<byte>)
    ensures Encoding(input, 0, [], 0, 0, "")
  {
    assert input[0..] == input;
    assert BitsOf(0, 0) + ByteBits(input) == ByteBits(input);
  }

  lemma EncodingReads(input: seq<byte>, i: nat, quintets: seq<nat>, value: nat, bits: nat, output: string)
    requires Encoding(input, i, quintets, value, bits, output)
    requires i < |input| && bits < 5 && Fits(input[i], 8)
    ensures Encoding(input, i + 1, quintets, Or(Shl(value, 8), input[i]), bits + 8, output)
  {
    hide BitsOf, Quintets, Or, Shl;
    ShiftIn(value, input[i], 8, bits);
    assert input[i..][1..] == input[i + 1..] && input[i..][0] == input[i];
    var (a, b, c) := (BitsOf(value, bits), BitsOf(input[i], 8), ByteBits(input[i + 1..]));
    assert ByteBits(input[i..]) == b + c;
    assert a + (b + c) == a + b + c;
  }

  lemma OnesAre()
    ensures Ones(5) == 0x1f && Ones(8) == 0xff
  {
  }

  lemma SpellMore(quintets: seq<nat>, q: nat)
    requires forall j :: 0 <= j < |quintets| ==> Fits(quintets[j], 5)
    requires Fits(q, 5)
    ensures q < 32 && Spell(quintets + [q]) == Spell(quintets) + [CharOf(q)]
  {
    FitsFive(q);
  }

  lemma HeadQuintet(q: nat, rest: Bits)
    requires Fits(q, 5)
    ensures Quintets(BitsOf(q, 5) + rest) == [q] + Quintets(rest)
  {
    var b := BitsOf(q, 5) + rest;
    assert b[..5] == BitsOf(q, 5) && b[5..] == rest;
    NumberOfBits(q, 5);
  }

  lemma EncodingEmits(input: seq<byte>, i: nat, quintets: seq<nat>, value: nat, bits: nat, output: string)
    requires Encoding(input, i, quintets, value, bits + 5, output)
    ensures var q := And(Shr(value, bits), 0x1f);
      q < 32 && Encoding(input, i, quintets + [q], value, bits, output + [CharOf(q)])
  {
    hide Quintets;
    hide BitsOf, And, Shr, Spell, Low;
    var q := And(Shr(value, bits), 0x1f);
    OnesAre();
    ReadOut(value, bits, 5);
    SpellMore(quintets, q);
    var (a, b, c) := (BitsOf(q, 5), BitsOf(value, bits), ByteBits(input[i..]));
    assert a + b + c == a + (b + c);
    HeadQuintet(q, b + c);
    assert quintets + ([q] + Quintets(b + c)) == quintets + [q] + Quintets(b + c);
  }

  lemma LastQuintet(b: Bits, q: nat)
    requires 0 < |b| < 5 && Fits(q, 5) && BitsOf(q, 5) == b + Zeros(5 - |b|)
    ensures Quintets(b) == [q]
  {
    NumberOfBits(q, 5);
  }

  lemma EncodingPads(input: seq<byte>, quintets: seq<nat>, value: nat, bits: nat, output: string)
    requires Encoding(input, |input|, quintets, value, bits, output) && 0 < bits < 5
    ensures var q := And(Shl(value, 5 - bits), 0x1f);
      q < 32 && output + [CharOf(q)] == Encode(input)
  {
    hide And, Shl, Low, Spell, BitsOf;
    var q := And(Shl(value, 5 - bits), 0x1f);
    OnesAre();
    PadOut(value, 5 - bits, 5);
    SpellMore(quintets, q);
    var b := BitsOf(value, bits);
    assert b + ByteBits(input[|input|..]) == b;
    LastQuintet(b, q);
  }

  lemma EncodingEnds(input: seq<byte>, quintets: seq<nat>, value: nat, output: string)
    requires Encoding(input, |input|, quintets, value, 0, output)
    ensures output == Encode(input)
  {
    assert BitsOf(value, 0) + ByteBits(input[|input|..]) == [];
    assert quintets + [] == quintets;
  }

  method ToBase32(input: seq<byte>) returns (output: string)
    ensures output == Encode(input)
  {
    var bits, value := 0, 0;
    ghost var quintets: seq<nat> := [];
    output := "";
    EncodingStarts(input);
    for i := 0 to |input|
      invariant bits < 5
      invariant Encoding(input, i, quintets, value, bits, output)
    {
      FitsEight(input[i]);
      EncodingReads(input, i, quintets, value, bits, output);
      value := Or(Shl(value, 8), input[i]);
      bits := bits + 8;
      while bits >= 5
        invariant bits < 13
        invariant Encoding(input, i + 1, quintets, value, bits, output)
      {
        bits := bits - 5;
        var index := And(Shr(value, bits), 0x1f);
        EncodingEmits(input, i + 1, quintets, value, bits, output);
        AlphabetSpelledOut(index);
        output := output + [BASE32_ALPHABET[index]];
        quintets := quintets + [index];
      }
    }
    if bits > 0 {
      var index := And(Shl(value, 5 - bits), 0x1f);
      EncodingPads(input, quintets, value, bits, output);
      AlphabetSpelledOut(index);
      output := output + [BASE32_ALPHABET[index]];
    } else {
      EncodingEnds(input, quintets, value, output);
    }
  }

  /** What was written and the pending bits spell the characters read so far. */
  ghost predicate Decoding(read: string, output: seq<nat>, value: nat, bits: nat)
    requires IsSpelled(read)
  {
    && (forall j :: 0 <= j < |output| ==> Fits(output[j], 8))
    && ByteBits(output) + BitsOf(value, bits) == QuintetBits(Unspell(read))
  }

  lemma DecodingStarts()
    ensures Decoding("", [], 0, 0)
  {
  }

  lemma {:induction false} UnspellMore(s: string, c: char)
    requires IsSpelled(s) && InAlphabet(c)
    ensures IsSpelled(s + [c])
    ensures Unspell(s + [c]) == Unspell(s) + [ValueOf(c)]
  {
    if s == [] {
      assert s + [c] == [c];
    } else {
      assert (s + [c])[1..] == s[1..] + [c];
      UnspellMore(s[1..], c);
    }
  }

  lemma {:induction false} QuintetBitsMore(q: seq<nat>, x: nat)
    ensures QuintetBits(q + [x]) == QuintetBits(q) + BitsOf(x, 5)
  {
    if q == [] {
      assert q + [x] == [x];
    } else {
      assert (q + [x])[1..] == q[1..] + [x];
      QuintetBitsMore(q[1..], x);
    }
  }

  lemma DecodingReads(read: string, c: char, output: seq<nat>, value: nat, bits: nat)
    requires IsSpelled(read) && InAlphabet(c) && bits < 8
    requires Decoding(read, output, value, bits)
    ensures IsSpelled(read + [c])
    ensures Decoding(read + [c], output, Or(Shl(value, 5), ValueOf(c)), bits + 5)
  {
    hide Or, Shl, BitsOf, Low, Fits, QuintetBits;
    var idx := ValueOf(c);
    FitsFive(idx);
    UnspellMore(read, c);
    QuintetBitsMore(Unspell(read), idx);
    ShiftIn(value, idx, 5, bits);
    var (a, b, d) := (ByteBits(output), BitsOf(value, bits), BitsOf(idx, 5));
    assert a + b + d == a + (b + d);
  }

  lemma {:induction false} ByteBitsMore(bytes: seq<nat>, x: nat)
    ensures ByteBits(bytes + [x]) == ByteBits(bytes) + BitsOf(x, 8)
  {
    if bytes == [] {
      assert bytes + [x] == [x];
    } else {
      assert (bytes + [x])[1..] == bytes[1..] + [x];
      ByteBitsMore(bytes[1..], x);
    }
  }

  lemma DecodingEmits(read: string, output: seq<nat>, value: nat, bits: nat)
    requires IsSpelled(read)
    requires Decoding(read, output, value, bits + 8)
    ensures Decoding(read, output + [And(Shr(value, bits), 0xff)], value, bits)
  {
    hide BitsOf, And, Shr, Unspell, QuintetBits;
    var x := And(Shr(value, bits), 0xff);
    OnesAre();
    ReadOut(value, bits, 8);
    ByteBitsMore(output, x);
    var (a, b, d) := (ByteBits(output), BitsOf(x, 8), BitsOf(value, bits));
    assert a + (b + d) == a + b + d;
  }

  /** Cutting the bits of whole bytes and a short remainder gives the bytes back. */
  lemma {:induction false} OctetsOfBytes(bytes: seq<nat>, rest: Bits)
    requires forall j :: 0 <= j < |bytes| ==> Fits(bytes[j], 8)
    requires |rest| < 8
    ensures Octets(ByteBits(bytes) + rest) == bytes
  {
    var b := ByteBits(bytes) + rest;
    if bytes != [] {
      assert b == BitsOf(bytes[0], 8) + (ByteBits(bytes[1..]) + rest);
      assert b[..8] == BitsOf(bytes[0], 8) && b[8..] == ByteBits(bytes[1..]) + rest;
      NumberOfBits(bytes[0], 8);
      OctetsOfBytes(bytes[1..], rest);
    }
  }

  lemma DecodingEnds(s: string, output: seq<nat>, value: nat, bits: nat)
    requires IsSpelled(s) && bits < 8
    requires Decoding(s, output, value, bits)
    ensures FirstInvalid(s) == |s|
    ensures output == Octets(QuintetBits(Unspell(s)))
  {
    OctetsOfBytes(output, BitsOf(value, bits));
  }

  lemma InvalidIsFirst(s: string, i: nat)
    requires i < |s| && IsSpelled(s[..i])
    ensures !InAlphabet(s[i]) ==> FirstInvalid(s) == i
  {
    hide InAlphabet;
    var k := FirstInvalid(s);
    assert forall j :: 0 <= j < i ==> InAlphabet(s[j]) by {
      assert forall j :: 0 <= j < i ==> s[..i][j] == s[j];
    }
    assert forall j :: 0 <= j < k ==> InAlphabet(s[j]) by {
      assert forall j :: 0 <= j < k ==> s[..k][j] == s[j];
    }
  }

  method FromBase32(input: string) returns (r: Result<seq<nat>, DecodeError>)
    ensures r == Decode(input)
  {
    hide IndexOf, Normalize, Decoding, Or, And, Shl, Shr, Octets, QuintetBits, Unspell;
    var normalized := Normalize(input);
    var bits, value := 0, 0;
    var output: seq<nat> := [];
    DecodingStarts();
    assert normalized[..0] == "";
    for i := 0 to |normalized|
      invariant bits < 8
      invariant IsSpelled(normalized[..i])
      invariant Decoding(normalized[..i], output, value, bits)
    {
      var idx := IndexOf(BASE32_ALPHABET, normalized[i]);
      AlphabetIndex(normalized[i]);
      InvalidIsFirst(normalized, i);
      if idx == |BASE32_ALPHABET| {
        return Err(InvalidCharacter(normalized[i]));
      }
      assert normalized[..i + 1] == normalized[..i] + [normalized[i]];
      DecodingReads(normalized[..i], normalized[i], output, value, bits);
      value := Or(Shl(value, 5), idx);
      bits := bits + 5;
      if bits >= 8 {
        bits := bits - 8;
        DecodingEmits(normalized[..i + 1], output, value, bits);
        output := output + [And(Shr(value, bits), 0xff)];
      }
    }
    assert normalized[..|normalized|] == normalized;
    DecodingEnds(normalized, output, value, bits);
    return Ok(output);
  }

  // ---- round trips ----

  /** Reading the fives back gives the bits, filled up to a multiple of five. */
  lemma {:induction false} QuintetsReadBack(b: Bits)
    ensures QuintetBits(Quintets(b)) == b + Zeros(5 * |Quintets(b)| - |b|)
    decreases |b|
  {
    if b == [] {
    } else if |b| < 5 {
      var last := b + Zeros(5 - |b|);
      BitsOfNumber(last);
      assert QuintetBits([Number(last)]) == BitsOf(Number(last), 5) + QuintetBits([]);
    } else {
      QuintetsReadBack(b[5..]);
      BitsOfNumber(b[..5]);
      var q := Quintets(b[5..]);
      assert ([Number(b[..5])] + q)[1..] == q;
      var z := Zeros(5 * |q| - |b[5..]|);
      assert b[..5] + (b[5..] + z) == b + z;
    }
  }

  lemma {:induction false} OctetsReadBack(b: Bits)
    ensures ByteBits(Octets(b)) == b[..8 * |Octets(b)|]
    decreases |b|
  {
    if |b| >= 8 {
      OctetsReadBack(b[8..]);
      BitsOfNumber(b[..8]);
      var o := Octets(b[8..]);
      assert ([Number(b[..8])] + o)[1..] == o;
      assert b[..8] + b[8..][..8 * |o|] == b[..8 * (|o| + 1)];
    }
  }

  lemma {:induction false} QuintetBitsDetermine(p: seq<nat>, q: seq<nat>)
    requires forall i :: 0 <= i < |p| ==> Fits(p[i], 5)
    requires forall i :: 0 <= i < |q| ==> Fits(q[i], 5)
    requires QuintetBits(p) == QuintetBits(q)
    ensures p == q
  {
    if p != [] && q != [] {
      var (a, b) := (QuintetBits(p), QuintetBits(q));
      assert a[..5] == BitsOf(p[0], 5) && b[..5] == BitsOf(q[0], 5);
      assert a[5..] == QuintetBits(p[1..]) && b[5..] == QuintetBits(q[1..]);
      BitsDetermine(p[0], q[0], 5);
      QuintetBitsDetermine(p[1..], q[1..]);
    }
  }

  lemma {:induction false} UnspellInvertsSpell(q: seq<nat>)
    requires forall i :: 0 <= i < |q| ==> Fits(q[i], 5)
    ensures IsSpelled(Spell(q)) && Unspell(Spell(q)) == q
  {
    if q != [] {
      FitsFive(q[0]);
      UnspellInvertsSpell(q[1..]);
      assert Spell(q)[1..] == Spell(q[1..]);
      assert InAlphabet(Spell(q)[0]);
      assert Spell(q) == [Spell(q)[0]] + Spell(q[1..]);
    }
  }

  lemma {:induction false} SpellInvertsUnspell(s: string)
    requires IsSpelled(s)
    ensures Spell(Unspell(s)) == s
  {
    if s != [] {
      SpellInvertsUnspell(s[1..]);
      var q := Unspell(s);
      assert InAlphabet(s[0]);
      assert q[1..] == Unspell(s[1..]);
      assert Spell(q) == [CharOf(q[0])] + Spell(q[1..]);
    }
  }

  lemma SpelledCharsAreUpper(c: char)
    requires InAlphabet(c)
    ensures Upper(c) == [c] && !IsSeparator(c)
  {
  }

  lemma {:induction false} SpelledIsNormal(s: string)
    requires IsSpelled(s)
    ensures Normalize(s) == s
  {
    hide Upper, IsSeparator, InAlphabet;
    if s != [] {
      SpelledCharsAreUpper(s[0]);
      SpelledIsNormal(s[1..]);
      assert UpperAll(s) == [s[0]] + UpperAll(s[1..]);
      assert UpperAll(s)[1..] == UpperAll(s[1..]);
    }
  }

  lemma SpelledIsDecoded(s: string)
    requires IsSpelled(s)
    ensures Decode(s) == Ok(Octets(QuintetBits(Unspell(s))))
  {
    hide InAlphabet, Octets, QuintetBits, Unspell;
    SpelledIsNormal(s);
  }

  /**
   * Every byte sequence, of any length, survives encoding and decoding, although the accumulator
   * keeps only its last thirty-two bits.
   */
  lemma DecodeInvertsEncode(bytes: seq<byte>)
    ensures Decode(Encode(bytes)) == Ok(bytes)
  {
    var b := ByteBits(bytes);
    var q := Quintets(b);
    UnspellInvertsSpell(q);
    SpelledIsDecoded(Encode(bytes));
    QuintetsReadBack(b);
    forall j | 0 <= j < |bytes| ensures Fits(bytes[j], 8) {
      FitsEight(bytes[j]);
    }
    hide Decode, Quintets, Fits, Spell;
    OctetsOfBytes(bytes, Zeros(5 * |q| - |b|));
  }

  /** The encoding has one character for each five bits begun. */
  lemma EncodedLength(bytes: seq<byte>)
    ensures |Encode(bytes)| == (8 * |bytes| + 4) / 5
  {
  }

  /** The bits a decoder drops: those beyond the last whole byte. */
  function Leftover(s: string): Bits
    requires IsSpelled(s)
  {
    var b := QuintetBits(Unspell(s));
    b[8 * (|b| / 8)..]
  }

  /** Fewer than five bits are dropped and all of them are zero. */
  predicate IsCanonical(s: string) {
    IsSpelled(s) && |Leftover(s)| < 5 && forall i :: 0 <= i < |Leftover(s)| ==> !Leftover(s)[i]
  }

  function Reencode(octets: seq<nat>): string {
    Spell(Quintets(ByteBits(octets)))
  }

  /** What re-encoding spells: the kept bits, padded. */
  lemma ReencodedBits(octets: seq<nat>)
    ensures var kept := ByteBits(octets);
      && IsSpelled(Reencode(octets))
      && exists k: nat :: k < 5 && QuintetBits(Unspell(Reencode(octets))) == kept + Zeros(k)
  {
    var kept := ByteBits(octets);
    var q := Quintets(kept);
    QuintetsReadBack(kept);
    UnspellInvertsSpell(q);
  }

  lemma SpellingDetermined(s: string, t: string)
    requires IsSpelled(s) && IsSpelled(t)
    ensures QuintetBits(Unspell(s)) == QuintetBits(Unspell(t)) <==> s == t
  {
    if QuintetBits(Unspell(s)) == QuintetBits(Unspell(t)) {
      QuintetBitsDetermine(Unspell(s), Unspell(t));
      SpellInvertsUnspell(s);
      SpellInvertsUnspell(t);
    }
  }

  lemma WholeFives(s: string, t: string, kept: nat, left: nat, k: nat)
    requires IsSpelled(s) && IsSpelled(t)
    requires |QuintetBits(Unspell(s))| == kept + left && |QuintetBits(Unspell(t))| == kept + k
    requires left < 5 && k < 5
    ensures left == k
  {
  }

  lemma ReencodeSpelledIff(s: string)
    requires IsSpelled(s)
    ensures Reencode(Octets(QuintetBits(Unspell(s)))) == s <==> IsCanonical(s)
  {
    hide IsSpelled, Quintets, Unspell, QuintetBits, Octets, Reencode, ByteBits;
    var b := QuintetBits(Unspell(s));
    var o := Octets(b);
    var (kept, left) := (ByteBits(o), Leftover(s));
    OctetsReadBack(b);
    assert b == kept + left;
    ReencodedBits(o);
    var k: nat :| k < 5 && QuintetBits(Unspell(Reencode(o))) == kept + Zeros(k);
    SpellingDetermined(Reencode(o), s);
    SamePrefix(kept, left, Zeros(k));
    if IsCanonical(s) {
      assert left == Zeros(|left|);
      WholeFives(s, Reencode(o), |kept|, |left|, k);
    }
  }

  /** Decoding and encoding again reproduces exactly the canonical spellings. */
  lemma EncodeInvertsDecodeIff(s: string)
    requires Decode(s).Ok?
    ensures Reencode(Decode(s).value) == s <==> IsCanonical(s)
  {
    if IsSpelled(s) {
      SpelledIsDecoded(s);
      ReencodeSpelledIff(s);
      hide Decode;
    } else {
      UnspellInvertsSpell(Quintets(ByteBits(Decode(s).value)));
    }
  }

  lemma {:induction false} UpperConcat(a: string, b: string)
    ensures UpperAll(a + b) == UpperAll(a) + UpperAll(b)
  {
    if a == [] {
      assert a + b == b;
    } else {
      assert (a + b)[1..] == a[1..] + b;
      UpperConcat(a[1..], b);
      hide Upper;
      assert Upper(a[0]) + (UpperAll(a[1..]) + UpperAll(b)) == Upper(a[0]) + UpperAll(a[1..]) + UpperAll(b);
    }
  }

  lemma {:induction false} StripConcat(a: string, b: string)
    ensures Strip(a + b) == Strip(a) + Strip(b)
  {
    if a == [] {
      assert a + b == b;
    } else {
      assert (a + b)[1..] == a[1..] + b;
      StripConcat(a[1..], b);
      hide IsSeparator;
    }
  }

  lemma SeparatorIsItsOwnUpper(c: char)
    requires IsSeparator(c)
    ensures UpperAll([c]) == [c] && Strip([c]) == []
  {
    assert [c][1..] == [] && Upper(c) == [c];
  }

  /** A separator anywhere makes no difference to what is decoded. */
  lemma SeparatorsAreIgnored(a: string, separator: char, b: string)
    requires IsSpace(separator) || separator == '=' || separator == '-'
    ensures Decode(a + [separator] + b) == Decode(a + b)
  {
    hide DecodeSpelling;
    SeparatorIsItsOwnUpper(separator);
    hide UpperAll, Strip, IsSeparator;
    UpperConcat(a + [separator], b);
    UpperConcat(a, [separator]);
    UpperConcat(a, b);
    StripConcat(UpperAll(a) + [separator], UpperAll(b));
    StripConcat(UpperAll(a), [separator]);
    StripConcat(UpperAll(a), UpperAll(b));
    assert Strip(UpperAll(a)) + [] == Strip(UpperAll(a));
  }

  lemma {:induction false} UpperOfLower(s: string)
    ensures UpperAll(AsciiLower(s)) == UpperAll(s)
  {
    if s != [] {
      UpperOfLower(s[1..]);
      assert AsciiLower(s) == [AsciiLowerChar(s[0])] + AsciiLower(s[1..]);
      assert AsciiLower(s)[1..] == AsciiLower(s[1..]);
    }
  }

  /** Nor does the case of the letters. */
  lemma CaseIsIgnored(s: string)
    ensures Decode(AsciiLower(s)) == Decode(s)
  {
    hide DecodeSpelling, Strip, AsciiLower;
    UpperOfLower(s);
  }

  /** Separators are white space, padding and hyphens, and nothing in the alphabet. */
  lemma SeparatorsSpelledOut(c: char)
    ensures IsSeparator(c) <==> IsSpace(c) || c == '=' || c == '-'
  {
  }

  /** A character the decoder takes: a separator, or one whose upper case is all in the alphabet. */
  predicate IsTaken(c: char) {
    IsSeparator(c) || IsSpelled(Upper(c))
  }

  lemma FirstInvalidIff(s: string)
    ensures FirstInvalid(s) == |s| <==> IsSpelled(s)
  {
    hide FirstInvalid;
    assert s[..|s|] == s;
    var k := FirstInvalid(s);
    assert k < |s| ==> !InAlphabet(s[k]);
  }

  lemma EmptyIsNormal()
    ensures Normalize("") == ""
  {
  }

  lemma SpelledConcat(a: string, b: string)
    ensures IsSpelled(a + b) <==> IsSpelled(a) && IsSpelled(b)
  {
    hide InAlphabet;
    assert forall i :: 0 <= i < |a| ==> (a + b)[i] == a[i];
    assert forall i :: 0 <= i < |b| ==> (a + b)[|a| + i] == b[i];
  }

  lemma UpperHasNoSeparator(c: char)
    requires !IsSeparator(c)
    ensures forall i :: 0 <= i < |Upper(c)| ==> !IsSeparator(Upper(c)[i])
  {
    if Upper(c) != [c] {
      assert forall i :: 0 <= i < |Upper(c)| ==> 'A' <= Upper(c)[i] <= 'Z';
      assert forall d: char :: 'A' <= d <= 'Z' ==> InAlphabet(d);
      forall i | 0 <= i < |Upper(c)| ensures !IsSeparator(Upper(c)[i]) {
        SpelledCharsAreUpper(Upper(c)[i]);
      }
    }
  }

  lemma {:induction false} StripNothing(s: string)
    requires forall i :: 0 <= i < |s| ==> !IsSeparator(s[i])
    ensures Strip(s) == s
  {
    hide IsSeparator;
    if s != "" {
      StripNothing(s[1..]);
    }
  }

  lemma OneCharacter(c: char)
    ensures IsSpelled(Strip(Upper(c))) <==> IsTaken(c)
  {
    if IsSeparator(c) {
      SeparatorIsItsOwnUpper(c);
      assert UpperAll([c]) == Upper(c) + UpperAll([c][1..]) == Upper(c);
    } else {
      UpperHasNoSeparator(c);
      StripNothing(Upper(c));
    }
  }

  lemma {:induction false} SpelledIff(s: string)
    ensures IsSpelled(Normalize(s)) <==> forall i :: 0 <= i < |s| ==> IsTaken(s[i])
  {
    hide Upper, IsSeparator, InAlphabet, Strip;
    if s == "" {
      EmptyIsNormal();
    } else {
      var rest := s[1..];
      SpelledIff(rest);
      StripConcat(Upper(s[0]), UpperAll(rest));
      OneCharacter(s[0]);
      SpelledConcat(Strip(Upper(s[0])), Normalize(rest));
      assert (forall i :: 0 <= i < |s| ==> IsTaken(s[i])) <==>
        IsTaken(s[0]) && forall i :: 0 <= i < |rest| ==> IsTaken(rest[i]) by {
        assert forall i :: 0 <= i < |rest| ==> rest[i] == s[i + 1];
        assert forall i :: 0 < i < |s| ==> s[i] == rest[i - 1];
      }
    }
  }

  /** Decoding fails exactly when some character is neither a separator nor spelled in upper case. */
  lemma DecodeFailsIff(s: string)
    ensures Decode(s).Err? <==> exists i :: 0 <= i < |s| && !IsTaken(s[i])
  {
    hide Normalize;
    hide Upper, IsSeparator, InAlphabet, Octets, QuintetBits, Unspell;
    SpelledIff(s);
    FirstInvalidIff(Normalize(s));
  }

  /** The ten characters, besides lower-case letters, that upper-casing turns into alphabet letters. */
  const OUTSIDERS: string := "\U{0131}\U{017F}\U{00DF}\U{FB00}\U{FB01}\U{FB02}\U{FB03}\U{FB04}\U{FB05}\U{FB06}"

  /**
   * The alphabet check runs after upper-casing: what is accepted beyond the alphabet, separators
   * and lower-case letters is ten characters.
   */
  lemma AcceptedOutsiders(c: char)
    requires !InAlphabet(c) && !IsSeparator(c) && !('a' <= c <= 'z')
    ensures IsTaken(c) <==> c in OUTSIDERS
  {
    hide IsSeparator;
    assert OUTSIDERS[0] == '\U{0131}' && OUTSIDERS[1] == '\U{017F}' && OUTSIDERS[2] == '\U{00DF}'
      && OUTSIDERS[3] == '\U{FB00}' && OUTSIDERS[4] == '\U{FB01}' && OUTSIDERS[5] == '\U{FB02}'
      && OUTSIDERS[6] == '\U{FB03}' && OUTSIDERS[7] == '\U{FB04}' && OUTSIDERS[8] == '\U{FB05}'
      && OUTSIDERS[9] == '\U{FB06}';
    assert Upper(c) == [c] ==> !InAlphabet(Upper(c)[0]);
  }

  lemma {:induction false} UpperOfSpelled(s: string)
    requires IsSpelled(s)
    ensures UpperAll(s) == s
  {
    hide Upper, InAlphabet, IsSeparator;
    if s != "" {
      SpelledCharsAreUpper(s[0]);
      UpperOfSpelled(s[1..]);
    }
  }

  lemma UpperTwice(c: char)
    ensures UpperAll([c]) == UpperAll(Upper(c))
  {
    assert [c][1..] == "" && UpperAll([c]) == Upper(c) + "" == Upper(c);
    var u := Upper(c);
    if u != [c] {
      assert IsSpelled(u);
      UpperOfSpelled(u);
    }
  }

  lemma SameUpperDecodesAlike(a: string, x: string, y: string, b: string)
    requires UpperAll(x) == UpperAll(y)
    ensures Decode(a + x + b) == Decode(a + y + b)
  {
    hide UpperAll, DecodeSpelling, Strip;
    UpperConcat(a + x, b);
    UpperConcat(a, x);
    UpperConcat(a + y, b);
    UpperConcat(a, y);
  }

  /** A character reads as its upper case, one letter or several, wherever it stands. */
  lemma CharactersReadAsUpperCase(a: string, c: char, b: string)
    ensures Decode(a + [c] + b) == Decode(a + Upper(c) + b)
  {
    UpperTwice(c);
    SameUpperDecodesAlike(a, [c], Upper(c), b);
  }
}
