/** The length-prefixed subject that every per-user store key is derived from. */
module UserSubject {
  import opened Strings

  /** A JavaScript string is a sequence of UTF-16 code units, surrogates paired or not. */
  type CodeUnit = n: nat | n < 0x1_0000
  type Text = seq<CodeUnit>

  datatype Plane = Dashboard | Platform

  predicate IsHigh(u: CodeUnit) {
    0xD800 <= u < 0xDC00
  }

  predicate IsLow(u: CodeUnit) {
    0xDC00 <= u < 0xE000
  }

  predicate StartsPair(s: Text) {
    |s| > 1 && IsHigh(s[0]) && IsLow(s[1])
  }

  /** The UTF-8 bytes of one code unit that is not half of a pair; a lone surrogate becomes U+FFFD. */
  function UnitBytes(u: CodeUnit): (b: seq<nat>)
    ensures 1 <= |b| <= 3
  {
    if u < 0x80 then [u]
    else if u < 0x800 then [0xC0 + u / 0x40, 0x80 + u % 0x40]
    else if IsHigh(u) || IsLow(u) then [0xEF, 0xBF, 0xBD]
    else [0xE0 + u / 0x1000, 0x80 + u / 0x40 % 0x40, 0x80 + u % 0x40]
  }

  function PairBytes(high: CodeUnit, low: CodeUnit): (b: seq<nat>)
    requires IsHigh(high) && IsLow(low)
    ensures |b| == 4
  {
    var point := 0x1_0000 + (high - 0xD800) * 0x400 + (low - 0xDC00);
    [0xF0 + point / 0x4_0000, 0x80 + point / 0x1000 % 0x40, 0x80 + point / 0x40 % 0x40, 0x80 + point % 0x40]
  }

  function Utf8(s: Text): seq<nat>
    decreases |s|
  {
    if s == [] then []
    else if StartsPair(s) then PairBytes(s[0], s[1]) + Utf8(s[2..])
    else UnitBytes(s[0]) + Utf8(s[1..])
  }

  function ByteLength(s: Text): nat {
    |Utf8(s)|
  }

  predicate IsAscii(s: string) {
    forall i :: 0 <= i < |s| ==> s[i] < 128 as char
  }

  function Ascii(s: string): (t: Text)
    requires IsAscii(s)
    ensures |t| == |s|
  {
    seq(|s|, i requires 0 <= i < |s| => s[i] as nat)
  }

  const COLON: CodeUnit := 0x3A

  function Digits(n: nat): (t: Text)
    ensures |t| > 0
  {
    Ascii(Decimal(n))
  }

  /** What a template literal interpolates: an absent tenant is the text `undefined`. */
  function Interpolated(tenantId: Option<Text>): Text {
    tenantId.GetOr(Ascii("undefined"))
  }

  function UserSubject(plane: Plane, userId: Text, tenantId: Option<Text>): Text {
    if plane.Platform? then Ascii("platform:") + userId
    else
      var tenant := Interpolated(tenantId);
      Ascii("dashboard:") + (Digits(ByteLength(tenant)) + [COLON] + (tenant + [COLON] + userId))
  }

  // ---- cutting at the colons ----

  lemma SameCut<T>(a1: seq<T>, b1: seq<T>, a2: seq<T>, b2: seq<T>, sep: T)
    requires sep !in a1 && sep !in a2
    requires a1 + [sep] + b1 == a2 + [sep] + b2
    ensures |a1| == |a2|
  {
    var (s1, s2) := (a1 + [sep] + b1, a2 + [sep] + b2);
    assert s1[|a1|] == sep && s2[|a2|] == sep;
    assert forall i :: 0 <= i < |a1| ==> s1[i] == a1[i];
    assert forall i :: 0 <= i < |a2| ==> s2[i] == a2[i];
  }

  /** Two texts cut at their first separator agree exactly when both parts do. */
  lemma CutOnce<T>(a1: seq<T>, b1: seq<T>, a2: seq<T>, b2: seq<T>, sep: T)
    requires sep !in a1 && sep !in a2
    ensures a1 + [sep] + b1 == a2 + [sep] + b2 <==> a1 == a2 && b1 == b2
  {
    var (s1, s2) := (a1 + [sep] + b1, a2 + [sep] + b2);
    if s1 == s2 {
      SameCut(a1, b1, a2, b2, sep);
      assert a1 == s1[..|a1|] && a2 == s2[..|a2|];
      assert b1 == s1[|a1| + 1..] && b2 == s2[|a2| + 1..];
    }
  }

  lemma SameLengthCut<T>(a1: seq<T>, b1: seq<T>, a2: seq<T>, b2: seq<T>, sep: T)
    requires |a1| == |a2|
    ensures a1 + [sep] + b1 == a2 + [sep] + b2 <==> a1 == a2 && b1 == b2
  {
    var (s1, s2) := (a1 + [sep] + b1, a2 + [sep] + b2);
    assert s1[..|a1|] == a1 && s2[..|a2|] == a2 && s1[|a1| + 1..] == b1 && s2[|a2| + 1..] == b2;
  }

  lemma DigitsDetermine(m: nat, n: nat)
    ensures Digits(m) == Digits(n) <==> m == n
    ensures COLON !in Digits(m)
  {
    var (s, t) := (Decimal(m), Decimal(n));
    if Digits(m) == Digits(n) {
      forall i | 0 <= i < |s| ensures s[i] == t[i] {
        assert Digits(m)[i] == Digits(n)[i];
      }
      DecimalInjective(m, n);
    }
    forall i | 0 <= i < |s| ensures Digits(m)[i] != COLON {
      assert IsDigit(s[i]);
    }
  }

  /** Appending anything lengthens the bytes, even when it completes a surrogate pair. */
  lemma {:induction false} BytesGrow(a: Text, b: Text)
    requires b != []
    ensures |Utf8(a + b)| > |Utf8(a)|
    decreases |a|
  {
    var s := a + b;
    if a != [] {
      if |a| == 1 {
        assert s[1..] == b;
        assert a[1..] == [];
        if StartsPair(s) {
          assert |Utf8(s)| >= 4;
        } else {
          BytesGrow([], b);
          assert [] + b == b;
        }
      } else if StartsPair(s) {
        assert s[2..] == a[2..] + b;
        BytesGrow(a[2..], b);
      } else {
        assert s[1..] == a[1..] + b;
        BytesGrow(a[1..], b);
      }
    }
  }

  lemma SameBytesSamePrefix(t1: Text, u1: Text, t2: Text, u2: Text)
    requires ByteLength(t1) == ByteLength(t2)
    requires t1 + [COLON] + u1 == t2 + [COLON] + u2
    ensures |t1| <= |t2| ==> t1 == t2
  {
    if |t1| <= |t2| {
      var s := t1 + [COLON] + u1;
      assert t1 == s[..|t1|] && t2 == s[..|t2|];
      assert t2[..|t1|] == t1 && t2 == t1 + t2[|t1|..];
      if |t1| < |t2| {
        BytesGrow(t1, t2[|t1|..]);
      }
    }
  }

  lemma TenantPartDetermines(t1: Text, u1: Text, t2: Text, u2: Text)
    requires ByteLength(t1) == ByteLength(t2)
    ensures t1 + [COLON] + u1 == t2 + [COLON] + u2 <==> t1 == t2 && u1 == u2
  {
    if t1 + [COLON] + u1 == t2 + [COLON] + u2 {
      SameBytesSamePrefix(t1, u1, t2, u2);
      SameBytesSamePrefix(t2, u2, t1, u1);
      SameLengthCut(t1, u1, t2, u2, COLON);
    }
  }

  lemma PlanesDiffer(a: seq<nat>, b: seq<nat>)
    ensures Ascii("platform:") + a != Ascii("dashboard:") + b
  {
    assert (Ascii("platform:") + a)[0] == 'p' as nat;
    assert (Ascii("dashboard:") + b)[0] == 'd' as nat;
  }

  /**
   * The subject is injective: two accounts share it exactly when they are the same plane, user and
   * (on the dashboard) interpolated tenant, whatever colons, digits or surrogates the ids contain.
   * The one merge it allows is an absent tenant with the tenant spelled `undefined`.
   */
  lemma SubjectIsInjective(p1: Plane, u1: Text, t1: Option<Text>, p2: Plane, u2: Text, t2: Option<Text>)
    ensures UserSubject(p1, u1, t1) == UserSubject(p2, u2, t2) <==>
      p1 == p2 && u1 == u2 && (p1.Dashboard? ==> Interpolated(t1) == Interpolated(t2))
  {
    var (x1, x2) := (Interpolated(t1), Interpolated(t2));
    hide Utf8, Ascii;
    if p1 != p2 {
      PlanesDiffer(u1, Digits(ByteLength(x2)) + [COLON] + (x2 + [COLON] + u2));
      PlanesDiffer(u2, Digits(ByteLength(x1)) + [COLON] + (x1 + [COLON] + u1));
    } else if p1.Platform? {
      SamePrefix(Ascii("platform:"), u1, u2);
    } else {
      var (n1, n2) := (ByteLength(x1), ByteLength(x2));
      DigitsDetermine(n1, n2);
      DigitsDetermine(n2, n1);
      var (r1, r2) := (x1 + [COLON] + u1, x2 + [COLON] + u2);
      SamePrefix(Ascii("dashboard:"), Digits(n1) + [COLON] + r1, Digits(n2) + [COLON] + r2);
      CutOnce(Digits(n1), r1, Digits(n2), r2, COLON);
      if n1 == n2 {
        TenantPartDetermines(x1, u1, x2, u2);
      }
    }
  }

  // ---- the bytes that are hashed ----

  predicate JoinsPair(a: Text, b: Text) {
    a != [] && b != [] && IsHigh(a[|a| - 1]) && IsLow(b[0])
  }

  lemma Regrouped<T>(a: seq<T>, b: seq<T>, c: seq<T>)
    ensures a + (b + c) == a + b + c
  {
  }

  lemma {:induction false} Utf8Concat(a: Text, b: Text)
    requires !JoinsPair(a, b)
    ensures Utf8(a + b) == Utf8(a) + Utf8(b)
    decreases |a|
  {
    hide UnitBytes, PairBytes, IsHigh, IsLow;
    var s := a + b;
    if a == [] {
      assert s == b;
    } else if StartsPair(a) {
      assert s[2..] == a[2..] + b;
      Utf8Concat(a[2..], b);
      assert Utf8(s) == PairBytes(a[0], a[1]) + Utf8(s[2..]);
      Regrouped(PairBytes(a[0], a[1]), Utf8(a[2..]), Utf8(b));
    } else {
      assert s[1..] == a[1..] + b;
      Utf8Concat(a[1..], b);
      assert !StartsPair(s) by {
        assert |a| > 1 ==> s[1] == a[1];
      }
      Regrouped(UnitBytes(a[0]), Utf8(a[1..]), Utf8(b));
    }
  }

  /** Text without code units above ASCII is its own bytes. */
  lemma {:induction false} AsciiIsItsBytes(s: Text)
    requires forall i :: 0 <= i < |s| ==> s[i] < 0x80
    ensures Utf8(s) == s
    decreases |s|
  {
    if s != [] {
      AsciiIsItsBytes(s[1..]);
    }
  }

  lemma ColonBytes(a: Text, b: Text)
    ensures Utf8(a + [COLON] + b) == Utf8(a) + [COLON] + Utf8(b)
  {
    Utf8Concat(a + [COLON], b);
    Utf8Concat(a, [COLON]);
    AsciiIsItsBytes([COLON]);
  }

  lemma DigitBytes(n: nat)
    ensures Utf8(Digits(n)) == Digits(n)
  {
    var s := Decimal(n);
    forall i | 0 <= i < |s| ensures Digits(n)[i] < 0x80 {
      assert IsDigit(s[i]);
    }
    AsciiIsItsBytes(Digits(n));
  }

  lemma HeadingBytes(heading: string, rest: Text)
    requires IsAscii(heading)
    ensures Utf8(Ascii(heading) + rest) == Ascii(heading) + Utf8(rest)
  {
    Utf8Concat(Ascii(heading), rest);
    AsciiIsItsBytes(Ascii(heading));
  }

  lemma DashboardBytes(tenant: Text, userId: Text)
    ensures Utf8(Ascii("dashboard:") + (Digits(ByteLength(tenant)) + [COLON] + (tenant + [COLON] + userId))) ==
      Ascii("dashboard:") + (Digits(ByteLength(tenant)) + [COLON] + (Utf8(tenant) + [COLON] + Utf8(userId)))
  {
    hide Utf8, Ascii, Digits;
    var rest := tenant + [COLON] + userId;
    var counted := Digits(ByteLength(tenant)) + [COLON] + rest;
    ColonBytes(tenant, userId);
    DigitBytes(ByteLength(tenant));
    ColonBytes(Digits(ByteLength(tenant)), rest);
    HeadingBytes("dashboard:", counted);
  }

  /** The same layout over bytes. */
  function ByteSubject(plane: Plane, userId: seq<nat>, tenant: seq<nat>): seq<nat> {
    if plane.Platform? then Ascii("platform:") + userId
    else Ascii("dashboard:") + (Digits(|tenant|) + [COLON] + (tenant + [COLON] + userId))
  }

  lemma SubjectBytes(plane: Plane, userId: Text, tenantId: Option<Text>)
    ensures Utf8(UserSubject(plane, userId, tenantId)) == ByteSubject(plane, Utf8(userId), Utf8(Interpolated(tenantId)))
  {
    if plane.Platform? {
      hide Utf8;
      HeadingBytes("platform:", userId);
    } else {
      hide Utf8, Ascii, Digits, Interpolated;
      DashboardBytes(Interpolated(tenantId), userId);
    }
  }

  lemma ByteSubjectIsInjective(p1: Plane, u1: seq<nat>, x1: seq<nat>, p2: Plane, u2: seq<nat>, x2: seq<nat>)
    ensures ByteSubject(p1, u1, x1) == ByteSubject(p2, u2, x2) <==>
      p1 == p2 && u1 == u2 && (p1.Dashboard? ==> x1 == x2)
  {
    hide Ascii, Digits, Utf8;
    var colon: seq<nat> := [COLON];
    var d1: seq<nat> := Digits(|x1|);
    var d2: seq<nat> := Digits(|x2|);
    var (r1, r2) := (x1 + colon + u1, x2 + colon + u2);
    if p1 != p2 {
      PlanesDiffer(u1, d2 + colon + r2);
      PlanesDiffer(u2, d1 + colon + r1);
    } else if p1.Platform? {
      SamePrefix<nat>(Ascii("platform:"), u1, u2);
    } else {
      DigitsDetermine(|x1|, |x2|);
      DigitsDetermine(|x2|, |x1|);
      SamePrefix<nat>(Ascii("dashboard:"), d1 + colon + r1, d2 + colon + r2);
      CutOnce<nat>(d1, r1, d2, r2, COLON);
      if |x1| == |x2| {
        SameLengthCut<nat>(x1, u1, x2, u2, COLON);
      }
    }
  }

  /**
   * On the bytes that are hashed, two accounts share a key exactly when their ids have the same
   * UTF-8 bytes: the length prefix leaves no other collision.
   */
  lemma SubjectBytesAreInjective(p1: Plane, u1: Text, t1: Option<Text>, p2: Plane, u2: Text, t2: Option<Text>)
    ensures Utf8(UserSubject(p1, u1, t1)) == Utf8(UserSubject(p2, u2, t2)) <==>
      && p1 == p2
      && Utf8(u1) == Utf8(u2)
      && (p1.Dashboard? ==> Utf8(Interpolated(t1)) == Utf8(Interpolated(t2)))
  {
    SubjectBytes(p1, u1, t1);
    SubjectBytes(p2, u2, t2);
    hide Utf8, UserSubject, Interpolated, ByteSubject;
    ByteSubjectIsInjective(p1, Utf8(u1), Utf8(Interpolated(t1)), p2, Utf8(u2), Utf8(Interpolated(t2)));
  }

  lemma LoneSurrogateBytes(u: CodeUnit)
    requires IsHigh(u) || IsLow(u)
    ensures Utf8([u]) == [0xEF, 0xBF, 0xBD]
  {
    assert [u][1..] == [];
    assert Utf8([u]) == UnitBytes(u) + Utf8([]);
  }

  /** Lone surrogates are where text and bytes part: any two of them have the same bytes. */
  lemma LoneSurrogatesMerge(a: CodeUnit, b: CodeUnit, userId: Text)
    requires (IsHigh(a) || IsLow(a)) && (IsHigh(b) || IsLow(b))
    ensures Utf8(UserSubject(Dashboard, userId, Some([a]))) == Utf8(UserSubject(Dashboard, userId, Some([b])))
    ensures a != b ==> UserSubject(Dashboard, userId, Some([a])) != UserSubject(Dashboard, userId, Some([b]))
  {
    LoneSurrogateBytes(a);
    LoneSurrogateBytes(b);
    hide Utf8, UserSubject;
    SubjectBytesAreInjective(Dashboard, userId, Some([a]), Dashboard, userId, Some([b]));
    SubjectIsInjective(Dashboard, userId, Some([a]), Dashboard, userId, Some([b]));
    assert [a] == [b] ==> [a][0] == [b][0];
  }

  // ---- the encoding, by code points ----

  /** Surrogates come in two halves: d800 to dbff, then dc00 to dfff. */
  lemma SurrogateHalves(u: CodeUnit)
    ensures IsHigh(u) <==> u / 0x400 == 0x36
    ensures IsLow(u) <==> u / 0x400 == 0x37
  {
  }

  predicate IsTail(b: nat) {
    0x80 <= b <= 0xBF
  }

  /** The code point that one to four UTF-8 bytes spell, in their shortest form (section 3 of RFC 3629). */
  predicate Spells(bytes: seq<nat>, point: nat) {
    if |bytes| == 1 then bytes[0] == point && point <= 0x7F
    else if |bytes| == 2 then
      0xC0 <= bytes[0] <= 0xDF && IsTail(bytes[1])
      && point == (bytes[0] - 0xC0) * 64 + (bytes[1] - 0x80) && 0x80 <= point <= 0x7FF
    else if |bytes| == 3 then
      0xE0 <= bytes[0] <= 0xEF && IsTail(bytes[1]) && IsTail(bytes[2])
      && point == ((bytes[0] - 0xE0) * 64 + (bytes[1] - 0x80)) * 64 + (bytes[2] - 0x80)
      && 0x800 <= point <= 0xFFFF
    else
      |bytes| == 4 && 0xF0 <= bytes[0] <= 0xF7 && IsTail(bytes[1]) && IsTail(bytes[2]) && IsTail(bytes[3])
      && point == (((bytes[0] - 0xF0) * 64 + (bytes[1] - 0x80)) * 64 + (bytes[2] - 0x80)) * 64 + (bytes[3] - 0x80)
      && 0x1_0000 <= point <= 0x10_FFFF
  }

  /** A unit outside the surrogates spells itself; a lone surrogate spells the replacement character. */
  lemma UnitsAreSpelled(u: CodeUnit)
    ensures Spells(UnitBytes(u), if 0xD800 <= u <= 0xDFFF then 0xFFFD else u)
  {
  }

  lemma SixBitGroups(p: nat)
    ensures p == ((p / 0x4_0000 * 64 + p / 0x1000 % 0x40) * 64 + p / 0x40 % 0x40) * 64 + p % 0x40
  {
    var (q, r, t) := (p / 64, p / 64 / 64, p / 64 / 64 / 64);
    assert p == q * 64 + p % 64 && q == r * 64 + q % 64 && r == t * 64 + r % 64;
    assert r == p / 0x1000 && t == p / 0x4_0000;
  }

  lemma FourthGroup(p: nat)
    requires 0x1_0000 <= p <= 0x10_FFFF
    ensures p / 0x4_0000 <= 4 && p / 0x1000 % 0x40 < 0x40 && p / 0x40 % 0x40 < 0x40 && p % 0x40 < 0x40
  {
  }

  /** A pair spells the code point its halves make up. */
  lemma PairsAreSpelled(high: CodeUnit, low: CodeUnit)
    requires 0xD800 <= high <= 0xDBFF && 0xDC00 <= low <= 0xDFFF
    ensures Spells(PairBytes(high, low), 0x1_0000 + 0x400 * (high - 0xD800) + (low - 0xDC00))
  {
    var point := 0x1_0000 + (high - 0xD800) * 0x400 + (low - 0xDC00);
    SixBitGroups(point);
    FourthGroup(point);
  }

  /** The encoding goes pair by pair and unit by unit. */
  lemma EncodedFromTheFront(s: Text)
    ensures Utf8([]) == []
    ensures |s| >= 2 && 0xD800 <= s[0] <= 0xDBFF && 0xDC00 <= s[1] <= 0xDFFF ==>
      Utf8(s) == PairBytes(s[0], s[1]) + Utf8(s[2..])
    ensures s != [] && !(|s| >= 2 && 0xD800 <= s[0] <= 0xDBFF && 0xDC00 <= s[1] <= 0xDFFF) ==>
      Utf8(s) == UnitBytes(s[0]) + Utf8(s[1..])
  {
    hide UnitBytes, PairBytes;
  }

  /** The layout, letter for letter: plane, byte count of the tenant, tenant and user between colons. */
  lemma SubjectLayout(userId: Text, tenant: Text)
    requires IsAscii("platform:") && IsAscii("dashboard:") && IsAscii(":") && IsAscii("undefined")
    ensures UserSubject(Platform, userId, Some(tenant)) == Ascii("platform:") + userId
    ensures UserSubject(Dashboard, userId, Some(tenant)) ==
      Ascii("dashboard:") + Ascii(Decimal(|Utf8(tenant)|)) + Ascii(":") + tenant + Ascii(":") + userId
    ensures UserSubject(Dashboard, userId, None) == UserSubject(Dashboard, userId, Some(Ascii("undefined")))
  {
    hide Utf8;
    assert Ascii(":") == [0x3A];
  }
}
