/** Service API keys: `prefix_keyId_secret`, where the secret may itself contain underscores. */
module ApiKey {
  import opened Strings

  datatype ParsedApiKey = ParsedApiKey(keyId: string, secret: string)

  predicate IsHex(c: char) {
    '0' <= c <= '9' || 'a' <= c <= 'f'
  }

  /** A lower-case UUID. */
  predicate IsKeyId(s: string) {
    && |s| == 36
    && forall i :: 0 <= i < 36 ==>
         if i == 8 || i == 13 || i == 18 || i == 23 then s[i] == '-' else IsHex(s[i])
  }

  predicate IsBase64Url(c: char) {
    'A' <= c <= 'Z' || 'a' <= c <= 'z' || '0' <= c <= '9' || c == '_' || c == '-'
  }

  predicate IsSecret(s: string) {
    |s| == 43 && forall i :: 0 <= i < 43 ==> IsBase64Url(s[i])
  }

  function FormatApiKey(prefix: string, keyId: string, secret: string): string {
    prefix + "_" + keyId + "_" + secret
  }

  function Slice(s: string, from: nat, to: nat): string
    requires from <= to
  {
    if |s| <= from then "" else if |s| < to then s[from..] else s[from..to]
  }

  function ParseApiKey(raw: string, prefix: string): Option<ParsedApiKey> {
    var head := prefix + "_";
    if !StartsWith(raw, head) then None
    else
      var rest := raw[|head|..];
      var keyId := Slice(rest, 0, 36);
      if |rest| <= 36 || rest[36] != '_' then None
      else
        var secret := rest[37..];
        if !IsKeyId(keyId) || !IsSecret(secret) then None
        else Some(ParsedApiKey(keyId, secret))
  }

  /** Parsing inverts formatting both ways: it answers exactly for the well-formed keys. */
  lemma ParseInvertsFormat(raw: string, prefix: string, keyId: string, secret: string)
    ensures ParseApiKey(raw, prefix) == Some(ParsedApiKey(keyId, secret)) <==>
      raw == FormatApiKey(prefix, keyId, secret) && IsKeyId(keyId) && IsSecret(secret)
  {
    var head := prefix + "_";
    if raw == FormatApiKey(prefix, keyId, secret) && IsKeyId(keyId) && IsSecret(secret) {
      assert raw == head + (keyId + "_" + secret);
      var rest := raw[|head|..];
      assert rest == keyId + "_" + secret;
      assert rest[..36] == keyId && rest[37..] == secret;
    }
    if ParseApiKey(raw, prefix) == Some(ParsedApiKey(keyId, secret)) {
      var rest := raw[|head|..];
      assert raw == head + rest;
      assert rest == rest[..36] + "_" + rest[37..];
    }
  }

  /** No key belongs to two deployments: the fixed lengths fix where the prefix ends. */
  lemma OnePrefix(raw: string, p: string, q: string)
    requires ParseApiKey(raw, p).Some? && ParseApiKey(raw, q).Some?
    ensures p == q
  {
    var (a, b) := (ParseApiKey(raw, p).value, ParseApiKey(raw, q).value);
    ParseInvertsFormat(raw, p, a.keyId, a.secret);
    ParseInvertsFormat(raw, q, b.keyId, b.secret);
    assert |raw| == |p| + 81 && |raw| == |q| + 81;
    assert raw[..|p|] == p && raw[..|q|] == q;
  }

  const DIGITS := "0123456789"
  const UPPER_CASE := "ABCDEFGHIJKLMNOPQRSTUVWXYZ"
  const LOWER_CASE := "abcdefghijklmnopqrstuvwxyz"
  const HEX_ALPHABET: set<string> := {DIGITS, "abcdef"}
  const BASE64URL_ALPHABET: set<string> := {DIGITS, UPPER_CASE, LOWER_CASE, "-_"}

  predicate Among(s: string, alphabet: set<string>) {
    forall i :: 0 <= i < |s| ==> exists part :: part in alphabet && s[i] in part
  }

  /** Five groups of hexadecimal digits, of eight, four, four, four and twelve. */
  predicate IsUuid(s: string, a: string, b: string, c: string, d: string, e: string) {
    && |a| == 8 && |b| == 4 && |c| == 4 && |d| == 4 && |e| == 12
    && Among(a, HEX_ALPHABET) && Among(b, HEX_ALPHABET) && Among(c, HEX_ALPHABET)
    && Among(d, HEX_ALPHABET) && Among(e, HEX_ALPHABET)
    && s == a + "-" + b + "-" + c + "-" + d + "-" + e
  }

  lemma DigitsSpelledOut(c: char)
    ensures c in DIGITS <==> '0' <= c <= '9'
  {
    if '0' <= c <= '9' {
      assert DIGITS[(c - '0') as int] == c;
    }
  }

  lemma UpperCaseSpelledOut(c: char)
    ensures c in UPPER_CASE <==> 'A' <= c <= 'Z'
  {
    if 'A' <= c <= 'Z' {
      assert UPPER_CASE[(c - 'A') as int] == c;
    }
  }

  lemma LowerCaseSpelledOut(c: char)
    ensures c in LOWER_CASE <==> 'a' <= c <= 'z'
  {
    if 'a' <= c <= 'z' {
      assert LOWER_CASE[(c - 'a') as int] == c;
    }
  }

  lemma HexLettersSpelledOut(c: char)
    ensures c in "abcdef" <==> 'a' <= c <= 'f'
  {
    if 'a' <= c <= 'f' {
      assert "abcdef"[(c - 'a') as int] == c;
    }
  }

  lemma HexSpelledOut(c: char)
    ensures IsHex(c) <==> exists part :: part in HEX_ALPHABET && c in part
  {
    DigitsSpelledOut(c);
    HexLettersSpelledOut(c);
  }

  lemma Base64UrlSpelledOut(c: char)
    ensures IsBase64Url(c) <==> exists part :: part in BASE64URL_ALPHABET && c in part
  {
    DigitsSpelledOut(c);
    UpperCaseSpelledOut(c);
    LowerCaseSpelledOut(c);
  }

  /** A secret is 43 characters of the URL-safe alphabet, the underscore included. */
  lemma SecretIff(s: string)
    ensures IsSecret(s) <==> |s| == 43 && Among(s, BASE64URL_ALPHABET)
  {
    hide IsBase64Url;
    forall i | 0 <= i < |s| ensures IsBase64Url(s[i]) <==> exists part :: part in BASE64URL_ALPHABET && s[i] in part {
      Base64UrlSpelledOut(s[i]);
    }
  }

  lemma HexAll(s: string)
    ensures Among(s, HEX_ALPHABET) <==> forall i :: 0 <= i < |s| ==> IsHex(s[i])
  {
    forall i | 0 <= i < |s| ensures IsHex(s[i]) <==> exists part :: part in HEX_ALPHABET && s[i] in part {
      HexSpelledOut(s[i]);
    }
  }

  lemma UuidIsKeyId(s: string, a: string, b: string, c: string, d: string, e: string)
    requires IsUuid(s, a, b, c, d, e)
    ensures IsKeyId(s)
  {
    hide IsHex;
    HexAll(a);
    HexAll(b);
    HexAll(c);
    HexAll(d);
    HexAll(e);
    assert forall i :: 0 <= i < 8 ==> s[i] == a[i];
    assert forall i :: 9 <= i < 13 ==> s[i] == b[i - 9];
    assert forall i :: 14 <= i < 18 ==> s[i] == c[i - 14];
    assert forall i :: 19 <= i < 23 ==> s[i] == d[i - 19];
    assert forall i :: 24 <= i < 36 ==> s[i] == e[i - 24];
  }

  /** A key id is five groups of hexadecimal digits with a hyphen between them. */
  lemma KeyIdIff(s: string)
    ensures IsKeyId(s) <==> exists a, b, c, d, e :: IsUuid(s, a, b, c, d, e)
  {
    hide IsHex;
    if IsKeyId(s) {
      var (a, b, c, d, e) := (s[..8], s[9..13], s[14..18], s[19..23], s[24..]);
      HexAll(a);
      HexAll(b);
      HexAll(c);
      HexAll(d);
      HexAll(e);
      assert s == a + "-" + b + "-" + c + "-" + d + "-" + e;
      assert IsUuid(s, a, b, c, d, e);
    }
    if a, b, c, d, e :| IsUuid(s, a, b, c, d, e) {
      UuidIsKeyId(s, a, b, c, d, e);
    }
  }

  /** Every formatted key parses, whatever underscores and hyphens its secret holds. */
  lemma FormattedKeyParses(prefix: string, a: string, b: string, c: string, d: string, e: string, secret: string)
    requires var keyId := a + "-" + b + "-" + c + "-" + d + "-" + e; IsUuid(keyId, a, b, c, d, e)
    requires |secret| == 43 && Among(secret, BASE64URL_ALPHABET)
    ensures var keyId := a + "-" + b + "-" + c + "-" + d + "-" + e;
      ParseApiKey(prefix + "_" + keyId + "_" + secret, prefix) == Some(ParsedApiKey(keyId, secret))
  {
    var keyId := a + "-" + b + "-" + c + "-" + d + "-" + e;
    hide IsKeyId, IsSecret, IsUuid, Among;
    KeyIdIff(keyId);
    SecretIff(secret);
    ParseInvertsFormat(prefix + "_" + keyId + "_" + secret, prefix, keyId, secret);
  }
}
