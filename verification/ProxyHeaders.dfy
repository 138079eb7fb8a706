/** The header sets the proxy forwards: a mutable `Headers`, stripping and identity injection. */
module ProxyHeaders {
  import opened Strings

  /** Header names are stored in lower case, as `Headers` normalises them. */
  type HeaderMap = map<string, string>

  datatype UserHeaders = UserHeaders(userId: string, role: string, tenantId: string, tenantDomain: string)

  /** What an access token says about its holder; absent claims are `None`. */
  datatype Claims = Claims(
    sub: Option<string>,
    role: Option<string>,
    tenantId: Option<string>,
    tenantDomain: Option<string>,
    status: Option<string>)

  const IDENTITY_BASELINE: seq<string> := ["x-user-id", "x-user-role", "x-tenant-id", "x-tenant-domain"]

  function ConfiguredNames(names: UserHeaders): set<string> {
    {AsciiLower(names.userId), AsciiLower(names.role),
     AsciiLower(names.tenantId), AsciiLower(names.tenantDomain)}
  }

  predicate DistinctNames(names: UserHeaders) {
    var (a, b) := (AsciiLower(names.userId), AsciiLower(names.role));
    var (c, d) := (AsciiLower(names.tenantId), AsciiLower(names.tenantDomain));
    a != b && a != c && a != d && b != c && b != d && c != d
  }

  /** Every header name only the proxy may fill. */
  function IdentityNames(names: UserHeaders): set<string> {
    (set i | 0 <= i < |IDENTITY_BASELINE| :: IDENTITY_BASELINE[i]) + ConfiguredNames(names)
  }

  function Sanitized(headers: HeaderMap, names: UserHeaders): HeaderMap {
    headers - IdentityNames(names)
  }

  /** Drops CR, LF and NUL from a header value. */
  function SanitizeValue(value: string): (r: string)
    ensures forall i :: 0 <= i < |r| ==> r[i] !in "\r\n\0"
  {
    if value == [] then []
    else (if value[0] in "\r\n\0" then [] else [value[0]]) + SanitizeValue(value[1..])
  }

  /** A slot holding `value`, or no slot when there is nothing to say. */
  function WithSlot(headers: HeaderMap, name: string, value: Option<string>): HeaderMap {
    if value.None? || value.value == "" then headers - {AsciiLower(name)}
    else headers[AsciiLower(name) := SanitizeValue(value.value)]
  }

  function WithIdentity(headers: HeaderMap, names: UserHeaders, claims: Claims): HeaderMap {
    var h1 := WithSlot(headers, names.userId, claims.sub);
    var h2 := WithSlot(h1, names.role, Some(claims.role.GetOr("")));
    var h3 := WithSlot(h2, names.tenantId, claims.tenantId);
    WithSlot(h3, names.tenantDomain, claims.tenantDomain)
  }

  class Headers {
    var entries: HeaderMap

    constructor (init: HeaderMap)
      ensures entries == init
    {
      entries := init;
    }

    method Delete(name: string)
      modifies this
      ensures entries == old(entries) - {AsciiLower(name)}
    {
      entries := entries - {AsciiLower(name)};
    }

    method Set(name: string, value: string)
      modifies this
      ensures entries == old(entries)[AsciiLower(name) := value]
    {
      entries := entries[AsciiLower(name) := value];
    }

    method SetOrDelete(name: string, value: Option<string>)
      modifies this
      ensures entries == WithSlot(old(entries), name, value)
    {
      if value.None? || |value.value| == 0 {
        Delete(name);
        return;
      }
      Set(name, SanitizeValue(value.value));
    }
  }

  lemma BaselineIsLowerCase()
    ensures forall i :: 0 <= i < |IDENTITY_BASELINE| ==>
      AsciiLower(IDENTITY_BASELINE[i]) == IDENTITY_BASELINE[i]
  {
    assert AsciiLower("x-user-id") == "x-user-id";
    assert AsciiLower("x-user-role") == "x-user-role";
    assert AsciiLower("x-tenant-id") == "x-tenant-id";
    assert AsciiLower("x-tenant-domain") == "x-tenant-domain";
  }

  method BuildSanitizedRequestHeaders(request: Headers, names: UserHeaders) returns (headers: Headers)
    ensures fresh(headers)
    ensures headers.entries == Sanitized(request.entries, names)
  {
    hide AsciiLower;
    headers := new Headers(request.entries);
    BaselineIsLowerCase();
    for i := 0 to |IDENTITY_BASELINE|
      invariant fresh(headers)
      invariant headers.entries == request.entries - (set j | 0 <= j < i :: IDENTITY_BASELINE[j])
    {
      headers.Delete(IDENTITY_BASELINE[i]);
    }
    headers.Delete(names.userId);
    headers.Delete(names.role);
    headers.Delete(names.tenantId);
    headers.Delete(names.tenantDomain);
  }

  method BuildForwardedHeaders(sanitized: Headers, names: UserHeaders, claims: Claims)
    returns (forwarded: Headers)
    ensures fresh(forwarded)
    ensures forwarded.entries == WithIdentity(sanitized.entries, names, claims)
  {
    forwarded := new Headers(sanitized.entries);
    forwarded.SetOrDelete(names.userId, claims.sub);
    forwarded.SetOrDelete(names.role, Some(claims.role.GetOr("")));
    forwarded.SetOrDelete(names.tenantId, claims.tenantId);
    forwarded.SetOrDelete(names.tenantDomain, claims.tenantDomain);
  }

  predicate SameSlot(a: HeaderMap, b: HeaderMap, name: string) {
    if name in a then name in b && a[name] == b[name] else name !in b
  }

  ghost predicate AgreeOutside(a: HeaderMap, b: HeaderMap, names: set<string>) {
    forall name :: name !in names ==> SameSlot(a, b, name)
  }

  /** Two header sets that agree outside the identity names are stripped to the same set. */
  lemma SanitizedIgnoresIdentity(a: HeaderMap, b: HeaderMap, names: UserHeaders)
    requires AgreeOutside(a, b, IdentityNames(names))
    ensures Sanitized(a, names) == Sanitized(b, names)
  {
    forall name | name in Sanitized(a, names) || name in Sanitized(b, names)
      ensures name in Sanitized(a, names) && name in Sanitized(b, names)
      ensures Sanitized(a, names)[name] == Sanitized(b, names)[name]
    {
      assert SameSlot(a, b, name);
    }
  }

  function SlotValue(value: Option<string>): Option<string> {
    if value.None? || value.value == "" then None else Some(SanitizeValue(value.value))
  }

  function Lookup(headers: HeaderMap, name: string): Option<string> {
    if name in headers then Some(headers[name]) else None
  }

  /** The claim a configured name is filled from: the last of the four slots that bears it. */
  function ClaimFor(names: UserHeaders, claims: Claims, name: string): Option<string>
    requires name in ConfiguredNames(names)
  {
    if name == AsciiLower(names.tenantDomain) then claims.tenantDomain
    else if name == AsciiLower(names.tenantId) then claims.tenantId
    else if name == AsciiLower(names.role) then claims.role
    else claims.sub
  }

  lemma SlotAfter(headers: HeaderMap, name: string, value: Option<string>, other: string)
    ensures Lookup(WithSlot(headers, name, value), other) ==
      if other == AsciiLower(name) then SlotValue(value) else Lookup(headers, other)
  {
    hide AsciiLower, SanitizeValue;
  }

  lemma OneSlot(inbound: HeaderMap, names: UserHeaders, claims: Claims, name: string)
    ensures Lookup(WithIdentity(Sanitized(inbound, names), names, claims), name) ==
      if name in ConfiguredNames(names) then SlotValue(ClaimFor(names, claims, name))
      else if name in IdentityNames(names) then None
      else Lookup(inbound, name)
  {
    hide AsciiLower, SanitizeValue, WithSlot;
    var h0 := Sanitized(inbound, names);
    var role := Some(claims.role.GetOr(""));
    var h1 := WithSlot(h0, names.userId, claims.sub);
    var h2 := WithSlot(h1, names.role, role);
    var h3 := WithSlot(h2, names.tenantId, claims.tenantId);
    SlotAfter(h0, names.userId, claims.sub, name);
    SlotAfter(h1, names.role, role, name);
    SlotAfter(h2, names.tenantId, claims.tenantId, name);
    SlotAfter(h3, names.tenantDomain, claims.tenantDomain, name);
    assert SlotValue(role) == SlotValue(claims.role);
  }

  /**
   * On the authorised path each identity slot is a function of the token alone, whether or not
   * the configured names differ; the unconfigured default names stay empty, and every other
   * header is forwarded untouched.
   */
  lemma IdentitySlots(inbound: HeaderMap, names: UserHeaders, claims: Claims)
    ensures var out := WithIdentity(Sanitized(inbound, names), names, claims);
      && (forall name :: name in ConfiguredNames(names) ==>
            Lookup(out, name) == SlotValue(ClaimFor(names, claims, name)))
      && (forall name :: name in IdentityNames(names) - ConfiguredNames(names) ==> name !in out)
      && (forall name :: name !in IdentityNames(names) ==> SameSlot(inbound, out, name))
  {
    hide WithIdentity, Sanitized, ConfiguredNames;
    var out := WithIdentity(Sanitized(inbound, names), names, claims);
    forall name: string
      ensures name in ConfiguredNames(names) ==> Lookup(out, name) == SlotValue(ClaimFor(names, claims, name))
      ensures name in IdentityNames(names) - ConfiguredNames(names) ==> name !in out
      ensures name !in IdentityNames(names) ==> SameSlot(inbound, out, name)
    {
      OneSlot(inbound, names, claims, name);
    }
  }

  /** With four different names every slot holds its own claim. */
  lemma DistinctSlots(inbound: HeaderMap, names: UserHeaders, claims: Claims)
    requires DistinctNames(names)
    ensures var out := WithIdentity(Sanitized(inbound, names), names, claims);
      && Lookup(out, AsciiLower(names.userId)) == SlotValue(claims.sub)
      && Lookup(out, AsciiLower(names.role)) == SlotValue(claims.role)
      && Lookup(out, AsciiLower(names.tenantId)) == SlotValue(claims.tenantId)
      && Lookup(out, AsciiLower(names.tenantDomain)) == SlotValue(claims.tenantDomain)
  {
    hide AsciiLower, SanitizeValue, WithIdentity, Sanitized;
    IdentitySlots(inbound, names, claims);
  }

  /** Sanitising looks at one character at a time: it drops the three and keeps the rest in order. */
  lemma {:induction false} SanitizedCharByChar(a: string, c: char, b: string)
    ensures SanitizeValue(a + [c] + b) ==
      SanitizeValue(a) + (if c in "\r\n\0" then [] else [c]) + SanitizeValue(b)
  {
    var s := a + [c] + b;
    if a == "" {
      assert s[1..] == b;
    } else {
      assert s[1..] == a[1..] + [c] + b;
      SanitizedCharByChar(a[1..], c, b);
    }
  }

  /** The names that are stripped: the four defaults and the four configured ones, in lower case. */
  lemma StrippedNames(names: UserHeaders, name: string)
    ensures name in IdentityNames(names) <==>
      || name in ["x-user-id", "x-user-role", "x-tenant-id", "x-tenant-domain"]
      || name in [AsciiLower(names.userId), AsciiLower(names.role),
                  AsciiLower(names.tenantId), AsciiLower(names.tenantDomain)]
  {
    hide AsciiLower;
    var base := IDENTITY_BASELINE;
    assert |base| == 4;
    assert forall i :: 0 <= i < 4 ==> base[i] in IdentityNames(names);
  }
}
