// decodeJwt of spa/src/auth/cognito.ts: reading the claims of a token.
module Jwt {
  import opened Text
  import opened Json
  import opened Base64Url

  const DOT: CodeUnit := 46

  // String.prototype.split on one character.
  function Split(t: Text, sep: CodeUnit): (parts: seq<Text>)
    ensures |parts| >= 1
  {
    if t == [] then [[]]
    else
      var later := Split(t[1..], sep);
      if t[0] == sep then [[]] + later else [[t[0]] + later[0]] + later[1..]
  }

  // ----- UTF-8 -----

  function Utf8Point(c: CodePoint): seq<Byte> {
    if c < 0x80 then [c]
    else if c < 0x800 then [0xC0 + c / 64, 0x80 + c % 64]
    else if c < 0x1_0000 then [0xE0 + c / 4096, 0x80 + c / 64 % 64, 0x80 + c % 64]
    else [0xF0 + c / 262144, 0x80 + c / 4096 % 64, 0x80 + c / 64 % 64, 0x80 + c % 64]
  }

  function Utf8(s: PyString): seq<Byte> {
    if s == [] then [] else Utf8Point(s[0]) + Utf8(s[1..])
  }

  predicate Continuation(b: int) { 0x80 <= b < 0xC0 }

  // The length a lead byte announces, 0 if it is none.
  function LengthOf(lead: Byte): nat {
    if lead < 0x80 then 1
    else if lead < 0xC0 then 0
    else if lead < 0xE0 then 2
    else if lead < 0xF0 then 3
    else if lead < 0xF8 then 4
    else 0
  }

  function Value2(a: int, b: int): int { (a - 0xC0) * 64 + (b - 0x80) }
  function Value3(a: int, b: int, c: int): int { (a - 0xE0) * 4096 + (b - 0x80) * 64 + (c - 0x80) }
  function Value4(a: int, b: int, c: int, d: int): int {
    (a - 0xF0) * 262144 + (b - 0x80) * 4096 + (c - 0x80) * 64 + (d - 0x80)
  }

  // The value of a code point's bytes, overlong forms included.
  function ValueOf(bytes: seq<Byte>): int
    requires 1 <= |bytes| <= 4
  {
    match |bytes|
    case 1 => bytes[0]
    case 2 => Value2(bytes[0], bytes[1])
    case 3 => Value3(bytes[0], bytes[1], bytes[2])
    case 4 => Value4(bytes[0], bytes[1], bytes[2], bytes[3])
  }

  // The shortest form, of a code point that is no surrogate.
  predicate ProperValue(v: int, length: nat) {
    && 0 <= v < 0x11_0000 && !(0xD800 <= v < 0xE000)
    && (length == 2 ==> v >= 0x80) && (length == 3 ==> v >= 0x800) && (length == 4 ==> v >= 0x1_0000)
  }

  // The first code point of some bytes: None where decodeURIComponent throws.
  function FirstPoint(bytes: seq<Byte>): (c: Option<CodePoint>)
    requires bytes != []
    ensures c.Some? ==> 1 <= LengthOf(bytes[0]) <= |bytes|
  {
    var n := LengthOf(bytes[0]);
    if n == 0 || n > |bytes| then None
    else if exists i :: 1 <= i < n && !Continuation(bytes[i]) then None
    else
      var v := ValueOf(bytes[..n]);
      if ProperValue(v, n) then Some(v) else None
  }

  // Percent-escaping each byte and decodeURIComponent: None where it throws.
  function Utf8Decoded(bytes: seq<Byte>): Option<PyString>
    decreases |bytes|
  {
    if bytes == [] then Some([])
    else if FirstPoint(bytes).None? then None
    else
      var later := Utf8Decoded(bytes[LengthOf(bytes[0])..]);
      if later.None? then None else Some([FirstPoint(bytes).value] + later.value)
  }

  lemma PointRoundTrip(c: CodePoint, rest: seq<Byte>)
    requires !(0xD800 <= c < 0xE000)
    ensures
      var all := Utf8Point(c) + rest;
      && FirstPoint(all) == Some(c)
      && LengthOf(all[0]) == |Utf8Point(c)| && all[|Utf8Point(c)|..] == rest
  {
    PointParts(c);
    var p := Utf8Point(c);
    var all := p + rest;
    hide Utf8Point, ValueOf, Continuation;
    assert all[..|p|] == p;
    assert forall i :: 0 <= i < |p| ==> all[i] == p[i];
  }

  lemma PointParts(c: CodePoint)
    requires !(0xD800 <= c < 0xE000)
    ensures
      var p := Utf8Point(c);
      && 1 <= |p| <= 4 && LengthOf(p[0]) == |p|
      && (forall i :: 1 <= i < |p| ==> Continuation(p[i]))
      && ValueOf(p) == c && ProperValue(c, |p|)
  {
    hide Value2, Value3, Value4;
    Values(c);
  }

  lemma Values(c: CodePoint)
    ensures Value2(0xC0 + c / 64, 0x80 + c % 64) == c
    ensures Value3(0xE0 + c / 4096, 0x80 + c / 64 % 64, 0x80 + c % 64) == c
    ensures Value4(0xF0 + c / 262144, 0x80 + c / 4096 % 64, 0x80 + c / 64 % 64, 0x80 + c % 64) == c
  {
    assert c / 4096 == c / 64 / 64;
    assert c / 262144 == c / 4096 / 64;
  }

  // Every text without surrogates survives.
  lemma {:induction false} Utf8RoundTrip(s: PyString)
    requires WellFormed(s)
    ensures Utf8Decoded(Utf8(s)) == Some(s)
  {
    if s != [] {
      hide Utf8Point, FirstPoint, LengthOf;
      PointRoundTrip(s[0], Utf8(s[1..]));
      Utf8RoundTrip(s[1..]);
      assert [s[0]] + s[1..] == s;
    }
  }

  // The decoder is strict: bytes that decode are the encoding of what they
  // decode to.
  lemma {:induction false} Utf8Strict(bytes: seq<Byte>)
    requires Utf8Decoded(bytes).Some?
    ensures Utf8(Utf8Decoded(bytes).value) == bytes && WellFormed(Utf8Decoded(bytes).value)
    decreases |bytes|
  {
    if bytes != [] {
      hide Utf8Point, FirstPoint, LengthOf;
      var n := LengthOf(bytes[0]);
      var c := FirstPoint(bytes).value;
      var later := Utf8Decoded(bytes[n..]).value;
      FirstPointStrict(bytes);
      Utf8Strict(bytes[n..]);
      Utf8Cons(c, later);
      hide Utf8, WellFormed;
      assert bytes == bytes[..n] + bytes[n..];
    }
  }

  lemma Utf8Cons(c: CodePoint, later: PyString)
    ensures Utf8([c] + later) == Utf8Point(c) + Utf8(later)
    ensures !(0xD800 <= c < 0xE000) && WellFormed(later) ==> WellFormed([c] + later)
  {
    hide Utf8Point;
    assert ([c] + later)[1..] == later;
  }

  lemma FirstPointStrict(bytes: seq<Byte>)
    requires bytes != [] && FirstPoint(bytes).Some?
    ensures
      var c := FirstPoint(bytes).value;
      Utf8Point(c) == bytes[..LengthOf(bytes[0])] && !(0xD800 <= c < 0xE000)
  {
    var p := bytes[..LengthOf(bytes[0])];
    assert forall i :: 0 <= i < |p| ==> p[i] == bytes[i];
    PartsPoint(p);
  }

  lemma PartsPoint(p: seq<Byte>)
    requires 1 <= |p| <= 4 && LengthOf(p[0]) == |p|
    requires forall i :: 1 <= i < |p| ==> Continuation(p[i])
    requires ProperValue(ValueOf(p), |p|)
    ensures Utf8Point(ValueOf(p)) == p
  {
    hide Value2, Value3, Value4;
    match |p|
    case 1 =>
    case 2 => TwoParts(p[0], p[1]);
    case 3 => ThreeParts(p[0], p[1], p[2]);
    case 4 => FourParts(p[0], p[1], p[2], p[3]);
  }

  lemma TwoParts(a: Byte, b: Byte)
    requires 0xC0 <= a < 0xE0 && Continuation(b)
    ensures var v := Value2(a, b); v < 0x800 && v / 64 == a - 0xC0 && v % 64 == b - 0x80
  {
  }

  lemma ThreeParts(a: Byte, b: Byte, c: Byte)
    requires 0xE0 <= a < 0xF0 && Continuation(b) && Continuation(c)
    ensures var v := Value3(a, b, c);
      v < 0x1_0000 && v / 4096 == a - 0xE0 && v / 64 % 64 == b - 0x80 && v % 64 == c - 0x80
  {
    assert Value3(a, b, c) / 64 == (a - 0xE0) * 64 + (b - 0x80);
  }

  lemma FourParts(a: Byte, b: Byte, c: Byte, d: Byte)
    requires 0xF0 <= a < 0xF8 && Continuation(b) && Continuation(c) && Continuation(d)
    ensures var v := Value4(a, b, c, d);
      && v / 262144 == a - 0xF0 && v / 4096 % 64 == b - 0x80 && v / 64 % 64 == c - 0x80 && v % 64 == d - 0x80
  {
    var v := Value4(a, b, c, d);
    assert v / 64 == (a - 0xF0) * 4096 + (b - 0x80) * 64 + (c - 0x80);
    assert v / 4096 == (a - 0xF0) * 64 + (b - 0x80);
  }

  // ----- decodeJwt -----

  const NoClaims: Value := Object([])

  function DecodeJwt(token: Text): Value {
    var parts := Split(token, DOT);
    if |parts| < 2 || parts[1] == [] then NoClaims
    else
      var bytes := UrlDecoded(parts[1]);
      if bytes.None? || Utf8Decoded(bytes.value).None? then NoClaims
      else Claims(Utf16(Utf8Decoded(bytes.value).value))
  }

  function Claims(json: Text): Value {
    match JsonParse(json)
    case Some(v) => v
    case None => NoClaims
  }

  lemma {:induction false} SplitFirst(a: Text, rest: Text)
    requires DOT !in a
    ensures Split(a + [DOT] + rest, DOT) == [a] + Split(rest, DOT)
  {
    var all := a + [DOT] + rest;
    if a == [] {
      assert all[1..] == rest;
    } else {
      assert all[1..] == a[1..] + [DOT] + rest;
      SplitFirst(a[1..], rest);
      assert [a[0]] + a[1..] == a;
    }
  }

  lemma {:induction false} NoDots(a: Text)
    requires forall i :: 0 <= i < |a| ==> IsUrlSafe(a[i])
    ensures DOT !in a
  {
    assert !IsUrlSafe(DOT);
  }

  // The claims shown are those of the JSON text that was signed, for every such
  // text, whatever the header and the signature are.
  lemma ClaimsSurvive(header: Text, json: PyString, signature: Text)
    requires DOT !in header && WellFormed(json) && json != []
    ensures DecodeJwt(header + [DOT] + (UrlEncoded(Utf8(json)) + [DOT] + signature)) == Claims(Utf16(json))
    ensures DecodeJwt(header + [DOT] + UrlEncoded(Utf8(json))) == Claims(Utf16(json))
  {
    hide UrlEncoded, UrlDecoded, Utf8Decoded, Claims, IsUrlSafe, Utf16, Split, Utf8;
    var payload := UrlEncoded(Utf8(json));
    Base64Url.Shape(Utf8(json));
    NoDots(payload);
    SplitFirst(header, payload + [DOT] + signature);
    SplitFirst(payload, signature);
    SplitFirst(header, payload);
    SplitNone(payload);
    RoundTrip(Utf8(json));
    Utf8RoundTrip(json);
    NotEmpty(json);
  }

  lemma NotEmpty(json: PyString)
    requires json != []
    ensures UrlEncoded(Utf8(json)) != []
  {
    hide UrlEncoded;
    Base64Url.Shape(Utf8(json));
    assert |Utf8(json)| >= 1;
  }

  // The euro sign and a character beyond the sixteen-bit range.
  lemma Utf8Examples()
    ensures Utf8([0x20AC]) == [0xE2, 0x82, 0xAC]
    ensures Utf8([0x10348]) == [0xF0, 0x90, 0x8D, 0x88]
  {
    assert Utf8([]) == [];
    assert [0x20AC][1..] == [] && [0x10348][1..] == [];
  }

  // A token without a dot, or with a payload that cannot be base64, shows no claims.
  lemma {:induction false} SplitNone(t: Text)
    requires DOT !in t
    ensures Split(t, DOT) == [t]
  {
    if t != [] {
      SplitNone(t[1..]);
      assert [t[0]] + t[1..] == t;
    }
  }

  lemma NoClaimsShown(header: Text, payload: Text, signature: Text)
    requires DOT !in header && UrlSafe(payload)
    requires payload == [] || |payload| % 4 == 1
    ensures DecodeJwt(header) == NoClaims
    ensures DecodeJwt(header + [DOT] + (payload + [DOT] + signature)) == NoClaims
  {
    hide UrlDecoded, Utf8Decoded, Claims, IsUrlSafe;
    SplitNone(header);
    NoDots(payload);
    SplitFirst(header, payload + [DOT] + signature);
    SplitFirst(payload, signature);
    hide Split;
    if payload != [] {
      EncodesBack(payload);
    }
  }
}
