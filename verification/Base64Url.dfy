// Base64 as the browser has it (btoa and atob), the unpadded URL-safe form of
// spa/src/auth/pkce.ts, and the way back in spa/src/auth/cognito.ts.
module Base64Url {
  import opened Text

  type Byte = b: int | 0 <= b < 256
  type Sextet = x: int | 0 <= x < 64

  const PLUS: CodeUnit := 43
  const SLASH: CodeUnit := 47
  const MINUS: CodeUnit := 45
  const UNDERSCORE: CodeUnit := 95
  const EQUALS: CodeUnit := 61

  // ----- The standard alphabet -----

  function StdChar(x: Sextet): CodeUnit {
    if x < 26 then 'A' as int + x
    else if x < 52 then 'a' as int + (x - 26)
    else if x < 62 then '0' as int + (x - 52)
    else if x == 62 then PLUS
    else SLASH
  }

  function StdValue(c: CodeUnit): Option<Sextet> {
    if 'A' as int <= c <= 'Z' as int then Some(c - 'A' as int)
    else if 'a' as int <= c <= 'z' as int then Some(c - 'a' as int + 26)
    else if '0' as int <= c <= '9' as int then Some(c - '0' as int + 52)
    else if c == PLUS then Some(62)
    else if c == SLASH then Some(63)
    else None
  }

  function StdChars(xs: seq<Sextet>): Text {
    seq(|xs|, i requires 0 <= i < |xs| => StdChar(xs[i]))
  }

  // ----- Bytes and six-bit groups -----

  // Three bytes as four groups, and back.
  function Sextet1(a: Byte): Sextet { a / 4 }
  function Sextet2(a: Byte, b: Byte): Sextet { a % 4 * 16 + b / 16 }
  function Sextet3(b: Byte, c: Byte): Sextet { b % 16 * 4 + c / 64 }
  function Sextet4(c: Byte): Sextet { c % 64 }

  function Byte1(p: int, q: int): Byte requires 0 <= p < 64 && 0 <= q < 64 { p * 4 + q / 16 }
  function Byte2(q: int, r: int): Byte requires 0 <= q < 64 && 0 <= r < 64 { q % 16 * 16 + r / 4 }
  function Byte3(r: int, s: int): Byte requires 0 <= r < 64 && 0 <= s < 64 { r % 4 * 64 + s }

  // The groups of six bits, the last one filled up with zeros.
  function Sextets(bytes: seq<Byte>): seq<Sextet> {
    if bytes == [] then []
    else if |bytes| == 1 then [Sextet1(bytes[0]), Sextet2(bytes[0], 0)]
    else if |bytes| == 2 then [Sextet1(bytes[0]), Sextet2(bytes[0], bytes[1]), Sextet3(bytes[1], 0)]
    else
      [Sextet1(bytes[0]), Sextet2(bytes[0], bytes[1]), Sextet3(bytes[1], bytes[2]), Sextet4(bytes[2])]
      + Sextets(bytes[3..])
  }

  // The whole bytes in a sequence of groups; bits left over are dropped.
  function Bytes(xs: seq<Sextet>): seq<Byte> {
    if |xs| < 2 then []
    else if |xs| == 2 then [Byte1(xs[0], xs[1])]
    else if |xs| == 3 then [Byte1(xs[0], xs[1]), Byte2(xs[1], xs[2])]
    else [Byte1(xs[0], xs[1]), Byte2(xs[1], xs[2]), Byte3(xs[2], xs[3])] + Bytes(xs[4..])
  }

  // ----- btoa and atob -----

  function Repeat(c: CodeUnit, n: nat): Text { seq(n, _ => c) }

  function Btoa(bytes: seq<Byte>): Text {
    StdChars(Sextets(bytes)) + Repeat(EQUALS, (3 - |bytes| % 3) % 3)
  }

  predicate IsAsciiSpace(c: CodeUnit) { c == 9 || c == 10 || c == 12 || c == 13 || c == 32 }

  function DropSpaces(t: Text): Text {
    if t == [] then []
    else if IsAsciiSpace(t[0]) then DropSpaces(t[1..])
    else [t[0]] + DropSpaces(t[1..])
  }

  // One or two trailing equals signs, when the length is a multiple of four.
  function DropPadding(t: Text): Text {
    if |t| == 0 || |t| % 4 != 0 || t[|t| - 1] != EQUALS then t
    else if t[|t| - 2] != EQUALS then t[..|t| - 1]
    else t[..|t| - 2]
  }

  function Values(t: Text): (xs: Option<seq<Sextet>>)
    ensures xs.Some? ==> |xs.value| == |t|
  {
    if t == [] then Some([])
    else if StdValue(t[0]).None? || Values(t[1..]).None? then None
    else Some([StdValue(t[0]).value] + Values(t[1..]).value)
  }

  // The forgiving decoder: None where atob throws.
  function Atob(t: Text): Option<seq<Byte>> {
    var bare := DropPadding(DropSpaces(t));
    if |bare| % 4 == 1 || Values(bare).None? then None else Some(Bytes(Values(bare).value))
  }

  // ----- The URL-safe form -----

  function Swap(c: CodeUnit, from: CodeUnit, to: CodeUnit): CodeUnit { if c == from then to else c }

  // String.prototype.replace of every occurrence of one character.
  function ReplaceAll(t: Text, from: CodeUnit, to: CodeUnit): Text {
    seq(|t|, i requires 0 <= i < |t| => Swap(t[i], from, to))
  }

  // replace(/=+$/, '').
  function StripEquals(t: Text): Text {
    if t != [] && t[|t| - 1] == EQUALS then StripEquals(t[..|t| - 1]) else t
  }

  function UrlEncoded(bytes: seq<Byte>): Text {
    StripEquals(ReplaceAll(ReplaceAll(Btoa(bytes), PLUS, MINUS), SLASH, UNDERSCORE))
  }

  method Base64UrlEncode(view: array<Byte>) returns (r: Text)
    ensures r == UrlEncoded(view[..])
  {
    var binary: seq<Byte> := [];
    for i := 0 to view.Length
      invariant binary == view[..i]
    {
      binary := binary + [view[i]];
    }
    assert view[..view.Length] == view[..];
    r := Btoa(binary);
    r := ReplaceAll(r, PLUS, MINUS);
    r := ReplaceAll(r, SLASH, UNDERSCORE);
    r := StripEquals(r);
  }

  // The random bytes are given.
  method RandomUrlSafe(entropy: seq<Byte>) returns (r: Text)
    ensures r == UrlEncoded(entropy)
  {
    var bytes := new Byte[|entropy|](i requires 0 <= i < |entropy| => entropy[i]);
    assert bytes[..] == entropy;
    r := Base64UrlEncode(bytes);
  }

  // The steps of decodeJwt before JSON: back to the standard alphabet, padding,
  // atob.
  function Normalised(t: Text): Text {
    ReplaceAll(ReplaceAll(t, MINUS, PLUS), UNDERSCORE, SLASH)
  }

  function Padded(t: Text): Text {
    t + Repeat(EQUALS, (4 - |t| % 4) % 4)
  }

  function UrlDecoded(t: Text): Option<seq<Byte>> { Atob(Padded(Normalised(t))) }

  // ----- Bits -----

  lemma {:induction false} SextetCount(bytes: seq<Byte>)
    ensures |Sextets(bytes)| == (4 * |bytes| + 2) / 3
  {
    hide Byte1, Byte2, Byte3, Sextet1, Sextet2, Sextet3, Sextet4;
    if |bytes| >= 3 {
      SextetCount(bytes[3..]);
    }
  }

  lemma {:induction false} BytesOfSextets(bytes: seq<Byte>)
    ensures Bytes(Sextets(bytes)) == bytes
  {
    hide Byte1, Byte2, Byte3, Sextet1, Sextet2, Sextet3, Sextet4;
    if 1 <= |bytes| < 3 {
      ThreeBytes(bytes[0], if |bytes| == 2 then bytes[1] else 0, 0);
    }
    if |bytes| >= 3 {
      var (xs, later) := (Sextets(bytes), Sextets(bytes[3..]));
      assert xs[4..] == later;
      BytesOfSextets(bytes[3..]);
      ThreeBytes(bytes[0], bytes[1], bytes[2]);
      assert bytes == [bytes[0], bytes[1], bytes[2]] + bytes[3..];
    }
  }

  lemma ThreeBytes(a: Byte, b: Byte, c: Byte)
    ensures Byte1(Sextet1(a), Sextet2(a, b)) == a
    ensures Byte2(Sextet2(a, b), Sextet3(b, c)) == b
    ensures Byte3(Sextet3(b, c), Sextet4(c)) == c
  {
  }

  lemma FourSextets(p: Sextet, q: Sextet, r: Sextet, s: Sextet)
    ensures Sextet1(Byte1(p, q)) == p && Sextet2(Byte1(p, q), Byte2(q, r)) == q
    ensures Sextet3(Byte2(q, r), Byte3(r, s)) == r && Sextet4(Byte3(r, s)) == s
    ensures Sextet2(Byte1(p, q), 0) == q <==> q % 16 == 0
    ensures Sextet3(Byte2(q, r), 0) == r <==> r % 4 == 0
  {
  }

  // No bits are left over: the groups a byte sequence makes.
  predicate Canonical(xs: seq<Sextet>) {
    match |xs| % 4
    case 0 => true
    case 1 => false
    case 2 => xs[|xs| - 1] % 16 == 0
    case _ => xs[|xs| - 1] % 4 == 0
  }

  lemma {:induction false} SextetsOfBytes(xs: seq<Sextet>)
    ensures Sextets(Bytes(xs)) == xs <==> Canonical(xs)
  {
    if |xs| >= 4 {
      hide Bytes, Sextets;
      FrontGroup(xs);
      SameCanonical(xs);
      SextetsOfBytes(xs[4..]);
      var later := Sextets(Bytes(xs[4..]));
      assert (xs[..4] + later)[4..] == later;
      assert xs[..4] + xs[4..] == xs;
    } else {
      FewSextets(xs);
    }
  }

  lemma FrontBytes(a: Byte, b: Byte, c: Byte, later: seq<Byte>)
    ensures Sextets([a, b, c] + later) == [Sextet1(a), Sextet2(a, b), Sextet3(b, c), Sextet4(c)] + Sextets(later)
  {
    hide Sextet1, Sextet2, Sextet3, Sextet4;
    assert ([a, b, c] + later)[3..] == later;
  }

  lemma FrontGroup(xs: seq<Sextet>)
    requires |xs| >= 4
    ensures Sextets(Bytes(xs)) == xs[..4] + Sextets(Bytes(xs[4..]))
  {
    hide Byte1, Byte2, Byte3, Sextet1, Sextet2, Sextet3, Sextet4, Sextets;
    FourSextets(xs[0], xs[1], xs[2], xs[3]);
    FrontBytes(Byte1(xs[0], xs[1]), Byte2(xs[1], xs[2]), Byte3(xs[2], xs[3]), Bytes(xs[4..]));
  }

  lemma SameCanonical(xs: seq<Sextet>)
    requires |xs| >= 4
    ensures Canonical(xs) <==> Canonical(xs[4..])
  {
  }

  lemma FewSextets(xs: seq<Sextet>)
    requires |xs| < 4
    ensures Sextets(Bytes(xs)) == xs <==> Canonical(xs)
  {
    hide Byte1, Byte2, Byte3, Sextet1, Sextet2, Sextet3, Sextet4, Sextets, Bytes;
    if |xs| == 2 {
      TwoSextets(xs[0], xs[1]);
      assert xs == [xs[0], xs[1]];
    } else if |xs| == 3 {
      ThreeSextets(xs[0], xs[1], xs[2]);
      assert xs == [xs[0], xs[1], xs[2]];
    } else {
      NoSextets(xs);
    }
  }

  lemma NoSextets(xs: seq<Sextet>)
    requires |xs| < 2
    ensures Sextets(Bytes(xs)) == []
  {
  }

  lemma TwoSextets(p: Sextet, q: Sextet)
    ensures Sextets(Bytes([p, q])) == [p, Sextet2(Byte1(p, q), 0)]
    ensures Sextet2(Byte1(p, q), 0) == q <==> q % 16 == 0
  {
    hide Byte1, Byte2, Byte3, Sextet1, Sextet2, Sextet3, Sextet4;
    FourSextets(p, q, 0, 0);
    assert Bytes([p, q]) == [Byte1(p, q)];
  }

  lemma ThreeSextets(p: Sextet, q: Sextet, r: Sextet)
    ensures Sextets(Bytes([p, q, r])) == [p, q, Sextet3(Byte2(q, r), 0)]
    ensures Sextet3(Byte2(q, r), 0) == r <==> r % 4 == 0
  {
    hide Byte1, Byte2, Byte3, Sextet1, Sextet2, Sextet3, Sextet4;
    FourSextets(p, q, r, 0);
    assert Bytes([p, q, r]) == [Byte1(p, q), Byte2(q, r)];
  }

  // ----- The alphabets -----

  function UrlChar(x: Sextet): CodeUnit { Swap(Swap(StdChar(x), PLUS, MINUS), SLASH, UNDERSCORE) }

  predicate IsUrlSafe(c: CodeUnit) {
    || 'A' as int <= c <= 'Z' as int || 'a' as int <= c <= 'z' as int || '0' as int <= c <= '9' as int
    || c == MINUS || c == UNDERSCORE
  }

  function UrlChars(xs: seq<Sextet>): Text {
    seq(|xs|, i requires 0 <= i < |xs| => UrlChar(xs[i]))
  }

  lemma CharFacts(x: Sextet)
    ensures IsUrlSafe(UrlChar(x)) && UrlChar(x) != EQUALS && !IsAsciiSpace(StdChar(x)) && StdChar(x) != EQUALS
    ensures Swap(Swap(UrlChar(x), MINUS, PLUS), UNDERSCORE, SLASH) == StdChar(x)
    ensures StdValue(StdChar(x)) == Some(x)
  {
  }

  lemma {:induction false} StripRepeat(t: Text, n: nat)
    requires t == [] || t[|t| - 1] != EQUALS
    ensures StripEquals(t + Repeat(EQUALS, n)) == t
  {
    var all := t + Repeat(EQUALS, n);
    if n > 0 {
      assert all[..|all| - 1] == t + Repeat(EQUALS, n - 1);
      StripRepeat(t, n - 1);
    } else {
      assert all == t;
    }
  }

  // The encoder's steps leave one URL-safe character for each group.
  lemma EncodedIsUrlChars(bytes: seq<Byte>)
    ensures UrlEncoded(bytes) == UrlChars(Sextets(bytes))
  {
    hide Sextets, StdChar;
    var xs := Sextets(bytes);
    var n := (3 - |bytes| % 3) % 3;
    var r := ReplaceAll(ReplaceAll(Btoa(bytes), PLUS, MINUS), SLASH, UNDERSCORE);
    assert r == UrlChars(xs) + Repeat(EQUALS, n);
    if xs != [] {
      CharFacts(xs[|xs| - 1]);
    }
    StripRepeat(UrlChars(xs), n);
  }

  lemma NormalisedUrlChars(xs: seq<Sextet>)
    ensures Normalised(UrlChars(xs)) == StdChars(xs)
  {
    hide StdChar, UrlChar, Swap;
    forall i | 0 <= i < |xs|
      ensures Normalised(UrlChars(xs))[i] == StdChar(xs[i])
    {
      CharFacts(xs[i]);
    }
  }

  lemma {:induction false} NoSpaces(t: Text)
    requires forall i :: 0 <= i < |t| ==> !IsAsciiSpace(t[i])
    ensures DropSpaces(t) == t
  {
    if t != [] {
      NoSpaces(t[1..]);
    }
  }

  lemma {:induction false} ValuesOfChars(xs: seq<Sextet>)
    ensures Values(StdChars(xs)) == Some(xs)
  {
    hide StdChar, StdValue;
    if xs != [] {
      CharFacts(xs[0]);
      assert StdChars(xs)[0] == StdChar(xs[0]) && StdChars(xs)[1..] == StdChars(xs[1..]);
      ValuesOfChars(xs[1..]);
      assert [xs[0]] + xs[1..] == xs;
    } else {
      assert StdChars(xs) == [];
    }
  }

  // The padding decodeJwt adds is the padding atob takes away.
  lemma PaddingTaken(t: Text)
    requires |t| % 4 != 1 && forall i :: 0 <= i < |t| ==> !IsAsciiSpace(t[i]) && t[i] != EQUALS
    ensures DropPadding(DropSpaces(Padded(t))) == t
  {
    hide DropSpaces;
    var p := Padded(t);
    NoSpaces(p);
    PaddedLength(|t|);
    assert p[..|t|] == t;
  }

  lemma PaddedLength(n: nat)
    requires n % 4 != 1
    ensures (n + (4 - n % 4) % 4) % 4 == 0 && (4 - n % 4) % 4 <= 2
  {
  }

  lemma AtobOfPadded(xs: seq<Sextet>)
    requires |xs| % 4 != 1
    ensures Atob(Padded(StdChars(xs))) == Some(Bytes(xs))
  {
    hide StdChar, Bytes;
    hide Values, DropPadding, DropSpaces, Padded;
    forall i | 0 <= i < |xs|
      ensures !IsAsciiSpace(StdChar(xs[i])) && StdChar(xs[i]) != EQUALS
    {
      CharFacts(xs[i]);
    }
    PaddingTaken(StdChars(xs));
    ValuesOfChars(xs);
  }

  // ----- Main results -----

  // Every byte sequence survives.
  lemma RoundTrip(bytes: seq<Byte>)
    ensures UrlDecoded(UrlEncoded(bytes)) == Some(bytes)
  {
    hide UrlEncoded, Atob, Normalised, Sextets, Bytes;
    var xs := Sextets(bytes);
    SextetCount(bytes);
    EncodedIsUrlChars(bytes);
    NormalisedUrlChars(xs);
    AtobOfPadded(xs);
    BytesOfSextets(bytes);
  }

  // The group a URL-safe character stands for.
  function UrlValue(c: CodeUnit): Sextet
    requires IsUrlSafe(c)
  {
    StdValue(Swap(Swap(c, MINUS, PLUS), UNDERSCORE, SLASH)).value
  }

  function Groups(t: Text): seq<Sextet>
    requires UrlSafe(t)
  {
    seq(|t|, i requires 0 <= i < |t| => UrlValue(t[i]))
  }

  predicate UrlSafe(t: Text) {
    forall i :: 0 <= i < |t| ==> IsUrlSafe(t[i])
  }

  lemma UrlValueFacts(c: CodeUnit)
    requires IsUrlSafe(c)
    ensures UrlChar(UrlValue(c)) == c
  {
  }

  lemma GroupsOfText(t: Text)
    requires UrlSafe(t)
    ensures UrlChars(Groups(t)) == t
  {
    hide UrlChar, UrlValue;
    forall i | 0 <= i < |t|
      ensures UrlChars(Groups(t))[i] == t[i]
    {
      UrlValueFacts(t[i]);
    }
  }

  // The other way round, a URL-safe text is decoded exactly when its length is not
  // 1 modulo 4, and it is then what the encoder makes of its bytes exactly when no
  // bits are left over at its end.
  lemma EncodesBack(t: Text)
    requires UrlSafe(t)
    ensures UrlDecoded(t).Some? <==> |t| % 4 != 1
    ensures UrlDecoded(t).Some? ==> (UrlEncoded(UrlDecoded(t).value) == t <==> Canonical(Groups(t)))
  {
    hide UrlEncoded, UrlDecoded, Canonical, UrlValue, UrlSafe;
    GroupsOfText(t);
    assert |Groups(t)| == |t|;
    if |t| % 4 != 1 {
      GroupsEncodeBack(Groups(t));
    } else {
      OddLengthFails(Groups(t));
    }
  }

  lemma GroupsEncodeBack(xs: seq<Sextet>)
    requires |xs| % 4 != 1
    ensures UrlDecoded(UrlChars(xs)) == Some(Bytes(xs))
    ensures UrlEncoded(Bytes(xs)) == UrlChars(xs) <==> Canonical(xs)
  {
    hide UrlEncoded, Atob, Normalised, Sextets, Bytes, UrlChar, StdChar;
    NormalisedUrlChars(xs);
    AtobOfPadded(xs);
    EncodedIsUrlChars(Bytes(xs));
    SextetsOfBytes(xs);
    if UrlEncoded(Bytes(xs)) == UrlChars(xs) {
      UrlCharsInjective(Sextets(Bytes(xs)), xs);
    }
  }

  // Three equals signs are one more than atob takes away.
  lemma OddLengthFails(xs: seq<Sextet>)
    requires |xs| % 4 == 1
    ensures UrlDecoded(UrlChars(xs)) == None
  {
    hide StdChar, Bytes, Normalised, UrlChars, Values, DropSpaces;
    NormalisedUrlChars(xs);
    var t := StdChars(xs);
    forall i | 0 <= i < |t|
      ensures !IsAsciiSpace(t[i]) && t[i] != EQUALS
    {
      CharFacts(xs[i]);
    }
    var p := Padded(t);
    assert p == t + [EQUALS, EQUALS, EQUALS];
    NoSpaces(p);
    assert p[..|p| - 2] == t + [EQUALS];
    NoEqualsValue(t);
  }

  lemma {:induction false} NoEqualsValue(t: Text)
    ensures Values(t + [EQUALS]).None?
  {
    var all := t + [EQUALS];
    if t != [] {
      assert all[1..] == t[1..] + [EQUALS];
      NoEqualsValue(t[1..]);
    }
  }

  lemma UrlCharsInjective(a: seq<Sextet>, b: seq<Sextet>)
    requires UrlChars(a) == UrlChars(b)
    ensures a == b
  {
    hide StdChar, UrlChar;
    assert |UrlChars(a)| == |UrlChars(b)|;
    forall i | 0 <= i < |a|
      ensures a[i] == b[i]
    {
      assert UrlChars(a)[i] == UrlChars(b)[i];
      CharFacts(a[i]);
      CharFacts(b[i]);
    }
  }

  lemma Injective(a: seq<Byte>, b: seq<Byte>)
    requires UrlEncoded(a) == UrlEncoded(b)
    ensures a == b
  {
    RoundTrip(a);
    RoundTrip(b);
  }

  // Length and alphabet: a verifier of 32 bytes has 43 characters, a state of 16
  // has 22, all of them unreserved.
  lemma Shape(bytes: seq<Byte>)
    ensures |UrlEncoded(bytes)| == (4 * |bytes| + 2) / 3
    ensures forall i :: 0 <= i < |UrlEncoded(bytes)| ==> IsUrlSafe(UrlEncoded(bytes)[i])
    ensures |bytes| == 32 ==> |UrlEncoded(bytes)| == 43
    ensures |bytes| == 16 ==> |UrlEncoded(bytes)| == 22
  {
    hide UrlEncoded, Sextets, UrlChar, IsUrlSafe;
    SextetCount(bytes);
    EncodedIsUrlChars(bytes);
    var xs := Sextets(bytes);
    forall i | 0 <= i < |xs|
      ensures IsUrlSafe(UrlChars(xs)[i])
    {
      CharFacts(xs[i]);
    }
  }

  // White space does not matter to atob: tab, line feed, form feed, carriage
  // return and space.
  lemma SpacesIgnored(c: CodeUnit, t: Text)
    requires c in [9, 10, 12, 13, 32]
    ensures Atob([c] + t) == Atob(t)
  {
    assert ([c] + t)[1..] == t;
  }

  // The example of Appendix A of RFC 7636.
  lemma AppendixA()
    ensures UrlEncoded([3, 236, 255, 224, 193]) == Ascii("A-z_4ME")
  {
    hide UrlEncoded;
    var bytes: seq<Byte> := [3, 236, 255, 224, 193];
    EncodedIsUrlChars(bytes);
    assert bytes[3..] == [224, 193];
    assert Sextets(bytes[3..]) == [56, 12, 4];
    assert Sextets(bytes) == [0, 62, 51, 63, 56, 12, 4];
  }
}
