// json.dumps with its default ASCII escaping, as the server prints frames, and
// JSON.parse (RFC 8259), as the browser reads them back.
module Json {
  import opened Text

  const QUOTE: CodeUnit := '"' as int
  const BACKSLASH: CodeUnit := '\\' as int
  const COLON: CodeUnit := ':' as int
  const COMMA: CodeUnit := ',' as int
  const LBRACE: CodeUnit := '{' as int
  const RBRACE: CodeUnit := '}' as int
  const LBRACKET: CodeUnit := '[' as int
  const RBRACKET: CodeUnit := ']' as int
  const MINUS: CodeUnit := '-' as int

  // ----- Printing (Python) -----

  // The values a server frame holds: strings and integers, in one flat object.
  datatype Scalar = Str(text: PyString) | Int(n: int)
  datatype Field = Field(key: PyString, value: Scalar)

  function HexDigit(n: int): CodeUnit
    requires 0 <= n < 16
  {
    if n < 10 then '0' as int + n else 'a' as int + (n - 10)
  }

  function Hex4(u: CodeUnit): (t: Text)
    ensures |t| == 4
  {
    [HexDigit(u / 0x1000), HexDigit(u / 0x100 % 16), HexDigit(u / 0x10 % 16), HexDigit(u % 16)]
  }

  function UnicodeEscape(u: CodeUnit): Text {
    [BACKSLASH, 'u' as int] + Hex4(u)
  }

  function EscapePoint(c: CodePoint): Text {
    if c == QUOTE || c == BACKSLASH then [BACKSLASH, c]
    else if c == 10 then [BACKSLASH, 'n' as int]
    else if c == 13 then [BACKSLASH, 'r' as int]
    else if c == 9 then [BACKSLASH, 't' as int]
    else if c == 12 then [BACKSLASH, 'f' as int]
    else if c == 8 then [BACKSLASH, 'b' as int]
    else if 32 <= c <= 126 then [c]
    else if c < 0x1_0000 then UnicodeEscape(c)
    else UnicodeEscape(HighSurrogate(c)) + UnicodeEscape(LowSurrogate(c))
  }

  function Escape(s: PyString): Text {
    if s == [] then [] else EscapePoint(s[0]) + Escape(s[1..])
  }

  function DumpString(s: PyString): Text {
    [QUOTE] + Escape(s) + [QUOTE]
  }

  function Digits(n: nat): (t: Text)
    ensures t != []
    ensures forall i :: 0 <= i < |t| ==> IsDigit(t[i])
    ensures t[0] == '0' as int <==> n == 0
    ensures n == 0 ==> |t| == 1
  {
    if n < 10 then ['0' as int + n] else Digits(n / 10) + ['0' as int + n % 10]
  }

  function DumpInt(n: int): Text {
    if n < 0 then [MINUS] + Digits(-n) else Digits(n)
  }

  function DumpScalar(v: Scalar): Text {
    match v
    case Str(text) => DumpString(text)
    case Int(n) => DumpInt(n)
  }

  function DumpField(f: Field): Text {
    DumpString(f.key) + [COLON] + DumpScalar(f.value)
  }

  function DumpFields(fs: seq<Field>): Text
    requires fs != []
  {
    if |fs| == 1 then DumpField(fs[0]) else DumpField(fs[0]) + [COMMA] + DumpFields(fs[1..])
  }

  // json.dumps of a flat dict with separators (',', ':').
  function DumpObject(fs: seq<Field>): Text {
    [LBRACE] + (if fs == [] then [] else DumpFields(fs)) + [RBRACE]
  }

  // ----- Parsing (browser) -----

  // A parsed value. A number keeps its lexeme; an object keeps its members in
  // source order, the last one of a repeated key being the one read back.
  datatype Value =
    | Null
    | Bool(b: bool)
    | Number(lexeme: Text)
    | String(text: Text)
    | Array(items: seq<Value>)
    | Object(members: seq<(Text, Value)>)

  // What a reading function found at the front of a text, and what follows it.
  datatype Parse<+T> = Fail | Ok(value: T, rest: Text)

  predicate IsDigit(u: CodeUnit) { '0' as int <= u <= '9' as int }

  function SkipSpace(s: Text): (r: Text)
    ensures |r| <= |s|
  {
    s[JsonBlanks.Skip(s, 0)..]
  }

  function HexValue(u: CodeUnit): (v: Option<int>)
    ensures v.Some? ==> 0 <= v.value < 16
  {
    if IsDigit(u) then Some(u - '0' as int)
    else if 'a' as int <= u <= 'f' as int then Some(u - 'a' as int + 10)
    else if 'A' as int <= u <= 'F' as int then Some(u - 'A' as int + 10)
    else None
  }

  // One possibly escaped character of a string body.
  function ParseChar(s: Text): (r: Parse<CodeUnit>)
    requires s != []
    ensures r.Ok? ==> |r.rest| < |s|
  {
    if s[0] < 32 then Fail
    else if s[0] != BACKSLASH then Ok(s[0], s[1..])
    else if |s| < 2 then Fail
    else if s[1] == QUOTE || s[1] == BACKSLASH || s[1] == '/' as int then Ok(s[1], s[2..])
    else if s[1] == 'b' as int then Ok(8, s[2..])
    else if s[1] == 'f' as int then Ok(12, s[2..])
    else if s[1] == 'n' as int then Ok(10, s[2..])
    else if s[1] == 'r' as int then Ok(13, s[2..])
    else if s[1] == 't' as int then Ok(9, s[2..])
    else if s[1] == 'u' as int && |s| >= 6 then ParseHex4(s[2], s[3], s[4], s[5], s[6..])
    else Fail
  }

  function ParseHex4(a: CodeUnit, b: CodeUnit, c: CodeUnit, d: CodeUnit, rest: Text): (r: Parse<CodeUnit>)
    ensures r.Ok? ==> r.rest == rest
  {
    match (HexValue(a), HexValue(b), HexValue(c), HexValue(d))
    case (Some(a'), Some(b'), Some(c'), Some(d')) => Ok(a' * 0x1000 + b' * 0x100 + c' * 0x10 + d', rest)
    case _ => Fail
  }

  // A string body up to and including its closing quote.
  function ParseChars(s: Text): (r: Parse<Text>)
    ensures r.Ok? ==> |r.rest| < |s|
  {
    if s == [] then Fail
    else if s[0] == QUOTE then Ok([], s[1..])
    else
      match ParseChar(s)
      case Fail => Fail
      case Ok(u, more) =>
        match ParseChars(more)
        case Fail => Fail
        case Ok(us, rest) => Ok([u] + us, rest)
  }

  // Where the run of digits that starts at i ends.
  function DigitsEnd(s: Text, i: nat): (end: nat)
    requires i <= |s|
    ensures i <= end <= |s|
    ensures forall k :: i <= k < end ==> IsDigit(s[k])
    ensures end < |s| ==> !IsDigit(s[end])
    decreases |s| - i
  {
    if i < |s| && IsDigit(s[i]) then DigitsEnd(s, i + 1) else i
  }

  function IntEnd(s: Text, i: nat): (end: Option<nat>)
    requires i <= |s|
    ensures end.Some? ==> i < end.value <= |s|
  {
    if i == |s| || !IsDigit(s[i]) then None
    else if s[i] == '0' as int then Some(i + 1)
    else Some(DigitsEnd(s, i))
  }

  function FractionEnd(s: Text, i: nat): (end: Option<nat>)
    requires i <= |s|
    ensures end.Some? ==> i <= end.value <= |s|
  {
    if i == |s| || s[i] != '.' as int then Some(i)
    else if DigitsEnd(s, i + 1) == i + 1 then None
    else Some(DigitsEnd(s, i + 1))
  }

  function ExponentEnd(s: Text, i: nat): (end: Option<nat>)
    requires i <= |s|
    ensures end.Some? ==> i <= end.value <= |s|
  {
    if i == |s| || (s[i] != 'e' as int && s[i] != 'E' as int) then Some(i)
    else
      var start := if i + 1 < |s| && (s[i + 1] == '+' as int || s[i + 1] == MINUS) then i + 2 else i + 1;
      if DigitsEnd(s, start) == start then None else Some(DigitsEnd(s, start))
  }

  // Where the number at the front of s ends, if there is one.
  function NumberEnd(s: Text): (end: Option<nat>)
    ensures end.Some? ==> 0 < end.value <= |s|
  {
    match IntEnd(s, if s != [] && s[0] == MINUS then 1 else 0)
    case None => None
    case Some(i) =>
      match FractionEnd(s, i)
      case None => None
      case Some(j) => ExponentEnd(s, j)
  }

  function ParseNumber(s: Text): (r: Parse<Value>)
    ensures r.Ok? ==> |r.rest| < |s|
  {
    match NumberEnd(s)
    case None => Fail
    case Some(n) => Ok(Number(s[..n]), s[n..])
  }

  // null, true, false or a number.
  function ParseAtom(s: Text): (r: Parse<Value>)
    ensures r.Ok? ==> |r.rest| < |s|
  {
    if Ascii("null") <= s then Ok(Null, s[4..])
    else if Ascii("true") <= s then Ok(Bool(true), s[4..])
    else if Ascii("false") <= s then Ok(Bool(false), s[5..])
    else ParseNumber(s)
  }

  function ParseString(s: Text): (r: Parse<Value>)
    ensures r.Ok? ==> |r.rest| < |s|
  {
    match ParseChars(s)
    case Fail => Fail
    case Ok(us, rest) => Ok(String(us), rest)
  }

  // A member's key and the colon after it.
  function ParseKey(s: Text): (r: Parse<Text>)
    ensures r.Ok? ==> |r.rest| < |s|
  {
    var t := SkipSpace(s);
    if t == [] || t[0] != QUOTE then Fail
    else
      match ParseChars(t[1..])
      case Fail => Fail
      case Ok(key, more) => if Starts(more, COLON) then Ok(key, SkipSpace(more)[1..]) else Fail
  }

  // The next character other than white space.
  predicate Starts(s: Text, u: CodeUnit) {
    SkipSpace(s) != [] && SkipSpace(s)[0] == u
  }

  // What was found later, with one more element in front.
  function Before<T>(first: T, later: Parse<seq<T>>): Parse<seq<T>> {
    match later
    case Fail => Fail
    case Ok(others, rest) => Ok([first] + others, rest)
  }

  function ParseValue(s: Text): (r: Parse<Value>)
    ensures r.Ok? ==> |r.rest| < |s|
    decreases |s|, 0
  {
    var t := SkipSpace(s);
    if t == [] then Fail
    else if t[0] == LBRACE then ParseObject(t[1..])
    else if t[0] == LBRACKET then ParseArray(t[1..])
    else if t[0] == QUOTE then ParseString(t[1..])
    else ParseAtom(t)
  }

  // An object after its opening brace.
  function ParseObject(s: Text): (r: Parse<Value>)
    ensures r.Ok? ==> |r.rest| < |s|
    decreases |s|, 2
  {
    if Starts(s, RBRACE) then Ok(Object([]), SkipSpace(s)[1..])
    else
      match ParseMembers(s)
      case Fail => Fail
      case Ok(ms, rest) => Ok(Object(ms), rest)
  }

  // One or more members and the closing brace.
  function ParseMembers(s: Text): (r: Parse<seq<(Text, Value)>>)
    ensures r.Ok? ==> |r.rest| < |s|
    decreases |s|, 1
  {
    match ParseKey(s)
    case Fail => Fail
    case Ok(key, a) =>
      match ParseValue(a)
      case Fail => Fail
      case Ok(v, c) =>
        if Starts(c, RBRACE) then Ok([(key, v)], SkipSpace(c)[1..])
        else if Starts(c, COMMA) then Before((key, v), ParseMembers(SkipSpace(c)[1..]))
        else Fail
  }

  // An array after its opening bracket.
  function ParseArray(s: Text): (r: Parse<Value>)
    ensures r.Ok? ==> |r.rest| < |s|
    decreases |s|, 2
  {
    if Starts(s, RBRACKET) then Ok(Array([]), SkipSpace(s)[1..])
    else
      match ParseItems(s)
      case Fail => Fail
      case Ok(vs, rest) => Ok(Array(vs), rest)
  }

  // One or more items and the closing bracket.
  function ParseItems(s: Text): (r: Parse<seq<Value>>)
    ensures r.Ok? ==> |r.rest| < |s|
    decreases |s|, 1
  {
    match ParseValue(s)
    case Fail => Fail
    case Ok(v, c) =>
      if Starts(c, RBRACKET) then Ok([v], SkipSpace(c)[1..])
      else if Starts(c, COMMA) then Before(v, ParseItems(SkipSpace(c)[1..]))
      else Fail
  }

  // JSON.parse: one value and nothing but white space after it.
  function JsonParse(s: Text): Option<Value> {
    match ParseValue(s)
    case Fail => None
    case Ok(v, rest) => if SkipSpace(rest) == [] then Some(v) else None
  }

  // The own property `key` of an object, its last occurrence winning.
  function Lookup(v: Value, key: Text): Option<Value> {
    if v.Object? then LookupIn(v.members, key) else None
  }

  function LookupIn(ms: seq<(Text, Value)>, key: Text): Option<Value> {
    if ms == [] then None
    else if ms[|ms| - 1].0 == key then Some(ms[|ms| - 1].1)
    else LookupIn(ms[..|ms| - 1], key)
  }

  // ----- What the browser sees of a printed object -----

  function Received(v: Scalar): Value {
    match v
    case Str(text) => String(Utf16(text))
    case Int(n) => Number(DumpInt(n))
  }

  function ReceivedField(f: Field): (Text, Value) {
    (Utf16(f.key), Received(f.value))
  }

  function ReceivedMembers(fs: seq<Field>): seq<(Text, Value)> {
    if fs == [] then [] else [ReceivedField(fs[0])] + ReceivedMembers(fs[1..])
  }

  function ReceivedObject(fs: seq<Field>): Value {
    Object(ReceivedMembers(fs))
  }

  // ----- Round trip -----

  lemma HexSum(u: CodeUnit)
    ensures u / 0x1000 * 0x1000 + u / 0x100 % 16 * 0x100 + u / 0x10 % 16 * 0x10 + u % 16 == u
  {
    assert u / 0x100 == u / 0x1000 * 16 + u / 0x100 % 16;
    assert u / 0x10 == u / 0x100 * 16 + u / 0x10 % 16;
  }

  lemma HexDigitRoundTrip(n: int)
    requires 0 <= n < 16
    ensures HexValue(HexDigit(n)) == Some(n)
  {
  }

  lemma HexRoundTrip(u: CodeUnit, rest: Text)
    ensures ParseChar(UnicodeEscape(u) + rest) == Ok(u, rest)
  {
    var s := UnicodeEscape(u) + rest;
    assert s[0] == BACKSLASH && s[1] == 'u' as int;
    assert s[2..6] == Hex4(u);
    HexDigitRoundTrip(u / 0x1000);
    HexDigitRoundTrip(u / 0x100 % 16);
    HexDigitRoundTrip(u / 0x10 % 16);
    HexDigitRoundTrip(u % 16);
    HexSum(u);
    assert s[6..] == rest;
  }

  // One printed character is read back as itself.
  lemma PlainPointRoundTrip(c: CodePoint, x: Text)
    requires c < 0x1_0000
    ensures EscapePoint(c)[0] != QUOTE
    ensures ParseChar(EscapePoint(c) + x) == Ok(c, x)
  {
    var s := EscapePoint(c) + x;
    if EscapePoint(c) == UnicodeEscape(c) {
      HexRoundTrip(c, x);
    } else if |EscapePoint(c)| == 1 {
      assert s[1..] == x;
    } else {
      assert s[2..] == x;
    }
  }

  lemma UnitRoundTrip(u: CodeUnit, escaped: Text, x: Text)
    requires escaped != [] && escaped[0] != QUOTE
    requires ParseChar(escaped + x) == Ok(u, x) && ParseChars(x).Ok?
    ensures ParseChars(escaped + x) == Ok([u] + ParseChars(x).value, ParseChars(x).rest)
  {
    assert (escaped + x)[0] == escaped[0];
  }

  lemma EscapedUnitRoundTrip(u: CodeUnit, x: Text)
    requires ParseChars(x).Ok?
    ensures ParseChars(UnicodeEscape(u) + x) == Ok([u] + ParseChars(x).value, ParseChars(x).rest)
  {
    HexRoundTrip(u, x);
    UnitRoundTrip(u, UnicodeEscape(u), x);
  }

  lemma PointRoundTrip(c: CodePoint, x: Text, us: Text, rest: Text)
    requires ParseChars(x) == Ok(us, rest)
    ensures ParseChars(EscapePoint(c) + x) == Ok(Units(c) + us, rest)
  {
    if c < 0x1_0000 {
      PlainPointRoundTrip(c, x);
      UnitRoundTrip(c, EscapePoint(c), x);
    } else {
      AstralRoundTrip(c, x, us, rest);
    }
  }

  lemma AstralRoundTrip(c: CodePoint, x: Text, us: Text, rest: Text)
    requires c >= 0x1_0000 && ParseChars(x) == Ok(us, rest)
    ensures ParseChars(EscapePoint(c) + x) == Ok(Units(c) + us, rest)
  {
    hide ParseChars, UnicodeEscape, HighSurrogate, LowSurrogate;
    var (h, l) := (HighSurrogate(c), LowSurrogate(c));
    EscapedUnitRoundTrip(l, x);
    EscapedUnitRoundTrip(h, UnicodeEscape(l) + x);
    assert EscapePoint(c) + x == UnicodeEscape(h) + (UnicodeEscape(l) + x);
    assert Units(c) + us == [h] + ([l] + us);
  }

  // Every text survives printing and parsing, as its UTF-16 form.
  lemma {:induction false} StringRoundTrip(t: PyString, rest: Text)
    ensures ParseChars(Escape(t) + [QUOTE] + rest) == Ok(Utf16(t), rest)
  {
    if t == [] {
      assert Escape(t) + [QUOTE] + rest == [QUOTE] + rest;
    } else {
      var x := Escape(t[1..]) + [QUOTE] + rest;
      StringRoundTrip(t[1..], rest);
      PointRoundTrip(t[0], x, Utf16(t[1..]), rest);
      assert Escape(t) + [QUOTE] + rest == EscapePoint(t[0]) + x;
    }
  }

  lemma {:induction false} DigitsEndAt(s: Text, i: nat, end: nat)
    requires i <= end <= |s| && (end == |s| || !IsDigit(s[end]))
    requires forall k :: i <= k < end ==> IsDigit(s[k])
    ensures DigitsEnd(s, i) == end
    decreases end - i
  {
    if i < end {
      DigitsEndAt(s, i + 1, end);
    }
  }

  // A printed integer is read up to the delimiter that follows it.
  lemma IntRoundTrip(n: int, rest: Text)
    requires rest != [] && (rest[0] == COMMA || rest[0] == RBRACE)
    ensures ParseNumber(DumpInt(n) + rest) == Ok(Number(DumpInt(n)), rest)
  {
    var s := DumpInt(n) + rest;
    var i := if n < 0 then 1 else 0;
    var ds := Digits(if n < 0 then -n else n);
    assert s[i..|DumpInt(n)|] == ds;
    assert forall k :: i <= k < |DumpInt(n)| ==> s[k] == ds[k - i];
    assert s[|DumpInt(n)|] == rest[0];
    assert s[i] == ds[0];
    DigitsEndAt(s, i, |DumpInt(n)|);
    assert IntEnd(s, i) == Some(|DumpInt(n)|);
    assert NumberEnd(s) == Some(|DumpInt(n)|);
    assert s[..|DumpInt(n)|] == DumpInt(n) && s[|DumpInt(n)|..] == rest;
  }

  // A text that does not start with white space is not changed by skipping it.
  lemma NothingToSkip(s: Text)
    requires s != [] && !JsonBlanks.Has(s[0])
    ensures SkipSpace(s) == s
  {
  }

  predicate IsDelimiter(s: Text) {
    s != [] && (s[0] == COMMA || s[0] == RBRACE)
  }

  lemma ScalarRoundTrip(v: Scalar, rest: Text)
    requires IsDelimiter(rest)
    ensures ParseValue(DumpScalar(v) + rest) == Ok(Received(v), rest)
  {
    match v
    case Str(text) => StringValueRoundTrip(text, rest);
    case Int(n) => IntValueRead(n, rest);
  }

  lemma StringValueRoundTrip(text: PyString, rest: Text)
    ensures ParseValue(DumpString(text) + rest) == Ok(String(Utf16(text)), rest)
  {
    var s := DumpString(text) + rest;
    assert s[0] == QUOTE && s[1..] == Escape(text) + [QUOTE] + rest;
    StringRoundTrip(text, rest);
    NothingToSkip(s);
    hide SkipSpace, ParseChars, Escape;
  }

  lemma IntValueRead(n: int, rest: Text)
    requires IsDelimiter(rest)
    ensures ParseValue(DumpInt(n) + rest) == Ok(Number(DumpInt(n)), rest)
  {
    hide SkipSpace, ParseNumber;
    var s := DumpInt(n) + rest;
    assert s[0] == DumpInt(n)[0];
    assert IsDigit(s[0]) || s[0] == MINUS;
    NothingToSkip(s);
    IntRoundTrip(n, rest);
    hide DumpInt;
    assert ParseAtom(s) == ParseNumber(s);
  }

  lemma KeyRoundTrip(key: PyString, rest: Text)
    ensures ParseKey(DumpString(key) + [COLON] + rest) == Ok(Utf16(key), rest)
  {
    hide SkipSpace, ParseChars, Escape, Utf16;
    var s := DumpString(key) + [COLON] + rest;
    var a := [COLON] + rest;
    assert s[0] == QUOTE && s[1..] == Escape(key) + [QUOTE] + a;
    NothingToSkip(s);
    StringRoundTrip(key, a);
    NothingToSkip(a);
    assert a[1..] == rest;
  }

  // ParseMembers, one member at a time.
  lemma MembersStep(s: Text, a: Text, key: Text, v: Value, c: Text)
    requires ParseKey(s) == Ok(key, a) && ParseValue(a) == Ok(v, c)
    ensures ParseMembers(s) ==
      if Starts(c, RBRACE) then Ok([(key, v)], SkipSpace(c)[1..])
      else if Starts(c, COMMA) then Before((key, v), ParseMembers(SkipSpace(c)[1..]))
      else Fail
  {
    hide ParseValue, ParseKey, Starts, SkipSpace;
  }

  // A printed field is read back as one member, whatever comes after it.
  lemma FieldRoundTrip(f: Field, c: Text)
    requires IsDelimiter(c)
    ensures ParseMembers(DumpField(f) + c) ==
      if c[0] == RBRACE then Ok([ReceivedField(f)], c[1..])
      else Before(ReceivedField(f), ParseMembers(c[1..]))
  {
    hide ParseMembers, ParseValue, ParseKey, Escape, Received, Utf16, DumpScalar;
    var a := DumpScalar(f.value) + c;
    assert DumpField(f) + c == DumpString(f.key) + [COLON] + a;
    KeyRoundTrip(f.key, a);
    ScalarRoundTrip(f.value, c);
    NothingToSkip(c);
    MembersStep(DumpField(f) + c, a, Utf16(f.key), Received(f.value), c);
  }

  lemma {:induction false} FieldsRoundTrip(fs: seq<Field>, rest: Text)
    requires fs != []
    ensures ParseMembers(DumpFields(fs) + [RBRACE] + rest) == Ok(ReceivedMembers(fs), rest)
  {
    hide ParseMembers, DumpField, ReceivedField;
    if |fs| == 1 {
      var c := [RBRACE] + rest;
      assert DumpFields(fs) + [RBRACE] + rest == DumpField(fs[0]) + c;
      FieldRoundTrip(fs[0], c);
      assert c[1..] == rest;
      assert ReceivedMembers(fs) == [ReceivedField(fs[0])];
    } else {
      var after := DumpFields(fs[1..]) + [RBRACE] + rest;
      var c := [COMMA] + after;
      assert DumpFields(fs) + [RBRACE] + rest == DumpField(fs[0]) + c;
      FieldRoundTrip(fs[0], c);
      assert c[1..] == after;
      FieldsRoundTrip(fs[1..], rest);
    }
  }

  lemma BodyRoundTrip(fs: seq<Field>)
    ensures ParseObject(DumpObject(fs)[1..]) == Ok(ReceivedObject(fs), [])
  {
    hide ParseMembers, DumpFields;
    var body := DumpObject(fs)[1..];
    if fs == [] {
      assert body == [RBRACE];
      NothingToSkip(body);
    } else {
      hide ReceivedMembers;
      assert body == DumpFields(fs) + [RBRACE] + [];
      FieldsRoundTrip(fs, []);
      DumpFieldsStart(fs);
      assert body[0] == QUOTE;
      NothingToSkip(body);
    }
  }

  // JSON.parse undoes json.dumps on every flat object.
  lemma ObjectRoundTrip(fs: seq<Field>)
    ensures ParseValue(DumpObject(fs)) == Ok(ReceivedObject(fs), [])
    ensures JsonParse(DumpObject(fs)) == Some(ReceivedObject(fs))
  {
    hide ParseObject, ReceivedObject, DumpFields;
    BodyRoundTrip(fs);
    NothingToSkip(DumpObject(fs));
  }

  lemma DumpFieldsStart(fs: seq<Field>)
    requires fs != []
    ensures DumpFields(fs) != [] && DumpFields(fs)[0] == QUOTE
  {
    assert DumpField(fs[0])[0] == QUOTE;
  }

  // ----- The integer behind a lexeme -----

  function DigitsValue(t: Text): int {
    if t == [] then 0 else DigitsValue(t[..|t| - 1]) * 10 + (t[|t| - 1] - '0' as int)
  }

  function IntValue(lexeme: Text): int {
    if lexeme != [] && lexeme[0] == MINUS then -DigitsValue(lexeme[1..]) else DigitsValue(lexeme)
  }

  lemma {:induction false} DigitsRoundTrip(n: nat)
    ensures DigitsValue(Digits(n)) == n
  {
    if n < 10 {
      assert Digits(n)[..0] == [];
    } else {
      DigitsRoundTrip(n / 10);
      assert Digits(n)[..|Digits(n)| - 1] == Digits(n / 10);
    }
  }

  lemma IntValueRoundTrip(n: int)
    ensures IntValue(DumpInt(n)) == n
  {
    DigitsRoundTrip(if n < 0 then -n else n);
    if n < 0 {
      assert DumpInt(n)[1..] == Digits(-n);
    }
  }

  // ----- A cut object does not parse -----

  lemma {:induction false} SkipStable(s: Text, x: Text, i: nat)
    requires i <= |s| && JsonBlanks.Skip(s, i) < |s|
    ensures JsonBlanks.Skip(s + x, i) == JsonBlanks.Skip(s, i)
    decreases |s| - i
  {
    if JsonBlanks.Has(s[i]) {
      SkipStable(s, x, i + 1);
    }
  }

  lemma SkipSpaceStable(s: Text, x: Text)
    requires SkipSpace(s) != []
    ensures SkipSpace(s + x) == SkipSpace(s) + x
  {
    SkipStable(s, x, 0);
    var n := JsonBlanks.Skip(s, 0);
    assert (s + x)[n..] == s[n..] + x;
  }

  lemma ParseCharStable(s: Text, x: Text)
    requires s != [] && ParseChar(s).Ok?
    ensures ParseChar(s + x) == Ok(ParseChar(s).value, ParseChar(s).rest + x)
  {
    var n := |s| - |ParseChar(s).rest|;
    assert ParseChar(s).rest == s[n..];
    assert forall k :: 0 <= k < |s| ==> (s + x)[k] == s[k];
    assert (s + x)[n..] == s[n..] + x;
  }

  lemma {:induction false} ParseCharsStable(s: Text, x: Text)
    requires ParseChars(s).Ok?
    ensures ParseChars(s + x) == Ok(ParseChars(s).value, ParseChars(s).rest + x)
  {
    assert (s + x)[0] == s[0];
    if s[0] == QUOTE {
      assert (s + x)[1..] == s[1..] + x;
    } else {
      ParseCharStable(s, x);
      ParseCharsStable(ParseChar(s).rest, x);
    }
  }

  lemma {:induction false} DigitsEndStable(s: Text, x: Text, i: nat)
    requires i <= |s| && DigitsEnd(s, i) < |s|
    ensures DigitsEnd(s + x, i) == DigitsEnd(s, i)
    decreases |s| - i
  {
    if IsDigit(s[i]) {
      DigitsEndStable(s, x, i + 1);
    }
  }

  lemma IntEndStable(s: Text, x: Text, i: nat)
    requires i <= |s| && IntEnd(s, i).Some? && IntEnd(s, i).value < |s|
    ensures IntEnd(s + x, i) == IntEnd(s, i)
  {
    assert (s + x)[i] == s[i];
    if s[i] != '0' as int {
      DigitsEndStable(s, x, i);
    }
  }

  lemma FractionEndStable(s: Text, x: Text, i: nat)
    requires i < |s| && FractionEnd(s, i).Some? && FractionEnd(s, i).value < |s|
    ensures FractionEnd(s + x, i) == FractionEnd(s, i)
  {
    assert (s + x)[i] == s[i];
    if s[i] == '.' as int {
      DigitsEndStable(s, x, i + 1);
    }
  }

  lemma ExponentEndStable(s: Text, x: Text, i: nat)
    requires i < |s| && ExponentEnd(s, i).Some? && ExponentEnd(s, i).value < |s|
    ensures ExponentEnd(s + x, i) == ExponentEnd(s, i)
  {
    assert (s + x)[i] == s[i];
    if s[i] == 'e' as int || s[i] == 'E' as int {
      assert (s + x)[i + 1] == s[i + 1];
      DigitsEndStable(s, x, if s[i + 1] == '+' as int || s[i + 1] == MINUS then i + 2 else i + 1);
    }
  }

  lemma NumberEndStable(s: Text, x: Text)
    requires NumberEnd(s).Some? && NumberEnd(s).value < |s|
    ensures NumberEnd(s + x) == NumberEnd(s)
  {
    assert (s + x)[0] == s[0];
    var start := if s[0] == MINUS then 1 else 0;
    var i := IntEnd(s, start).value;
    var j := FractionEnd(s, i).value;
    IntEndStable(s, x, start);
    FractionEndStable(s, x, i);
    ExponentEndStable(s, x, j);
  }

  lemma ParseNumberStable(s: Text, x: Text)
    requires ParseNumber(s).Ok? && ParseNumber(s).rest != []
    ensures ParseNumber(s + x) == Ok(ParseNumber(s).value, ParseNumber(s).rest + x)
  {
    var n := NumberEnd(s).value;
    NumberEndStable(s, x);
    assert (s + x)[..n] == s[..n] && (s + x)[n..] == s[n..] + x;
  }

  lemma ParseAtomStable(s: Text, x: Text)
    requires ParseAtom(s).Ok? && (ParseAtom(s).rest != [] || !ParseAtom(s).value.Number?)
    ensures ParseAtom(s + x) == Ok(ParseAtom(s).value, ParseAtom(s).rest + x)
  {
    var t := s + x;
    assert t[0] == s[0];
    if ParseAtom(s).value.Number? {
      assert ParseAtom(s) == ParseNumber(s);
      assert IsDigit(s[0]) || s[0] == MINUS;
      ParseNumberStable(s, x);
    } else {
      var n := |s| - |ParseAtom(s).rest|;
      assert t[n..] == s[n..] + x;
      assert t[..n] == s[..n];
    }
  }

  lemma StartsStable(s: Text, u: CodeUnit, x: Text)
    requires SkipSpace(s) != []
    ensures Starts(s + x, u) == Starts(s, u)
    ensures SkipSpace(s + x) != [] && SkipSpace(s + x)[1..] == SkipSpace(s)[1..] + x
  {
    SkipSpaceStable(s, x);
  }

  lemma ParseKeyStable(s: Text, x: Text)
    requires ParseKey(s).Ok?
    ensures ParseKey(s + x) == Ok(ParseKey(s).value, ParseKey(s).rest + x)
  {
    StartsStable(s, QUOTE, x);
    ParseCharsStable(SkipSpace(s)[1..], x);
    StartsStable(ParseChars(SkipSpace(s)[1..]).rest, COLON, x);
  }

  // What has been parsed is not changed by text that arrives later, a number at
  // the very end excepted.
  lemma {:induction false} ParseValueStable(s: Text, x: Text)
    requires ParseValue(s).Ok? && (ParseValue(s).rest != [] || !ParseValue(s).value.Number?)
    ensures ParseValue(s + x) == Ok(ParseValue(s).value, ParseValue(s).rest + x)
    decreases |s|, 0
  {
    var t := SkipSpace(s);
    SkipSpaceStable(s, x);
    assert (t + x)[0] == t[0] && (t + x)[1..] == t[1..] + x;
    if t[0] == LBRACE {
      ParseObjectStable(t[1..], x);
    } else if t[0] == LBRACKET {
      ParseArrayStable(t[1..], x);
    } else if t[0] == QUOTE {
      ParseCharsStable(t[1..], x);
    } else {
      ParseAtomStable(t, x);
    }
  }

  lemma {:induction false} ParseObjectStable(s: Text, x: Text)
    requires ParseObject(s).Ok?
    ensures ParseObject(s + x) == Ok(ParseObject(s).value, ParseObject(s).rest + x)
    decreases |s|, 2
  {
    if !Starts(s, RBRACE) {
      assert ParseKey(s).Ok?;
      ParseMembersStable(s, x);
    }
    StartsStable(s, RBRACE, x);
  }

  lemma {:induction false} ParseMembersStable(s: Text, x: Text)
    requires ParseMembers(s).Ok?
    ensures ParseMembers(s + x) == Ok(ParseMembers(s).value, ParseMembers(s).rest + x)
    decreases |s|, 1
  {
    assert ParseKey(s).Ok? && ParseValue(ParseKey(s).rest).Ok?;
    hide ParseMembers, ParseValue, ParseKey;
    var a := ParseKey(s).rest;
    var c := ParseValue(a).rest;
    MembersStep(s, a, ParseKey(s).value, ParseValue(a).value, c);
    ParseKeyStable(s, x);
    ParseValueStable(a, x);
    MembersStep(s + x, a + x, ParseKey(s).value, ParseValue(a).value, c + x);
    StartsStable(c, RBRACE, x);
    StartsStable(c, COMMA, x);
    if !Starts(c, RBRACE) {
      ParseMembersStable(SkipSpace(c)[1..], x);
    }
  }

  lemma {:induction false} ParseArrayStable(s: Text, x: Text)
    requires ParseArray(s).Ok?
    ensures ParseArray(s + x) == Ok(ParseArray(s).value, ParseArray(s).rest + x)
    decreases |s|, 2
  {
    if !Starts(s, RBRACKET) {
      assert ParseValue(s).Ok?;
      ParseItemsStable(s, x);
    }
    StartsStable(s, RBRACKET, x);
  }

  lemma {:induction false} ParseItemsStable(s: Text, x: Text)
    requires ParseItems(s).Ok?
    ensures ParseItems(s + x) == Ok(ParseItems(s).value, ParseItems(s).rest + x)
    decreases |s|, 1
  {
    var c := ParseValue(s).rest;
    ParseValueStable(s, x);
    StartsStable(c, RBRACKET, x);
    StartsStable(c, COMMA, x);
    if !Starts(c, RBRACKET) {
      ParseItemsStable(SkipSpace(c)[1..], x);
    }
  }

  lemma CutObjectIsObject(p: Text)
    requires p != [] && p[0] == LBRACE && ParseValue(p).Ok?
    ensures ParseValue(p).value.Object?
  {
    NothingToSkip(p);
  }

  // Every proper prefix of a printed object is malformed.
  lemma CutObjectDoesNotParse(fs: seq<Field>, k: nat)
    requires k < |DumpObject(fs)|
    ensures JsonParse(DumpObject(fs)[..k]) == None
  {
    var s := DumpObject(fs);
    var (p, x) := (s[..k], s[k..]);
    assert s == p + x && x != [];
    ObjectRoundTrip(fs);
    assert s[0] == LBRACE;
    hide DumpObject, ReceivedObject;
    if ParseValue(p).Ok? {
      assert p[0] == LBRACE;
      CutObjectIsObject(p);
      hide ParseValue;
      ParseValueStable(p, x);
      assert false;
    }
  }

  // A number with every part, and the shapes that are no number: a leading zero, a
  // point or an exponent without digits, a lone minus.
  lemma NumbersRead()
    ensures JsonParse(Ascii("-10.25e+3")) == Some(Number(Ascii("-10.25e+3")))
    ensures JsonParse(Ascii("01")) == None && JsonParse(Ascii("1.")) == None
    ensures JsonParse(Ascii("1e")) == None && JsonParse(Ascii("-")) == None
  {
    FullNumber();
    NoNumbers();
    assert Ascii("01")[1..] != [];
    assert Ascii("-10.25e+3")[9..] == [] && Ascii("-10.25e+3")[..9] == Ascii("-10.25e+3");
    hide *;
    NumberParsed(Ascii("-10.25e+3"));
    NumberParsed(Ascii("01"));
    NumberParsed(Ascii("1."));
    NumberParsed(Ascii("1e"));
    NumberParsed(Ascii("-"));
  }

  lemma FullNumber()
    ensures NumberEnd(Ascii("-10.25e+3")) == Some(9)
  {
    var t := Ascii("-10.25e+3");
    DigitsEndAt(t, 1, 3);
    DigitsEndAt(t, 4, 6);
    DigitsEndAt(t, 8, 9);
    hide DigitsEnd;
  }

  lemma NoNumbers()
    ensures NumberEnd(Ascii("01")) == Some(1) && NumberEnd(Ascii("1.")) == None
    ensures NumberEnd(Ascii("1e")) == None && NumberEnd(Ascii("-")) == None
  {
    var (b, c) := (Ascii("1."), Ascii("1e"));
    DigitsEndAt(b, 0, 1);
    DigitsEndAt(b, 2, 2);
    DigitsEndAt(c, 0, 1);
    DigitsEndAt(c, 2, 2);
    hide DigitsEnd;
  }

  // A text that starts like a number is that number, with nothing but white space
  // after it, or nothing.
  lemma NumberParsed(s: Text)
    requires s != [] && (IsDigit(s[0]) || s[0] == MINUS)
    ensures JsonParse(s) ==
      if NumberEnd(s).None? || SkipSpace(s[NumberEnd(s).value..]) != [] then None
      else Some(Number(s[..NumberEnd(s).value]))
    ensures NumberEnd(s).Some? && s[NumberEnd(s).value..] == [] ==> JsonParse(s).Some?
    ensures NumberEnd(s) == Some(1) && |s| == 2 && s[1] == '1' as int ==> JsonParse(s).None?
  {
    hide ParseAtom, SkipSpace, ParseObject, ParseArray, ParseString, NumberEnd, ParseValue;
    ValueIsNumber(s);
    if |s| == 2 && s[1] == '1' as int {
      NothingToSkip(s[1..]);
    }
  }

  lemma ValueIsNumber(s: Text)
    requires s != [] && (IsDigit(s[0]) || s[0] == MINUS)
    ensures ParseValue(s) == ParseNumber(s)
  {
    hide ParseAtom, SkipSpace, ParseObject, ParseArray, ParseString, ParseNumber;
    AtomIsNumber(s);
    NothingToSkip(s);
  }

  lemma AtomIsNumber(s: Text)
    requires s != [] && (IsDigit(s[0]) || s[0] == MINUS)
    ensures ParseAtom(s) == ParseNumber(s)
  {
    hide ParseNumber;
    assert Ascii("null")[0] == 'n' as int && Ascii("true")[0] == 't' as int && Ascii("false")[0] == 'f' as int;
  }

  // The three literals.
  lemma LiteralsRead()
    ensures JsonParse(Ascii("null")) == Some(Null)
    ensures JsonParse(Ascii("true")) == Some(Bool(true)) && JsonParse(Ascii("false")) == Some(Bool(false))
  {
    assert Ascii("null")[0] == 'n' as int && Ascii("true")[0] == 't' as int && Ascii("false")[0] == 'f' as int;
    assert ParseAtom(Ascii("null")) == Ok(Null, []);
    assert ParseAtom(Ascii("true")) == Ok(Bool(true), []);
    assert ParseAtom(Ascii("false")) == Ok(Bool(false), []);
    hide *;
    LetterStarts(Ascii("null"));
    LetterStarts(Ascii("true"));
    LetterStarts(Ascii("false"));
  }

  lemma LetterStarts(s: Text)
    requires s != [] && 'a' as int <= s[0] <= 'z' as int && ParseAtom(s).Ok? && ParseAtom(s).rest == []
    ensures JsonParse(s) == Some(ParseAtom(s).value)
  {
    hide ParseAtom, ParseObject, ParseArray, ParseString, SkipSpace;
    NothingToSkip(s);
  }
}
