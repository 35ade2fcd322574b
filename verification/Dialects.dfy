// The payloads besides the server's own that spa/src/api/chat.ts understands: other
// keys, chat.completion chunks, plain text, the sentinel.
module Dialects {
  import opened Text
  import opened Json
  import opened Client
  import Pipeline

  // ----- Keyed texts -----

  // The keys a token text is looked for under, the first one winning.
  const TextKeys: seq<string> := ["text", "token", "content", "delta"]

  function Keyed(key: string, text: PyString): Field { Field(Ascii(key), Str(text)) }

  lemma PrintedTrims(fs: seq<Field>)
    ensures
      var d := DumpObject(fs);
      d != [] && d[0] == LBRACE && JsTrim(d) == d && JsonParse(d) == Some(ReceivedObject(fs))
  {
    var d := DumpObject(fs);
    ObjectRoundTrip(fs);
    hide JsTrim, JsonParse, ReceivedObject;
    assert d[0] == LBRACE && d[|d| - 1] == RBRACE;
    hide DumpObject;
    NothingToTrim(d);
  }

  lemma PrintedText(fs: seq<Field>)
    ensures ExtractTokenText(DumpObject(fs)) == TextOf(ReceivedObject(fs))
  {
    hide *;
    PrintedTrims(fs);
    ObjectText(DumpObject(fs), ReceivedObject(fs));
  }

  lemma KeysDiffer()
    ensures forall i, j :: 0 <= i < j < 4 ==> Ascii(TextKeys[i]) != Ascii(TextKeys[j])
  {
    assert Ascii(TextKeys[0])[1] == 'e' as int && Ascii(TextKeys[1])[1] == 'o' as int;
    assert Ascii(TextKeys[2])[0] == 'c' as int && Ascii(TextKeys[3])[0] == 'd' as int;
    assert Ascii(TextKeys[0])[0] == Ascii(TextKeys[1])[0] == 't' as int;
  }

  lemma OneKeyLookup(f: Field, key: Text)
    ensures Lookup(ReceivedObject([f]), key) == if key == Utf16(f.key) then Some(Received(f.value)) else None
  {
    hide Utf16, Received, Lookup;
    Pipeline.OneMember(f);
    OneLookup(Utf16(f.key), Received(f.value));
  }

  // A text under any of the four keys is the token text.
  lemma KeyedText(i: nat, text: PyString)
    requires i < 4
    ensures ExtractTokenText(DumpObject([Keyed(TextKeys[i], text)])) == Utf16(text)
  {
    var f := Keyed(TextKeys[i], text);
    PrintedText([f]);
    Pipeline.AsciiUtf16(TextKeys[i]);
    KeysDiffer();
    forall j | 0 <= j < 4
      ensures Lookup(ReceivedObject([f]), Ascii(TextKeys[j])) == if j == i then Some(String(Utf16(text))) else None
    {
      OneKeyLookup(f, Ascii(TextKeys[j]));
    }
    hide ExtractTokenText, DumpObject, ReceivedObject, Lookup, Utf16, First;
    FourKeys(ReceivedObject([f]), i, Utf16(text));
  }

  lemma FourKeys(v: Value, i: nat, text: Text)
    requires i < 4 && Lookup(v, Ascii(TextKeys[i])) == Some(String(text))
    requires forall j :: 0 <= j < i ==> Lookup(v, Ascii(TextKeys[j])) == None
    ensures TextOf(v) == text
  {
    hide Lookup, First;
    assert i > 0 ==> Lookup(v, Ascii(TextKeys[0])) == None;
    assert i > 1 ==> Lookup(v, Ascii(TextKeys[1])) == None;
    assert i > 2 ==> Lookup(v, Ascii(TextKeys[2])) == None;
  }

  // With two of them the earlier key in the list wins, in either order of members.
  lemma EarlierKeyWins(i: nat, j: nat, a: PyString, b: PyString)
    requires i < j < 4
    ensures ExtractTokenText(DumpObject([Keyed(TextKeys[i], a), Keyed(TextKeys[j], b)])) == Utf16(a)
    ensures ExtractTokenText(DumpObject([Keyed(TextKeys[j], b), Keyed(TextKeys[i], a)])) == Utf16(a)
  {
    TwoKeys(Keyed(TextKeys[i], a), Keyed(TextKeys[j], b), i, j, a, b, true);
    TwoKeys(Keyed(TextKeys[i], a), Keyed(TextKeys[j], b), i, j, a, b, false);
  }

  lemma TwoKeys(f: Field, g: Field, i: nat, j: nat, a: PyString, b: PyString, inOrder: bool)
    requires i < j < 4 && f == Keyed(TextKeys[i], a) && g == Keyed(TextKeys[j], b)
    ensures ExtractTokenText(DumpObject(if inOrder then [f, g] else [g, f])) == Utf16(a)
  {
    var fs := if inOrder then [f, g] else [g, f];
    PrintedText(fs);
    Pipeline.AsciiUtf16(TextKeys[i]);
    Pipeline.AsciiUtf16(TextKeys[j]);
    KeysDiffer();
    var v := ReceivedObject(fs);
    if inOrder {
      Pipeline.FirstMember(f, g);
    } else {
      Pipeline.LastMember(g, f);
    }
    forall k | 0 <= k < i
      ensures Lookup(v, Ascii(TextKeys[k])) == None
    {
      NoMember(fs[0], fs[1], Ascii(TextKeys[k]));
    }
    hide ExtractTokenText, DumpObject, ReceivedObject, Lookup, Utf16, First;
    FourKeys(v, i, Utf16(a));
  }

  lemma NoMember(f: Field, g: Field, key: Text)
    requires Utf16(f.key) != key && Utf16(g.key) != key
    ensures Lookup(ReceivedObject([f, g]), key) == None
  {
    hide Utf16, Received;
    Pipeline.TwoMembers(f, g);
    var ms := [ReceivedField(f), ReceivedField(g)];
    assert ms[..1] == [ReceivedField(f)];
    assert LookupIn(ms[..1], key) == None;
  }

  // An error message is read from "message", or from "error".
  lemma KeyedError(text: PyString)
    ensures ExtractErrorMessage(DumpObject([Keyed("message", text)])) == Utf16(text)
    ensures ExtractErrorMessage(DumpObject([Keyed("error", text)])) == Utf16(text)
  {
    ErrorUnder("message", text);
    ErrorUnder("error", text);
    assert Ascii("message")[0] != Ascii("error")[0];
    hide ExtractErrorMessage;
  }

  lemma ErrorUnder(key: string, text: PyString)
    ensures Ascii(key) == Ascii("message") || (Ascii(key) == Ascii("error") && Ascii(key) != Ascii("message")) ==>
      ExtractErrorMessage(DumpObject([Keyed(key, text)])) == Utf16(text)
  {
    var f := Keyed(key, text);
    PrintedTrims([f]);
    Pipeline.AsciiUtf16(key);
    hide JsTrim, JsonParse, ReceivedObject, DumpObject, Lookup, Utf16;
    OneKeyLookup(f, Ascii("message"));
    OneKeyLookup(f, Ascii("error"));
  }

  // ----- Chat completion chunks -----

  // An object of one member and an array of one item around a printed value.
  lemma OneMemberRead(key: PyString, x: Text, v: Value, rest: Text)
    requires ParseValue(x + [RBRACE] + rest) == Ok(v, [RBRACE] + rest)
    ensures ParseValue([LBRACE] + DumpString(key) + [COLON] + x + [RBRACE] + rest) == Ok(Object([(Utf16(key), v)]), rest)
  {
    hide *;
    var body := DumpString(key) + [COLON] + (x + [RBRACE] + rest);
    StartsQuoted(key, x + [RBRACE] + rest);
    MemberRead(key, x + [RBRACE] + rest, v, rest);
    Grouped(DumpString(key), x, rest);
    ObjectStart([LBRACE] + body, body);
  }

  lemma StartsQuoted(key: PyString, value: Text)
    ensures DumpString(key) + [COLON] + value != [] && (DumpString(key) + [COLON] + value)[0] == QUOTE
  {
    hide Escape;
  }

  lemma Grouped(key: Text, x: Text, rest: Text)
    ensures [LBRACE] + key + [COLON] + x + [RBRACE] + rest == [LBRACE] + (key + [COLON] + (x + [RBRACE] + rest))
  {
  }

  lemma MemberRead(key: PyString, value: Text, v: Value, rest: Text)
    requires ParseValue(value) == Ok(v, [RBRACE] + rest)
    ensures ParseMembers(DumpString(key) + [COLON] + value) == Ok([(Utf16(key), v)], rest)
  {
    hide ParseValue, ParseKey, ParseMembers, DumpString, Utf16;
    KeyRoundTrip(key, value);
    NothingToSkip([RBRACE] + rest);
    MembersStep(DumpString(key) + [COLON] + value, value, Utf16(key), v, [RBRACE] + rest);
    assert ([RBRACE] + rest)[1..] == rest;
  }

  lemma ObjectStart(s: Text, body: Text)
    requires s == [LBRACE] + body && body != [] && body[0] == QUOTE
    ensures ParseValue(s) == match ParseMembers(body) case Fail => Fail case Ok(ms, rest) => Ok(Object(ms), rest)
  {
    hide ParseMembers;
    NothingToSkip(s);
    NothingToSkip(body);
    assert s[1..] == body;
  }

  lemma OneItemRead(x: Text, v: Value, rest: Text)
    requires x != [] && x[0] == LBRACE && ParseValue(x + [RBRACKET] + rest) == Ok(v, [RBRACKET] + rest)
    ensures ParseValue([LBRACKET] + x + [RBRACKET] + rest) == Ok(Array([v]), rest)
  {
    var body := x + [RBRACKET] + rest;
    var s := [LBRACKET] + x + [RBRACKET] + rest;
    assert s == [LBRACKET] + body && body[0] == LBRACE;
    hide ParseValue, ParseArray;
    ItemsOne(body, v, rest);
    ArrayStart(s, body);
  }

  lemma ItemsOne(body: Text, v: Value, rest: Text)
    requires body != [] && body[0] == LBRACE && ParseValue(body) == Ok(v, [RBRACKET] + rest)
    ensures ParseArray(body) == Ok(Array([v]), rest)
  {
    hide ParseValue, SkipSpace, ParseItems;
    NothingToSkip(body);
    NothingToSkip([RBRACKET] + rest);
    ItemsStep(body, v, [RBRACKET] + rest);
    assert ([RBRACKET] + rest)[1..] == rest;
  }

  // ParseItems, one item at a time.
  lemma ItemsStep(s: Text, v: Value, c: Text)
    requires ParseValue(s) == Ok(v, c)
    ensures ParseItems(s) ==
      if Starts(c, RBRACKET) then Ok([v], SkipSpace(c)[1..])
      else if Starts(c, COMMA) then Before(v, ParseItems(SkipSpace(c)[1..]))
      else Fail
  {
    hide ParseValue, Starts, SkipSpace;
  }

  lemma ArrayStart(s: Text, body: Text)
    requires s == [LBRACKET] + body
    ensures ParseValue(s) == ParseArray(body)
  {
    hide ParseArray;
    NothingToSkip(s);
    assert s[1..] == body;
  }

  // {"choices":[{"delta":{"content":...}}]}
  function ChunkText(text: PyString): Text {
    var content := [LBRACE] + DumpString(Ascii("content")) + [COLON] + DumpString(text) + [RBRACE];
    var delta := [LBRACE] + DumpString(Ascii("delta")) + [COLON] + content + [RBRACE];
    [LBRACE] + DumpString(Ascii("choices")) + [COLON] + ([LBRACKET] + delta + [RBRACKET]) + [RBRACE]
  }

  function ChunkValue(text: Text): Value {
    Object([(Ascii("choices"), Array([Object([(Ascii("delta"), Object([(Ascii("content"), String(text))]))])]))])
  }

  lemma ChunkRead(text: PyString)
    ensures JsonParse(ChunkText(text)) == Some(ChunkValue(Utf16(text)))
  {
    hide *;
    var content := [LBRACE] + DumpString(Ascii("content")) + [COLON] + DumpString(text) + [RBRACE];
    var delta := [LBRACE] + DumpString(Ascii("delta")) + [COLON] + content + [RBRACE];
    var list := [LBRACKET] + delta + [RBRACKET];
    var (v1, none) := (Object([(Ascii("content"), String(Utf16(text)))]), []);
    Pipeline.AsciiUtf16("content");
    Pipeline.AsciiUtf16("delta");
    Pipeline.AsciiUtf16("choices");
    var r1 := [RBRACE] + ([RBRACKET] + ([RBRACE] + none));
    var r2 := [RBRACKET] + ([RBRACE] + none);
    StringValueRoundTrip(text, [RBRACE] + r1);
    assert DumpString(text) + [RBRACE] + r1 == DumpString(text) + ([RBRACE] + r1);
    OneMemberRead(Ascii("content"), DumpString(text), String(Utf16(text)), r1);
    assert content + [RBRACE] + r2 == content + r1;
    OneMemberRead(Ascii("delta"), content, v1, r2);
    assert delta + [RBRACKET] + ([RBRACE] + none) == delta + r2;
    OneItemRead(delta, Object([(Ascii("delta"), v1)]), [RBRACE] + none);
    assert list + [RBRACE] + none == list + ([RBRACE] + none);
    OneMemberRead(Ascii("choices"), list, Array([Object([(Ascii("delta"), v1)])]), none);
    ChunkIs(text);
    WholeParsed(ChunkText(text), ChunkValue(Utf16(text)));
  }

  lemma ChunkIs(text: PyString)
    ensures
      var content := [LBRACE] + DumpString(Ascii("content")) + [COLON] + DumpString(text) + [RBRACE];
      var delta := [LBRACE] + DumpString(Ascii("delta")) + [COLON] + content + [RBRACE];
      var list := [LBRACKET] + delta + [RBRACKET];
      ChunkText(text) == [LBRACE] + DumpString(Ascii("choices")) + [COLON] + list + [RBRACE] + []
    ensures ChunkValue(Utf16(text)) ==
      Object([(Ascii("choices"), Array([Object([(Ascii("delta"), Object([(Ascii("content"), String(Utf16(text)))]))])]))])
  {
    hide DumpString, Utf16;
  }

  lemma WholeParsed(s: Text, v: Value)
    requires ParseValue(s) == Ok(v, [])
    ensures JsonParse(s) == Some(v)
  {
    hide ParseValue;
  }

  // The content of an OpenAI chunk is the token text.
  lemma ChunkContent(text: PyString)
    ensures ExtractTokenText(ChunkText(text)) == Utf16(text)
  {
    hide *;
    var s := ChunkText(text);
    ChunkRead(text);
    ChunkEnds(text);
    NothingToTrim(s);
    ChunkTextOf(Utf16(text));
    ObjectText(s, ChunkValue(Utf16(text)));
  }

  lemma ChunkEnds(text: PyString)
    ensures
      var s := ChunkText(text);
      s != [] && s[0] == LBRACE && !JsBlanks.Has(s[0]) && !JsBlanks.Has(s[|s| - 1])
  {
    hide DumpString;
  }

  lemma ObjectText(data: Text, v: Value)
    requires data != [] && data[0] == LBRACE && JsTrim(data) == data && JsonParse(data) == Some(v)
    ensures ExtractTokenText(data) == TextOf(v)
  {
    hide JsTrim, JsonParse, TextOf;
  }

  lemma ChunkTextOf(text: Text)
    ensures TextOf(ChunkValue(text)) == text
  {
    var v := ChunkValue(text);
    assert Ascii("choices")[1] == 'h' as int && Ascii("content")[1] == 'o' as int;
    assert Ascii("choices")[0] == 'c' as int && Ascii("text")[0] == Ascii("token")[0] == 't' as int;
    assert Ascii("delta")[0] == 'd' as int;
    OneLookup(Ascii("choices"), v.members[0].1);
    OneLookup(Ascii("delta"), v.members[0].1.items[0].members[0].1);
    OneLookup(Ascii("content"), String(text));
    hide Lookup;
  }

  lemma OneLookup(key: Text, v: Value)
    ensures forall k :: Lookup(Object([(key, v)]), k) == if k == key then Some(v) else None
  {
    var ms: seq<(Text, Value)>, none: seq<(Text, Value)> := [(key, v)], [];
    assert ms[..0] == none;
    forall k
      ensures Lookup(Object(ms), k) == if k == key then Some(v) else None
    {
      assert LookupIn(none, k) == None;
    }
  }

  // ----- Plain text and the sentinel -----

  // Text that is no object or array is the token text as it is.
  lemma PlainTextShown(data: Text)
    requires JsTrim(data) == [] || (JsTrim(data)[0] != LBRACE && JsTrim(data)[0] != LBRACKET)
    ensures ExtractTokenText(data) == data
  {
  }

  // The sentinel ends the stream under every event name, blanks around it or not.
  lemma SentinelEnds(event: Text, w: Text, v: Text)
    requires AllBlank(JsBlanks, w) && AllBlank(JsBlanks, v)
    ensures Dispatch(event, w + Ascii("[DONE]") + v) == Outcome([OnDone], true)
  {
    var p := Ascii("[DONE]");
    assert p[0] == LBRACKET && p[5] == RBRACKET;
    TrimExact(w, p, v);
    hide JsTrim;
    assert w + p + v != [];
  }

  // A data line without an event is a token.
  lemma UnlabelledToken(data: Text)
    requires forall i :: 0 <= i < |data| ==> data[i] != LF && data[i] != CR
    requires data != [] && data[0] != SPACE && JsTrim(data) != Ascii("[DONE]")
    ensures Interpret(Ascii("data: ") + data) == Outcome(TokenCalls(data), false)
    ensures Interpret(Ascii("data:") + data) == Outcome(TokenCalls(data), false)
  {
    hide JsTrim, TokenCalls, Interpret, ReadLine;
    var (x, y) := (Ascii("data: ") + data, Ascii("data:") + data);
    DataLineFields(data);
    DataLine(x, data);
    DataLine(y, data);
  }

  lemma DataLineFields(data: Text)
    requires data != [] && data[0] != SPACE
    ensures ReadLine(NoFields, Ascii("data: ") + data) == Client.Fields(Ascii("message"), [data])
    ensures ReadLine(NoFields, Ascii("data:") + data) == Client.Fields(Ascii("message"), [data])
  {
    hide JsTrim;
    var (x, y) := (Ascii("data: ") + data, Ascii("data:") + data);
    assert x[0] == y[0] == 'd' as int;
    assert x[..5] == Ascii("data:") && x[5..] == [SPACE] + data && ([SPACE] + data)[1..] == data;
    assert y[..5] == Ascii("data:") && y[5..] == data;
  }

  lemma DataLine(line: Text, data: Text)
    requires forall i :: 0 <= i < |line| ==> line[i] != LF
    requires ReadLine(NoFields, line) == Client.Fields(Ascii("message"), [data])
    requires data != [] && JsTrim(data) != Ascii("[DONE]")
    ensures Interpret(line) == Outcome(TokenCalls(data), false)
  {
    hide JsTrim, TokenCalls, ReadLine;
    SplitFirst(line, []);
    var none: seq<Text>, f := [], ReadLine(NoFields, line);
    assert [line][1..] == none && ReadLines(f, none) == f;
    assert FrameFields(line) == f && JoinWith([data], LF) == data;
    hide FrameFields, JoinWith, SplitLines;
    var (t, u, d, e) := (Ascii("token"), Ascii("usage"), Ascii("done"), Ascii("error"));
    assert t[0] == 't' as int && u[0] == 'u' as int && d[0] == 'd' as int && e[0] == 'e' as int;
    assert Ascii("message")[0] == 'm' as int;
  }
}
