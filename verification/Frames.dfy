// The server's event-stream contract: the frames stream_chat emits and the
// bytes _sse makes of them.
module Frames {
  import opened Text
  import opened Json

  datatype Failure = Unavailable | Timeout | ModelError

  function CodeOf(f: Failure): (t: Text)
    ensures forall i :: 0 <= i < |t| ==> t[i] < 128
  {
    match f
    case Unavailable => Ascii("MODEL_UNAVAILABLE")
    case Timeout => Ascii("MODEL_TIMEOUT")
    case ModelError => Ascii("MODEL_ERROR")
  }

  function MessageOf(f: Failure): (t: Text)
    ensures forall i :: 0 <= i < |t| ==> t[i] < 128
  {
    match f
    case Unavailable => Ascii("The model is unavailable.")
    case Timeout => Ascii("The model timed out.")
    case ModelError => Ascii("The model returned an error.")
  }

  datatype Frame =
    | Token(text: PyString)
    | Usage(prompt: int, completion: int)
    | Done
    | Error(failure: Failure)
  {
    function EventName(): Text {
      match this
      case Token(_) => Ascii("token")
      case Usage(_, _) => Ascii("usage")
      case Done => Ascii("done")
      case Error(_) => Ascii("error")
    }

    function Fields(): seq<Field> {
      match this
      case Token(text) => [Field(Ascii("text"), Str(text))]
      case Usage(p, c) => [Field(Ascii("prompt_tokens"), Int(p)), Field(Ascii("completion_tokens"), Int(c))]
      case Done => []
      case Error(f) => [Field(Ascii("code"), Str(CodeOf(f))), Field(Ascii("message"), Str(MessageOf(f)))]
    }

    function EventLine(): Text { Ascii("event: ") + EventName() }

    function DataLine(): Text { Ascii("data: ") + DumpObject(Fields()) }

    // The frame without the blank line that ends it.
    function Body(): Text { EventLine() + [LF] + DataLine() }

    function Wire(): Text { Body() + [LF, LF] }

    predicate Terminal() { Done? || Error? }
  }

  function WireOf(frames: seq<Frame>): Text {
    if frames == [] then [] else frames[0].Wire() + WireOf(frames[1..])
  }

  // Printable ASCII: what json.dumps leaves once everything else is escaped.
  predicate Plain(t: Text) {
    forall i :: 0 <= i < |t| ==> 32 <= t[i] <= 126
  }

  lemma {:induction false} EscapePlain(s: PyString)
    ensures Plain(Escape(s))
  {
    if s != [] {
      assert Plain(EscapePoint(s[0]));
      EscapePlain(s[1..]);
    }
  }

  lemma {:induction false} DigitsPlain(n: nat)
    ensures Plain(Digits(n))
  {
    assert forall i :: 0 <= i < |Digits(n)| ==> IsDigit(Digits(n)[i]);
  }

  lemma FieldPlain(f: Field)
    ensures Plain(DumpField(f))
  {
    EscapePlain(f.key);
    match f.value
    case Str(text) => EscapePlain(text);
    case Int(n) => DigitsPlain(if n < 0 then -n else n);
  }

  lemma {:induction false} FieldsPlain(fs: seq<Field>)
    requires fs != []
    ensures Plain(DumpFields(fs))
  {
    FieldPlain(fs[0]);
    if |fs| > 1 {
      FieldsPlain(fs[1..]);
    }
  }

  // No text a model produces can put a line break, or anything else outside
  // printable ASCII, into a frame.
  lemma ObjectPlain(fs: seq<Field>)
    ensures Plain(DumpObject(fs))
  {
    if fs != [] {
      FieldsPlain(fs);
    }
  }

  lemma NamePlain(f: Frame)
    ensures Plain(f.EventName())
  {
    match f
    case Token(_) => assert Plain(Ascii("token"));
    case Usage(_, _) => assert Plain(Ascii("usage"));
    case Done => assert Plain(Ascii("done"));
    case Error(_) => assert Plain(Ascii("error"));
  }

  lemma LinesPlain(f: Frame)
    ensures Plain(f.EventLine()) && Plain(f.DataLine())
  {
    NamePlain(f);
    ObjectPlain(f.Fields());
    hide DumpObject, Frame.Fields, Frame.EventName;
    assert Plain(Ascii("event: ")) && Plain(Ascii("data: "));
  }

  // ----- The bytes on the wire -----

  function Quoted(s: string): Text { [QUOTE] + Ascii(s) + [QUOTE] }

  // A frame in two lines: an event with a name, and data in braces.
  function WireText(event: string, members: Text): Text {
    Ascii("event: ") + Ascii(event) + [LF] + (Ascii("data: ") + ([LBRACE] + members + [RBRACE])) + [LF, LF]
  }

  // Printable ASCII other than the quote and the backslash is not escaped.
  lemma {:induction false} PlainStays(s: PyString)
    requires forall i :: 0 <= i < |s| ==> 32 <= s[i] <= 126 && s[i] != QUOTE && s[i] != BACKSLASH
    ensures Escape(s) == s
  {
    if s != [] {
      PlainStays(s[1..]);
    }
  }

  lemma PlainQuoted(s: string)
    requires PlainText(s)
    ensures DumpString(Ascii(s)) == Quoted(s)
  {
    PlainStays(Ascii(s));
  }

  lemma OneFieldPrinted(f: Field)
    ensures DumpObject([f]) == [LBRACE] + (DumpString(f.key) + [COLON] + DumpScalar(f.value)) + [RBRACE]
  {
    hide DumpString, DumpScalar;
  }

  lemma TwoFieldsPrinted(f: Field, g: Field)
    ensures DumpObject([f, g]) ==
      [LBRACE] + (DumpString(f.key) + [COLON] + DumpScalar(f.value) + [COMMA]
                  + (DumpString(g.key) + [COLON] + DumpScalar(g.value))) + [RBRACE]
  {
    hide DumpString, DumpScalar;
    assert [f, g][1..] == [g];
    assert DumpFields([g]) == DumpField(g);
    assert DumpFields([f, g]) == DumpField(f) + [COMMA] + DumpField(g);
  }

  lemma WireAs(f: Frame, event: string, members: Text)
    requires f.EventName() == Ascii(event) && DumpObject(f.Fields()) == [LBRACE] + members + [RBRACE]
    ensures f.Wire() == WireText(event, members)
  {
    hide Frame.EventName, Frame.Fields, DumpObject;
  }

  // A token frame is the escaped text between fixed characters.
  lemma TokenWire(text: PyString)
    ensures Token(text).Wire() == WireText("token", Quoted("text") + [COLON] + DumpString(text))
  {
    OneFieldPrinted(Field(Ascii("text"), Str(text)));
    PlainQuoted("text");
    hide DumpString, DumpObject, Quoted;
  }

  lemma UsageWire(p: int, c: int)
    ensures Usage(p, c).Wire() ==
      WireText("usage",
        Quoted("prompt_tokens") + [COLON] + DumpInt(p) + [COMMA] + (Quoted("completion_tokens") + [COLON] + DumpInt(c)))
  {
    var (f, g) := (Field(Ascii("prompt_tokens"), Int(p)), Field(Ascii("completion_tokens"), Int(c)));
    var frame := Usage(p, c);
    assert frame.Fields() == [f, g] && frame.EventName() == Ascii("usage");
    hide *;
    TwoFieldsPrinted(f, g);
    KeysPlain();
    PlainQuoted("prompt_tokens");
    PlainQuoted("completion_tokens");
    assert DumpScalar(Int(p)) == DumpInt(p) && DumpScalar(Int(c)) == DumpInt(c) by { IntsPrinted(p); IntsPrinted(c); }
    WireAs(frame, "usage",
      Quoted("prompt_tokens") + [COLON] + DumpInt(p) + [COMMA] + (Quoted("completion_tokens") + [COLON] + DumpInt(c)));
  }

  lemma IntsPrinted(n: int)
    ensures DumpScalar(Int(n)) == DumpInt(n)
  {
  }

  lemma DoneWire()
    ensures Done.Wire() == WireText("done", [])
  {
    assert [LBRACE] + [] + [RBRACE] == DumpObject([]);
  }

  // What a failed call is called on the wire.
  function PublicCode(f: Failure): string {
    match f
    case Unavailable => "MODEL_UNAVAILABLE"
    case Timeout => "MODEL_TIMEOUT"
    case ModelError => "MODEL_ERROR"
  }

  function PublicMessage(f: Failure): string {
    match f
    case Unavailable => "The model is unavailable."
    case Timeout => "The model timed out."
    case ModelError => "The model returned an error."
  }

  lemma ErrorWire(f: Failure)
    ensures Error(f).Wire() ==
      WireText("error",
        Quoted("code") + [COLON] + Quoted(PublicCode(f)) + [COMMA] + (Quoted("message") + [COLON] + Quoted(PublicMessage(f))))
  {
    var (code, message) := (PublicCode(f), PublicMessage(f));
    PublicNames(f);
    var (c, m) := (Field(Ascii("code"), Str(Ascii(code))), Field(Ascii("message"), Str(Ascii(message))));
    var frame := Error(f);
    assert frame.Fields() == [c, m] && frame.EventName() == Ascii("error");
    PublicPlain(f);
    hide *;
    KeysPlain();
    TwoFieldsPrinted(c, m);
    PlainQuoted("code");
    PlainQuoted("message");
    PlainQuoted(code);
    PlainQuoted(message);
    StringsPrinted(Ascii(code));
    StringsPrinted(Ascii(message));
    WireAs(frame, "error", Quoted("code") + [COLON] + Quoted(code) + [COMMA] + (Quoted("message") + [COLON] + Quoted(message)));
  }

  lemma StringsPrinted(s: PyString)
    ensures DumpScalar(Str(s)) == DumpString(s)
  {
  }

  predicate PlainText(s: string) {
    forall i :: 0 <= i < |s| ==> ' ' <= s[i] <= '~' && s[i] != '"' && s[i] != '\\'
  }

  lemma KeysPlain()
    ensures PlainText("prompt_tokens") && PlainText("completion_tokens") && PlainText("code") && PlainText("message")
  {
  }

  lemma PublicPlain(f: Failure)
    ensures PlainText(PublicCode(f)) && PlainText(PublicMessage(f))
  {
    PlainCode(f);
    PlainMessage(f);
    hide *;
  }

  lemma PlainCode(f: Failure)
    ensures PlainText(PublicCode(f))
  {
    match f
    case Unavailable => assert PlainText("MODEL_UNAVAILABLE");
    case Timeout => assert PlainText("MODEL_TIMEOUT");
    case ModelError => assert PlainText("MODEL_ERROR");
  }

  lemma PlainMessage(f: Failure)
    ensures PlainText(PublicMessage(f))
  {
    match f
    case Unavailable => assert PlainText("The model is unavailable.");
    case Timeout => assert PlainText("The model timed out.");
    case ModelError => assert PlainText("The model returned an error.");
  }

  lemma PublicNames(f: Failure)
    ensures CodeOf(f) == Ascii(PublicCode(f)) && MessageOf(f) == Ascii(PublicMessage(f))
  {
  }
}
