// The printer and the parser together: what the browser makes of the frames the
// server emits, of a whole body and of one that is cut off.
module Pipeline {
  import opened Text
  import opened Json
  import opened Frames
  import opened Client
  import opened Chunking

  // The callbacks one server frame is meant to cause.
  function CallsOf(f: Frame): seq<Call> {
    match f
    case Token(text) => if text == [] then [] else [OnToken(Utf16(text))]
    case Usage(_, _) => [OnUsage(ReceivedObject(f.Fields()))]
    case Done => [OnDone]
    case Error(failure) => [OnError(Server, MessageOf(failure))]
  }

  function CallsOfAll(frames: seq<Frame>): seq<Call> {
    if frames == [] then [] else CallsOf(frames[0]) + CallsOfAll(frames[1..])
  }

  predicate NoTerminal(frames: seq<Frame>) {
    forall i :: 0 <= i < |frames| ==> !frames[i].Terminal()
  }

  // ----- Framing -----

  // The only line feeds of a frame are the three the server puts there, and it
  // has no carriage return.
  lemma FrameShape(f: Frame)
    ensures forall i :: 0 <= i < |f.Wire()| ==> f.Wire()[i] != CR
    ensures forall i :: 0 <= i < |f.Body()| && i != |f.EventLine()| ==> f.Body()[i] != LF
    ensures |f.EventLine()| + 1 < |f.Body()|
  {
    LinesPlain(f);
    hide Frame.EventName, Frame.Fields, DumpObject;
    var (e, d) := (f.EventLine(), f.DataLine());
    assert forall i :: 0 <= i < |f.Body()| ==>
      f.Body()[i] == if i < |e| then e[i] else if i == |e| then LF else d[i - |e| - 1];
    assert |d| >= 6;
  }

  lemma FrameBoundary(f: Frame, rest: Text)
    ensures IndexOfFrameBoundary(f.Wire() + rest) == |f.Body()|
    ensures (f.Wire() + rest)[..|f.Body()|] == f.Body()
    ensures DropBoundary((f.Wire() + rest)[|f.Body()|..]) == rest
  {
    FrameShape(f);
    hide Frame.Body, IndexOfFrameBoundary, DropBoundary;
    var n := |f.Body()|;
    var s := f.Wire() + rest;
    assert s[..n] == f.Body() && s[n..n + 2] == LFLF;
    forall j | j < n
      ensures !OccursAt(s, LFLF, j) && !OccursAt(s, CRLFCRLF, j)
    {
      if 0 <= j {
        assert s[j] == f.Wire()[j] == f.Body()[j] && s[j + 1] == f.Wire()[j + 1];
        OccursMeans(s, j);
        BodyHasNoBoundary(f, j);
      }
    }
    BoundaryIsFirst(s, n);
    BoundaryAt(s);
    assert s[n + 2..] == rest;
  }

  lemma BodyHasNoBoundary(f: Frame, j: nat)
    requires j < |f.Body()|
    ensures f.Wire()[j] != LF || f.Wire()[j + 1] != LF
  {
    FrameShape(f);
    hide DumpObject, Frame.EventName, Frame.Fields;
    assert f.Wire()[j] == f.Body()[j];
    if j == |f.EventLine()| {
      assert f.Wire()[j + 1] == f.Body()[j + 1] == f.DataLine()[0];
      assert f.DataLine()[0] == Ascii("data: ")[0] == 'd' as int;
    }
  }

  // A frame that is not complete yet holds no boundary.
  lemma NoBoundaryYet(f: Frame, k: nat)
    requires k < |f.Wire()|
    ensures IndexOfFrameBoundary(f.Wire()[..k]) == -1
  {
    var (a, b) := (f.Wire()[..k], f.Wire()[k..]);
    assert f.Wire() == a + b && f.Wire() + [] == f.Wire();
    FrameBoundary(f, []);
    hide Frame.Body, IndexOfFrameBoundary, DropBoundary;
    var i := IndexOfFrameBoundary(a);
    if i != -1 {
      BoundaryStable(a, b);
      BoundaryAt(a);
      FrameShape(f);
      OccursMeans(a, i);
    }
  }

  // ----- Reading one frame -----

  lemma TwoLines(x: Text, y: Text)
    requires forall i :: 0 <= i < |x| ==> x[i] != LF && x[i] != CR
    requires forall i :: 0 <= i < |y| ==> y[i] != LF
    ensures SplitLines(x) == [x]
    ensures SplitLines(x + [LF] + y) == [x, y]
  {
    var s := x + [LF] + y;
    FirstLine(x, y);
    FirstLine(y, []);
    assert s[..|x|] == x && s[|x| + 1..] == y;
  }

  lemma TrimAfterSpace(t: Text)
    requires t != [] && !JsBlanks.Has(t[0]) && !JsBlanks.Has(t[|t| - 1])
    ensures JsTrim([SPACE] + t) == t
  {
    var s := [SPACE] + t;
    assert JsBlanks.Skip(s, 0) == JsBlanks.Skip(s, 1) == 1;
    assert s[1..] == t && s[|s| - 1] == t[|t| - 1];
  }

  lemma NameIsTrim(f: Frame)
    ensures f.EventName() != [] && Ascii("[DONE]") != f.EventName()
    ensures forall i :: 0 <= i < |f.EventName()| ==> 'a' as int <= f.EventName()[i] <= 'z' as int
    ensures |f.EventName()| <= 5
  {
  }

  lemma ReadEventLine(f: Frame, fields: Client.Fields)
    ensures ReadLine(fields, f.EventLine()) == fields.(event := f.EventName())
  {
    var line := f.EventLine();
    NameIsTrim(f);
    hide Frame.EventName, JsTrim;
    assert line[0] == 'e' as int;
    assert line[..6] == Ascii("event:");
    assert line[6..] == [SPACE] + f.EventName();
    TrimAfterSpace(f.EventName());
  }

  // The part of a frame's data line that a cut leaves to the reader.
  function CutData(f: Frame, m: nat): Text
    requires m <= |f.DataLine()|
  {
    if m <= 6 then [] else f.DataLine()[6..m]
  }

  lemma ReadDataLine(f: Frame, m: nat, event: Text)
    requires m <= |f.DataLine()|
    ensures JoinWith(ReadLine(Client.Fields(event, []), f.DataLine()[..m]).data, LF) == CutData(f, m)
    ensures ReadLine(Client.Fields(event, []), f.DataLine()[..m]).event == event
  {
    hide DumpObject, Frame.Fields, JsTrim;
    var line := f.DataLine()[..m];
    if m > 0 {
      assert line[0] == 'd' as int;
    }
    if m >= 5 {
      assert line[..5] == Ascii("data:");
      if m >= 6 {
        assert line[5..][0] == SPACE && line[5..][1..] == f.DataLine()[6..m];
      } else {
        assert line[5..] == [];
      }
    }
  }

  // A frame cut after its event line is read as that event, with as much data
  // as there is.
  lemma InterpretCut(f: Frame, m: nat)
    requires m <= |f.DataLine()|
    ensures Interpret(f.EventLine() + [LF] + f.DataLine()[..m]) == Dispatch(f.EventName(), CutData(f, m))
    ensures Interpret(f.EventLine()) == Dispatch(f.EventName(), [])
  {
    LinesPlain(f);
    var (x, y) := (f.EventLine(), f.DataLine()[..m]);
    TwoLines(x, y);
    ReadEventLine(f, NoFields);
    ReadDataLine(f, m, f.EventName());
    hide *;
    InterpretLines(x, y);
  }

  lemma InterpretLines(x: Text, y: Text)
    requires SplitLines(x) == [x] && SplitLines(x + [LF] + y) == [x, y]
    requires ReadLine(NoFields, x).data == []
    ensures
      var f := ReadLine(ReadLine(NoFields, x), y);
      && Interpret(x + [LF] + y) == Dispatch(f.event, JoinWith(f.data, LF))
      && Interpret(x) == Dispatch(ReadLine(NoFields, x).event, [])
  {
    hide SplitLines, ReadLine, Dispatch;
    var f1 := ReadLine(NoFields, x);
    assert [x, y][1..] == [y] && [y][1..] == [];
    assert ReadLines(f1, [y]) == ReadLine(f1, y);
    assert ReadLines(NoFields, [x, y]) == ReadLine(f1, y);
    assert ReadLines(NoFields, [x]) == f1;
  }

  // Data that is a nonempty prefix of a printed object never reads as the
  // [DONE] sentinel.
  lemma DataIsNoSentinel(data: Text)
    requires data == [] || data[0] == LBRACE
    ensures JsTrim(data) != Ascii("[DONE]")
  {
    if data != [] {
      assert JsTrim(data) == [] || JsTrim(data)[0] == LBRACE;
    }
    assert Ascii("[DONE]")[0] == LBRACKET;
  }

  lemma DispatchFinishes(f: Frame, data: Text)
    requires data == [] || data[0] == LBRACE
    ensures Dispatch(f.EventName(), data).finished == f.Terminal()
  {
    DataIsNoSentinel(data);
    hide JsTrim, TokenCalls, UsageCalls, ExtractErrorMessage;
    NamesDiffer(f);
  }

  lemma NamesDiffer(f: Frame)
    ensures (f.EventName() == Ascii("token")) == f.Token?
    ensures (f.EventName() == Ascii("usage")) == f.Usage?
    ensures (f.EventName() == Ascii("done")) == f.Done?
    ensures (f.EventName() == Ascii("error")) == f.Error?
    ensures f.EventName() != Ascii("message")
  {
    var (t, u, d, e) := (Ascii("token"), Ascii("usage"), Ascii("done"), Ascii("error"));
    assert t[0] == 't' as int && u[0] == 'u' as int && d[0] == 'd' as int && e[0] == 'e' as int;
  }

  lemma DumpedObject(f: Frame)
    ensures DumpObject(f.Fields())[0] == LBRACE
    ensures JsTrim(DumpObject(f.Fields())) == DumpObject(f.Fields())
    ensures JsonParse(DumpObject(f.Fields())) == Some(ReceivedObject(f.Fields()))
  {
    var d := DumpObject(f.Fields());
    ObjectRoundTrip(f.Fields());
    hide JsTrim, JsonParse, ReceivedObject, Frame.Fields;
    assert d[0] == LBRACE && d[|d| - 1] == RBRACE;
    hide DumpObject;
    NothingToTrim(d);
  }

  lemma OneMember(f: Field)
    ensures ReceivedMembers([f]) == [ReceivedField(f)]
  {
    hide ReceivedField;
    assert [f][1..] == [];
    assert ReceivedMembers([f][1..]) == [];
  }

  lemma TwoMembers(f: Field, g: Field)
    ensures ReceivedMembers([f, g]) == [ReceivedField(f), ReceivedField(g)]
  {
    hide ReceivedField;
    OneMember(g);
    assert [f, g][1..] == [g];
  }

  lemma TokenTextRead(text: PyString)
    ensures TextOf(ReceivedObject(Token(text).Fields())) == Utf16(text)
  {
    var f := Field(Ascii("text"), Str(text));
    OneMember(f);
    AsciiUtf16("text");
    hide Utf16, ReceivedMembers;
    assert ReceivedField(f) == (Ascii("text"), String(Utf16(text)));
    assert Lookup(ReceivedObject([f]), Ascii("text")) == Some(String(Utf16(text)));
  }

  lemma {:induction false} AsciiUnits(t: Text)
    requires forall i :: 0 <= i < |t| ==> t[i] < 128
    ensures Utf16(t) == t
  {
    if t != [] {
      AsciiUnits(t[1..]);
    }
  }

  lemma AsciiUtf16(s: string)
    ensures Utf16(Ascii(s)) == Ascii(s)
  {
    AsciiUnits(Ascii(s));
  }

  lemma ErrorMessageRead(failure: Failure)
    ensures StringProperty(ReceivedObject(Error(failure).Fields()), Ascii("message")) == Some(MessageOf(failure))
  {
    hide Utf16, MessageOf, CodeOf, ReceivedObject, Lookup;
    var message := MessageOf(failure);
    AsciiUtf16("message");
    AsciiUnits(message);
    LastMember(Field(Ascii("code"), Str(CodeOf(failure))), Field(Ascii("message"), Str(message)));
  }

  lemma LastMember(f: Field, g: Field)
    ensures Lookup(ReceivedObject([f, g]), Utf16(g.key)) == Some(Received(g.value))
  {
    hide Utf16, Received;
    TwoMembers(f, g);
  }

  lemma FirstMember(f: Field, g: Field)
    requires Utf16(f.key) != Utf16(g.key)
    ensures Lookup(ReceivedObject([f, g]), Utf16(f.key)) == Some(Received(f.value))
  {
    hide Utf16, Received;
    TwoMembers(f, g);
    var ms := [ReceivedField(f), ReceivedField(g)];
    assert ms[..1] == [ReceivedField(f)];
    assert LookupIn(ms[..1], Utf16(f.key)) == Some(Received(f.value));
  }

  // The object a usage callback gets holds the two numbers sent.
  lemma UsageNumbersRead(p: int, c: int)
    ensures
      var usage := ReceivedObject(Usage(p, c).Fields());
      && CallsOf(Usage(p, c)) == [OnUsage(usage)]
      && Lookup(usage, Ascii("prompt_tokens")) == Some(Number(DumpInt(p))) && IntValue(DumpInt(p)) == p
      && Lookup(usage, Ascii("completion_tokens")) == Some(Number(DumpInt(c))) && IntValue(DumpInt(c)) == c
  {
    hide Utf16, Lookup, ReceivedObject, DumpInt, IntValue;
    var (f, g) := (Field(Ascii("prompt_tokens"), Int(p)), Field(Ascii("completion_tokens"), Int(c)));
    AsciiUtf16("prompt_tokens");
    AsciiUtf16("completion_tokens");
    assert Ascii("prompt_tokens")[0] != Ascii("completion_tokens")[0];
    FirstMember(f, g);
    LastMember(f, g);
    IntValueRoundTrip(p);
    IntValueRoundTrip(c);
  }

  lemma DispatchWhole(f: Frame)
    ensures Dispatch(f.EventName(), DumpObject(f.Fields())) == Outcome(CallsOf(f), f.Terminal())
  {
    hide JsTrim, DumpObject, ReceivedObject, Frame.EventName, Frame.Fields, TextOf, StringProperty;
    var d := DumpObject(f.Fields());
    DumpedObject(f);
    DataIsNoSentinel(d);
    NamesDiffer(f);
    match f
    case Token(text) => TokenTextRead(text);
    case Usage(_, _) =>
    case Done =>
    case Error(failure) => ErrorMessageRead(failure);
  }

  // A complete frame is understood as what it was.
  lemma FrameUnderstood(f: Frame)
    ensures Interpret(f.Body()) == Outcome(CallsOf(f), f.Terminal())
  {
    hide DumpObject, Interpret, Dispatch, Frame.Fields, Frame.EventName, Frame.EventLine, CallsOf;
    var n := |f.DataLine()|;
    DataStart(f);
    assert f.DataLine()[..n] == f.DataLine();
    InterpretCut(f, n);
    DispatchWhole(f);
  }

  // ----- The whole body -----

  // Frames that end nothing are drained one by one, whatever follows them.
  lemma {:induction false} DrainFrames(frames: seq<Frame>, rest: Text)
    requires NoTerminal(frames)
    ensures
      var d := Drain(rest);
      Drain(WireOf(frames) + rest) == Drained(CallsOfAll(frames) + d.calls, d.finished, d.tail)
  {
    hide Drain, CallsOf, Frame.Wire, Frame.Terminal;
    var d := Drain(rest);
    if frames == [] {
      assert WireOf(frames) + rest == rest;
      assert CallsOfAll(frames) + d.calls == d.calls;
    } else {
      var (f, more) := (frames[0], WireOf(frames[1..]) + rest);
      assert WireOf(frames) + rest == f.Wire() + more;
      DrainFrame(f, more);
      DrainFrames(frames[1..], rest);
      assert CallsOf(f) + (CallsOfAll(frames[1..]) + d.calls) == CallsOfAll(frames) + d.calls;
    }
  }

  lemma DrainFrame(f: Frame, rest: Text)
    ensures
      var d := Drain(rest);
      Drain(f.Wire() + rest) ==
        if f.Terminal() then Drained(CallsOf(f), true, rest)
        else Drained(CallsOf(f) + d.calls, d.finished, d.tail)
  {
    FrameBoundary(f, rest);
    FrameUnderstood(f);
    hide IndexOfFrameBoundary, DropBoundary, Interpret, CallsOf, Frame.Wire, Frame.Body;
  }

  lemma WholeRun(frames: seq<Frame>, last: Frame)
    requires NoTerminal(frames) && last.Terminal()
    ensures WholeBody(WireOf(frames) + last.Wire()) == Session(CallsOfAll(frames) + CallsOf(last), Finished)
  {
    DrainFrames(frames, last.Wire());
    assert last.Wire() + [] == last.Wire();
    DrainFrame(last, []);
    hide Drain, CallsOf, CallsOfAll, Frame.Wire, WireOf;
  }

  // End to end: whatever the texts hold and however the network cuts the bytes,
  // the browser fires exactly the callbacks of the frames, the terminal one last.
  lemma EndToEnd(frames: seq<Frame>, last: Frame, chunks: seq<Text>)
    requires NoTerminal(frames) && last.Terminal()
    requires Concat(chunks) == WireOf(frames) + last.Wire()
    ensures BodyCalls(Chunks(chunks)) == CallsOfAll(frames) + CallsOf(last)
    ensures ReadPhase([], Chunks(chunks)) == Session(CallsOfAll(frames) + CallsOf(last), Finished)
  {
    hide ReadPhase, CallsOf, CallsOfAll, WholeBody, WireOf, Frame.Wire, IndexOfFrameBoundary, Frame.Terminal, Concat;
    WholeRun(frames, last);
    NoBoundaryInNothing();
    ChunkIndependence([], chunks);
    assert [] + Concat(chunks) == Concat(chunks);
    var calls := CallsOfAll(frames) + CallsOf(last);
    assert calls + [] == calls;
  }

  // ----- A body that is cut off -----

  function Terminals(calls: seq<Call>): nat {
    if calls == [] then 0
    else (if calls[0].OnDone? || calls[0].OnError? then 1 else 0) + Terminals(calls[1..])
  }

  lemma {:induction false} TerminalsAppend(a: seq<Call>, b: seq<Call>)
    ensures Terminals(a + b) == Terminals(a) + Terminals(b)
  {
    if a == [] {
      assert a + b == b;
    } else {
      assert (a + b)[1..] == a[1..] + b;
      TerminalsAppend(a[1..], b);
    }
  }

  lemma InterpretTerminals(frame: Text)
    ensures Terminals(Interpret(frame).calls) == if Interpret(frame).finished then 1 else 0
  {
    hide JsTrim, ExtractErrorMessage, ExtractTokenText, JsonParse, FrameFields;
  }

  lemma {:induction false} DrainTerminals(buffer: Text)
    ensures Terminals(Drain(buffer).calls) == if Drain(buffer).finished then 1 else 0
    decreases |buffer|
  {
    hide IndexOfFrameBoundary, DropBoundary, Interpret;
    var i := IndexOfFrameBoundary(buffer);
    if i != -1 {
      BoundaryShrinks(buffer);
      InterpretTerminals(buffer[..i]);
      var rest := DropBoundary(buffer[i..]);
      DrainTerminals(rest);
      TerminalsAppend(Interpret(buffer[..i]).calls, Drain(rest).calls);
    }
  }

  lemma {:induction false} ReadTerminals(buffer: Text, chunks: seq<Read>)
    ensures Terminals(ReadPhase(buffer, chunks).calls) == if ReadPhase(buffer, chunks).ending.Finished? then 1 else 0
    decreases |chunks|
  {
    hide Drain;
    if chunks != [] && chunks[0].Chunk? {
      var d := Drain(buffer + chunks[0].text);
      DrainTerminals(buffer + chunks[0].text);
      if !d.finished {
        ReadTerminals(d.tail, chunks[1..]);
        TerminalsAppend(d.calls, ReadPhase(d.tail, chunks[1..]).calls);
      }
    }
  }

  // How many terminal callbacks a body fires, over every body, chunking and read
  // failure: one, except that a terminal frame left without its blank line is
  // flushed and then reported done once more.
  lemma TerminalCount(chunks: seq<Read>)
    ensures
      var ending := ReadPhase([], chunks).ending;
      Terminals(BodyCalls(chunks)) ==
        if ending.EndOfStream? && JsTrim(ending.tail) != [] && Interpret(JsTrim(ending.tail)).finished then 2 else 1
  {
    var s := ReadPhase([], chunks);
    ReadTerminals([], chunks);
    TerminalsAppend(s.calls, Closing(s.ending));
    hide JsTrim, Interpret, ReadPhase;
    match s.ending
    case Finished =>
    case Broken(_) =>
    case EndOfStream(tail) =>
      var flushed := if JsTrim(tail) == [] then [] else Interpret(JsTrim(tail)).calls;
      InterpretTerminals(JsTrim(tail));
      TerminalsAppend(flushed, [OnDone]);
  }

  // Trimming the front of a text that two line feeds follow.
  lemma TrimCutText(b: Text, k: nat) returns (n: nat)
    requires b != [] && !JsBlanks.Has(b[0]) && k <= |b| + 2
    ensures n <= k && n <= |b|
    ensures JsTrim((b + [LF, LF])[..k]) == b[..n]
    ensures forall i :: n <= i < k && i < |b| ==> JsBlanks.Has(b[i])
    ensures n > 0 ==> !JsBlanks.Has(b[n - 1])
  {
    var w := (b + [LF, LF])[..k];
    assert forall i :: 0 <= i < k ==> w[i] == if i < |b| then b[i] else LF;
    n := JsBlanks.SkipBack(w, 0, k);
    assert JsTrim(w) == w[..n];
    assert w[..n] == b[..n];
  }

  // The front of two lines.
  lemma TakeLines(x: Text, y: Text, n: nat)
    requires n <= |x| + 1 + |y|
    ensures n <= |x| ==> (x + [LF] + y)[..n] == x[..n]
    ensures n > |x| ==> (x + [LF] + y)[..n] == x + [LF] + y[..n - |x| - 1]
  {
  }

  // A frame that lost its end, as the flush sees it: trimmed to a position of
  // its body, and never back over the event line or the opening brace.
  lemma TrimmedCut(f: Frame, k: nat) returns (n: nat)
    requires k < |f.Wire()|
    ensures n <= k && n <= |f.Body()|
    ensures JsTrim(f.Wire()[..k]) == f.Body()[..n]
    ensures |f.EventLine()| <= k ==> |f.EventLine()| <= n
    ensures |f.EventLine()| + 7 < k ==> |f.EventLine()| + 7 < n
    ensures |f.Body()| <= k ==> n == |f.Body()|
    ensures forall i :: n <= i < k && i < |f.Body()| ==> JsBlanks.Has(f.Body()[i])
    ensures n > 0 ==> !JsBlanks.Has(f.Body()[n - 1])
  {
    FrameChars(f);
    hide Frame.EventLine, Frame.Body, JsTrim, Blanks.Has;
    n := TrimCutText(f.Body(), k);
  }

  // The characters of a frame that trimming stops at.
  lemma FrameChars(f: Frame)
    ensures
      var (b, e) := (f.Body(), f.EventLine());
      && 0 < |e| && |e| + 7 < |b|
      && !JsBlanks.Has(b[0]) && !JsBlanks.Has(b[|e| - 1]) && !JsBlanks.Has(b[|e| + 7])
      && !JsBlanks.Has(b[|b| - 1])
  {
    NameIsTrim(f);
    DataStart(f);
    DumpEnds(f);
    hide Frame.EventName, DumpObject, Frame.Fields;
    var (b, e) := (f.Body(), f.EventLine());
    assert b[0] == e[0] == 'e' as int;
    assert b[|e| - 1] == e[|e| - 1] == f.EventName()[|f.EventName()| - 1];
    assert b[|e| + 7] == f.DataLine()[6];
    assert b[|b| - 1] == f.DataLine()[|f.DataLine()| - 1] == f.DataLine()[6..][|f.DataLine()| - 7];
  }

  lemma DumpEnds(f: Frame)
    ensures DumpObject(f.Fields())[|DumpObject(f.Fields())| - 1] == RBRACE
  {
  }

  lemma DataStart(f: Frame)
    ensures |f.DataLine()| > 6 && f.DataLine()[6] == LBRACE
    ensures f.DataLine()[6..] == DumpObject(f.Fields())
  {
    hide Frame.Fields;
    assert |Ascii("data: ")| == 6;
  }

  // A cut inside the event line is no event at all.
  lemma InterpretEventCut(f: Frame, n: nat)
    requires n < |f.EventLine()|
    ensures Interpret(f.EventLine()[..n]) == Outcome([], false)
  {
    var t := f.EventLine()[..n];
    LinesPlain(f);
    TwoLines(t, []);
    assert SplitLines(t) == [t];
    var r := ReadLine(NoFields, t);
    assert FrameFields(t) == r by {
      var none: seq<Text> := [];
      assert [t][1..] == none;
      assert ReadLines(r, none) == r;
    }
    EventCutFields(f, n);
    hide FrameFields, ReadLine, JsTrim, SplitLines;
    NothingDispatched(r.event);
  }

  lemma EventCutFields(f: Frame, n: nat)
    requires n < |f.EventLine()|
    ensures
      var r := ReadLine(NoFields, f.EventLine()[..n]);
      && r.data == []
      && r.event != Ascii("done") && r.event != Ascii("error")
  {
    var t := f.EventLine()[..n];
    if n > 0 {
      assert t[0] == 'e' as int;
    }
    if n >= 6 {
      assert t[..6] == Ascii("event:");
      var m := if n == 6 then 0 else n - 7;
      EventCutName(f, n);
      NotAName(f, m);
    } else {
      assert Ascii("done")[0] != Ascii("message")[0];
      assert Ascii("error")[0] != Ascii("message")[0];
    }
  }

  lemma EventCutName(f: Frame, n: nat)
    requires 6 <= n < |f.EventLine()|
    ensures JsTrim(f.EventLine()[..n][6..]) == f.EventName()[..if n == 6 then 0 else n - 7]
  {
    NameIsTrim(f);
    var t := f.EventLine()[..n];
    hide JsTrim;
    if n <= 7 {
      assert t[6..] == [] || t[6..] == [SPACE];
      BlankTrim();
    } else {
      var name := f.EventName()[..n - 7];
      assert t[6..] == [SPACE] + name;
      hide Frame.EventName, Frame.EventLine;
      TrimAfterSpace(name);
    }
  }

  lemma BlankTrim()
    ensures JsTrim([]) == [] && JsTrim([SPACE]) == []
  {
  }

  lemma NotAName(f: Frame, n: nat)
    requires n < |f.EventName()|
    ensures f.EventName()[..n] != Ascii("done") && f.EventName()[..n] != Ascii("error")
  {
    var name := f.EventName()[..n];
    if n == 4 {
      assert name[0] == f.EventName()[0];
      assert Ascii("done")[0] == 'd' as int;
    }
  }

  lemma NothingDispatched(event: Text)
    requires event != Ascii("done") && event != Ascii("error")
    ensures Dispatch(event, []) == Outcome([], false)
  {
    DataIsNoSentinel([]);
    assert JsTrim([]) == [];
    assert JsonParse([]) == None;
  }

  // A frame cut after its event line, in terms of the printed object.
  lemma CutAfterEvent(f: Frame, n: nat)
    requires |f.EventLine()| <= n <= |f.Body()|
    ensures Interpret(f.Body()[..n]) == Dispatch(f.EventName(), KeptData(f, n))
  {
    hide KeptData, Interpret, Dispatch, Frame.EventLine, Frame.DataLine, Frame.EventName;
    var (e, d) := (f.EventLine(), f.DataLine());
    var m := if n == |e| then 0 else n - |e| - 1;
    KeptIsCut(f, n, m);
    InterpretCut(f, m);
    TakeLines(e, d, n);
    assert f.Body() == e + [LF] + d;
    assert e[..|e|] == e;
  }

  lemma KeptIsCut(f: Frame, n: nat, m: nat)
    requires |f.EventLine()| <= n <= |f.Body()| && m == (if n == |f.EventLine()| then 0 else n - |f.EventLine()| - 1)
    ensures m <= |f.DataLine()| && CutData(f, m) == KeptData(f, n)
  {
    DataStart(f);
    hide Frame.Fields, Frame.EventName, DumpObject, Frame.EventLine, Frame.DataLine;
    if m > 6 {
      SliceOfSlice(f.DataLine(), m);
    }
  }

  lemma SliceOfSlice(t: Text, m: nat)
    requires 6 <= m <= |t|
    ensures t[6..m] == t[6..][..m - 6]
  {
  }

  // As much of the printed object as the first n units of the frame hold.
  function KeptData(f: Frame, n: nat): (data: Text)
    requires n <= |f.Body()|
    ensures data == [] || data[0] == LBRACE
    ensures data <= DumpObject(f.Fields())
  {
    DataStart(f);
    var start := |f.EventLine()| + 7;
    if n <= start then [] else DumpObject(f.Fields())[..n - start]
  }

  // What the flush makes of a frame that lost its end: it ends the stream once
  // the event line of a terminal frame is there.
  lemma FlushedCut(f: Frame, k: nat)
    requires k < |f.Wire()|
    ensures
      var t := JsTrim(f.Wire()[..k]);
      t != [] && Interpret(t).finished <==> f.Terminal() && k >= |f.EventLine()|
  {
    var n := TrimmedCut(f, k);
    var e := f.EventLine();
    if n < |e| {
      TakeLines(e, f.DataLine(), n);
      InterpretEventCut(f, n);
    } else {
      CutAfterEvent(f, n);
      hide Interpret, Dispatch, KeptData, Frame.EventName;
      DispatchFinishes(f, KeptData(f, n));
      assert |e| > 0;
    }
  }

  // What has arrived of the printed object when the first k units have, as the
  // flush trims it.
  function Arrived(f: Frame, k: nat): Text {
    JsTrim(KeptData(f, if k < |f.Body()| then k else |f.Body()|))
  }

  // The flush of a frame that lost its end, told without the client: nothing
  // without its name, the event alone without its data, raw data while the object
  // is open, and the frame itself once its body is whole.
  function FlushedCalls(f: Frame, k: nat): seq<Call> {
    var start := |f.EventLine()| + 7;
    if k < |f.EventLine()| then []
    else if k <= start then
      match f
      case Done => [OnDone]
      case Error(_) => [OnError(Server, Ascii("The server reported an error."))]
      case _ => []
    else if k < |f.Body()| then
      match f
      case Token(_) => [OnToken(Arrived(f, k))]
      case Usage(_, _) => []
      case Done => [OnDone]
      case Error(_) => [OnError(Server, Arrived(f, k))]
    else CallsOf(f)
  }

  function Flush(tail: Text): seq<Call> {
    if JsTrim(tail) == [] then [] else Interpret(JsTrim(tail)).calls
  }

  // For every frame and every cut of it, this is what the client fires.
  lemma FlushIsExact(f: Frame, k: nat)
    requires k < |f.Wire()|
    ensures Flush(f.Wire()[..k]) == FlushedCalls(f, k)
  {
    hide Interpret, JsTrim, Dispatch, KeptData, CallsOf, DumpObject, Frame.EventName, Frame.Fields, JsBlanks.Has;
    var n := TrimmedCut(f, k);
    var e := f.EventLine();
    if n < |e| {
      TakeLines(e, f.DataLine(), n);
      InterpretEventCut(f, n);
    } else if k < |f.Body()| {
      ArrivedIsKept(f, k, n);
      CutAfterEvent(f, n);
      if k <= |e| + 7 {
        EmptyDispatched(f);
      } else {
        FragmentDispatched(f, KeptData(f, n));
      }
    } else {
      FrameChars(f);
      assert f.Body()[..n] == f.Body() != [];
      FrameUnderstood(f);
    }
  }

  // Trimming what has arrived of the frame trims what has arrived of its object.
  lemma ArrivedIsKept(f: Frame, k: nat, n: nat)
    requires |f.EventLine()| <= n <= k < |f.Body()|
    requires |f.EventLine()| + 7 < k ==> |f.EventLine()| + 7 < n
    requires forall i :: n <= i < k ==> JsBlanks.Has(f.Body()[i])
    requires !JsBlanks.Has(f.Body()[n - 1])
    ensures k <= |f.EventLine()| + 7 ==> KeptData(f, n) == []
    ensures |f.EventLine()| + 7 < k ==>
      && Arrived(f, k) == KeptData(f, n) == JsTrim(KeptData(f, n))
      && [] < KeptData(f, n) < DumpObject(f.Fields()) && KeptData(f, n)[0] == LBRACE
  {
    var start := |f.EventLine()| + 7;
    if start < k {
      KeptLast(f, n);
      KeptAt(f, k);
      var (w, d) := (KeptData(f, k), KeptData(f, n));
      assert w[..n - start] == d && |d| == n - start by { KeptWithin(f, n, k); }
      hide KeptData, JsTrim, DumpObject, Frame.EventName, Frame.Fields, Frame.Body, Frame.EventLine, JsBlanks.Has;
      BraceIsNoBlank();
      assert w[0] == d[0] && w != [];
      TrimEnd(w, n - start);
      NothingToTrim(d);
    }
  }

  lemma BraceIsNoBlank()
    ensures !JsBlanks.Has(LBRACE)
  {
  }

  lemma KeptWithin(f: Frame, n: nat, k: nat)
    requires |f.EventLine()| + 7 < n <= k <= |f.Body()|
    ensures KeptData(f, k)[..n - |f.EventLine()| - 7] == KeptData(f, n)
    ensures |KeptData(f, n)| == n - |f.EventLine()| - 7
  {
    DataStart(f);
    hide DumpObject, Frame.Fields, Frame.EventName;
    assert |f.DataLine()[6..]| == |DumpObject(f.Fields())|;
  }

  // The kept data, unit by unit, is the end of what has arrived of the frame.
  lemma KeptAt(f: Frame, k: nat)
    requires |f.EventLine()| + 7 < k <= |f.Body()|
    ensures |KeptData(f, k)| == k - |f.EventLine()| - 7
    ensures forall i :: 0 <= i < |KeptData(f, k)| ==> KeptData(f, k)[i] == f.Body()[|f.EventLine()| + 7 + i]
  {
    DataStart(f);
    hide DumpObject, Frame.Fields, Frame.EventName;
    var (e, d) := (f.EventLine(), f.DataLine());
    assert |d[6..]| == |DumpObject(f.Fields())|;
    forall i | 0 <= i < |KeptData(f, k)|
      ensures KeptData(f, k)[i] == f.Body()[|e| + 7 + i]
    {
      assert KeptData(f, k)[i] == d[6..][i] == d[6 + i];
      assert f.Body()[|e| + 1 + (6 + i)] == d[6 + i];
    }
  }

  lemma TrimEnd(w: Text, m: nat)
    requires 0 < m <= |w| && !JsBlanks.Has(w[0]) && !JsBlanks.Has(w[m - 1])
    requires forall i :: m <= i < |w| ==> JsBlanks.Has(w[i])
    ensures JsTrim(w) == w[..m]
  {
    hide JsBlanks.Has;
    var r := JsBlanks.SkipBack(w, 0, |w|);
    assert JsBlanks.Skip(w, 0) == 0;
    assert r == m;
  }

  lemma EmptyDispatched(f: Frame)
    ensures Dispatch(f.EventName(), []).calls ==
      if f.Done? then [OnDone]
      else if f.Error? then [OnError(Server, Ascii("The server reported an error."))]
      else []
  {
    DataIsNoSentinel([]);
    NamesDiffer(f);
    assert JsTrim([]) == [];
    assert JsonParse([]) == None;
    hide JsTrim, JsonParse, Frame.EventName;
  }

  // A cut inside the object is not JSON: a token's text and an error's message
  // are then the raw fragment.
  lemma FragmentDispatched(f: Frame, data: Text)
    requires [] < data < DumpObject(f.Fields()) && JsTrim(data) == data && data[0] == LBRACE
    ensures Dispatch(f.EventName(), data).calls ==
      if f.Token? then [OnToken(data)]
      else if f.Usage? then []
      else if f.Done? then [OnDone]
      else [OnError(Server, data)]
  {
    hide JsTrim, JsonParse, DumpObject, Frame.Fields, Frame.EventName, ExtractTokenText, ExtractErrorMessage;
    DataIsNoSentinel(data);
    NamesDiffer(f);
    CutObjectDoesNotParse(f.Fields(), |data|);
    assert DumpObject(f.Fields())[..|data|] == data;
    RawData(data);
  }

  lemma RawData(data: Text)
    requires data != [] && JsTrim(data) == data && JsonParse(data) == None
    ensures ExtractTokenText(data) == data && ExtractErrorMessage(data) == data
  {
    hide JsTrim, JsonParse;
  }

  // The call puts this text before the user.
  predicate Shows(c: Call, t: Text) {
    (c.OnToken? && c.text == t) || (c.OnError? && c.message == t)
  }

  // A cut frame puts what has arrived of its printed object before the user
  // exactly when the cut falls inside the data of a token or error frame.
  lemma FragmentShown(f: Frame, k: nat)
    requires k < |f.Wire()|
    ensures
      (Arrived(f, k) != [] && exists c :: c in Flush(f.Wire()[..k]) && Shows(c, Arrived(f, k)))
      <==> (f.Token? || f.Error?) && |f.EventLine()| + 7 < k < |f.Body()|
    ensures |f.EventLine()| + 7 < k < |f.Body()| ==>
      [] < Arrived(f, k) < DumpObject(f.Fields()) && JsonParse(Arrived(f, k)) == None
  {
    hide *;
    FlushIsExact(f, k);
    if k <= |f.EventLine()| + 7 {
      NothingArrived(f, k);
    } else if k < |f.Body()| {
      InsideCut(f, k);
      InsideShows(f, k);
    } else {
      WholeArrived(f, k);
      NeverPrinted(f);
      WholeFlushed(f, k);
    }
  }

  lemma InsideShows(f: Frame, k: nat)
    requires |f.EventLine()| + 7 < k < |f.Body()|
    ensures (exists c :: c in FlushedCalls(f, k) && Shows(c, Arrived(f, k))) <==> f.Token? || f.Error?
  {
    hide JsTrim, JsonParse, DumpObject, Frame.Fields, Frame.EventName, Frame.Body, Frame.EventLine, Arrived, KeptData, CallsOf;
    if f.Token? || f.Error? {
      assert Shows(FlushedCalls(f, k)[0], Arrived(f, k));
    }
  }

  lemma WholeFlushed(f: Frame, k: nat)
    requires |f.EventLine()| + 7 < k && |f.Body()| <= k
    ensures FlushedCalls(f, k) == CallsOf(f)
  {
    hide JsTrim, JsonParse, DumpObject, Frame.Fields, Frame.EventName, Frame.Body, Frame.EventLine, Arrived, KeptData, CallsOf;
  }

  lemma NothingArrived(f: Frame, k: nat)
    requires k <= |f.EventLine()| + 7
    ensures Arrived(f, k) == []
  {
    hide JsTrim, DumpObject, Frame.Fields, Frame.EventName;
    FrameChars(f);
    assert KeptData(f, k) == [];
    NothingLeft();
  }

  lemma NothingLeft()
    ensures JsTrim([]) == []
  {
  }

  lemma InsideCut(f: Frame, k: nat)
    requires |f.EventLine()| + 7 < k < |f.Body()|
    ensures [] < Arrived(f, k) < DumpObject(f.Fields()) && JsonParse(Arrived(f, k)) == None
  {
    hide *;
    WireLength(f);
    var n := TrimmedCut(f, k);
    ArrivedIsKept(f, k, n);
    var d := Arrived(f, k);
    CutObjectDoesNotParse(f.Fields(), |d|);
    assert DumpObject(f.Fields())[..|d|] == d;
  }

  lemma WireLength(f: Frame)
    ensures |f.Wire()| == |f.Body()| + 2
  {
    hide Frame.Body;
  }

  lemma WholeArrived(f: Frame, k: nat)
    requires |f.Body()| <= k
    ensures Arrived(f, k) == DumpObject(f.Fields())
  {
    DataStart(f);
    DumpedObject(f);
    hide JsTrim, DumpObject, Frame.Fields, Frame.EventName;
    var d := DumpObject(f.Fields());
    assert |f.DataLine()[6..]| == |d|;
    assert KeptData(f, |f.Body()|) == d;
  }

  // No whole frame shows its own printed object.
  lemma NeverPrinted(f: Frame)
    ensures forall c :: c in CallsOf(f) ==> !Shows(c, DumpObject(f.Fields()))
  {
    hide DumpObject, Frame.Fields, JsTrim, JsonParse, ReceivedObject, MessageOf, Utf16;
    match f
    case Token(text) => PrintedIsLonger(text);
    case Error(failure) =>
      DumpedObject(f);
      MessageStart(failure);
    case _ =>
  }

  lemma MessageStart(failure: Failure)
    ensures MessageOf(failure) != [] && MessageOf(failure)[0] == 'T' as int
  {
  }

  lemma {:induction false} EscapeIsLonger(s: PyString)
    ensures |Utf16(s)| <= |Escape(s)|
  {
    if s != [] {
      EscapeIsLonger(s[1..]);
    }
  }

  lemma PrintedIsLonger(text: PyString)
    ensures |Utf16(text)| < |DumpObject(Token(text).Fields())|
  {
    EscapeIsLonger(text);
    hide Escape, Utf16;
    assert [Field(Ascii("text"), Str(text))][1..] == [];
  }

  lemma KeptLast(f: Frame, n: nat)
    requires |f.EventLine()| + 7 < n < |f.Body()|
    ensures
      var data := KeptData(f, n);
      data != [] && data[|data| - 1] == f.Body()[n - 1] && data < DumpObject(f.Fields())
  {
    DataStart(f);
    hide DumpObject, Frame.Fields, Frame.EventName;
    var (e, d) := (f.EventLine(), f.DataLine());
    assert f.Body()[n - 1] == d[n - |e| - 2];
    assert d[6..][n - |e| - 8] == d[n - |e| - 2];
  }

  // ----- Every cut of every server run -----

  lemma CutRead(frames: seq<Frame>, f: Frame, k: nat, chunks: seq<Text>)
    requires NoTerminal(frames) && k < |f.Wire()|
    requires Concat(chunks) == WireOf(frames) + f.Wire()[..k]
    ensures ReadPhase([], Chunks(chunks)) == Session(CallsOfAll(frames), EndOfStream(f.Wire()[..k]))
  {
    var cut := f.Wire()[..k];
    NoBoundaryInNothing();
    ChunkIndependence([], chunks);
    DrainFrames(frames, cut);
    NoBoundaryYet(f, k);
    assert Drain(cut) == Drained([], false, cut);
    hide ReadPhase, Drain, CallsOfAll, Frame.Wire, WireOf, Frame.EventLine;
    assert [] + Concat(chunks) == Concat(chunks);
    assert CallsOfAll(frames) + [] == CallsOfAll(frames);
  }

  // However a run that ends with a terminal frame is cut and chunked, the frames
  // that arrived whole are delivered, then what the cut frame flushes to, then
  // done. So one terminal callback is fired unless the cut falls inside the
  // terminal frame after its event line; then two are.
  lemma CutRun(frames: seq<Frame>, f: Frame, k: nat, chunks: seq<Text>)
    requires NoTerminal(frames) && k < |f.Wire()|
    requires Concat(chunks) == WireOf(frames) + f.Wire()[..k]
    ensures ReadPhase([], Chunks(chunks)) == Session(CallsOfAll(frames), EndOfStream(f.Wire()[..k]))
    ensures BodyCalls(Chunks(chunks)) == CallsOfAll(frames) + FlushedCalls(f, k) + [OnDone]
    ensures Terminals(BodyCalls(Chunks(chunks))) == if f.Terminal() && k >= |f.EventLine()| then 2 else 1
  {
    hide ReadPhase, CallsOfAll, Interpret, JsTrim, Frame.Wire, WireOf, Frame.EventLine, FlushedCalls, Concat, Frame.Terminal;
    var cut := f.Wire()[..k];
    CutRead(frames, f, k, chunks);
    FlushedCut(f, k);
    FlushIsExact(f, k);
    TerminalCount(Chunks(chunks));
    var calls := CallsOfAll(frames);
    assert Closing(EndOfStream(cut)) == Flush(cut) + [OnDone];
    assert calls + (FlushedCalls(f, k) + [OnDone]) == calls + FlushedCalls(f, k) + [OnDone];
  }
}
