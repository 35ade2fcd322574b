// The line-at-a-time interpretation of an event stream (section 9.2.6 of the
// WHATWG HTML Living Standard), and where the client's frame-at-a-time reading
// agrees with it.
module EventStream {
  import opened Text
  import opened Client
  import opened Chunking

  datatype Event = Event(name: Text, data: Text)

  // ----- The standard, on a stream whose lines end in LF -----

  datatype Buffers = Buffers(eventType: Text, data: Text)

  const Empty: Buffers := Buffers([], [])

  // Where the first colon of a line is, its length if there is none.
  function ColonAt(line: Text): (n: nat)
    ensures n <= |line|
  {
    if line == [] || line[0] == ':' as int then 0 else 1 + ColonAt(line[1..])
  }

  function ProcessField(b: Buffers, field: Text, value: Text): Buffers {
    if field == Ascii("event") then b.(eventType := value)
    else if field == Ascii("data") then b.(data := b.data + value + [LF])
    else b
  }

  function ProcessLine(b: Buffers, line: Text): Buffers
    requires line != []
  {
    var n := ColonAt(line);
    if n == 0 then b
    else if n == |line| then ProcessField(b, line, [])
    else ProcessField(b, line[..n], DropSpace(line[n + 1..]))
  }

  function DispatchEvent(b: Buffers): seq<Event> {
    if b.data == [] then []
    else
      var data := if b.data[|b.data| - 1] == LF then b.data[..|b.data| - 1] else b.data;
      [Event(if b.eventType == [] then Ascii("message") else b.eventType, data)]
  }

  function StandardEvents(b: Buffers, s: Text): seq<Event>
    decreases |s|
  {
    var n := LineEnd(s);
    if n == |s| then []
    else if n == 0 then DispatchEvent(b) + StandardEvents(Empty, s[1..])
    else StandardEvents(ProcessLine(b, s[..n]), s[n + 1..])
  }

  // ----- The client -----

  // The event a frame amounts to; a nameless frame without data is dropped.
  function EventOf(f: Client.Fields): seq<Event> {
    var data := JoinWith(f.data, LF);
    if data == [] && f.event == Ascii("message") then [] else [Event(f.event, data)]
  }

  function ClientEvents(s: Text): seq<Event>
    decreases |s|
  {
    var i := IndexOfFrameBoundary(s);
    if i == -1 then []
    else
      BoundaryShrinks(s);
      EventOf(FrameFields(s[..i])) + ClientEvents(DropBoundary(s[i..]))
  }

  // ----- Streams of comment, event and data lines -----

  datatype Line = Comment(value: Text) | EventField(value: Text) | DataField(value: Text)
  {
    function Written(): Text {
      match this
      case Comment(v) => Ascii(":") + v
      case EventField(v) => Ascii("event:") + v
      case DataField(v) => Ascii("data:") + v
    }

    // One line, as far as line breaks go.
    predicate Valid() {
      forall i :: 0 <= i < |value| ==> value[i] != LF && value[i] != CR
    }
  }

  // A frame: at least one line.
  type Lines = lines: seq<Line> | lines != [] && forall i :: 0 <= i < |lines| ==> lines[i].Valid()
    witness [Comment([])]

  function LinesText(lines: Lines): Text {
    if |lines| == 1 then lines[0].Written() else lines[0].Written() + [LF] + LinesText(lines[1..])
  }

  function FrameText(lines: Lines): Text {
    LinesText(lines) + [LF, LF]
  }

  function StreamText(frames: seq<Lines>): Text {
    if frames == [] then [] else FrameText(frames[0]) + StreamText(frames[1..])
  }

  // What the standard keeps of a line.
  function StandardStep(b: Buffers, line: Line): Buffers {
    match line
    case Comment(_) => b
    case EventField(v) => b.(eventType := DropSpace(v))
    case DataField(v) => b.(data := b.data + DropSpace(v) + [LF])
  }

  function StandardRead(b: Buffers, lines: seq<Line>): Buffers
    decreases |lines|
  {
    if lines == [] then b else StandardRead(StandardStep(b, lines[0]), lines[1..])
  }

  // What the client keeps of a line.
  function ClientStep(f: Client.Fields, line: Line): Client.Fields {
    match line
    case Comment(_) => f
    case EventField(v) => f.(event := JsTrim(v))
    case DataField(v) => f.(data := f.data + [DropSpace(v)])
  }

  function ClientRead(f: Client.Fields, lines: seq<Line>): Client.Fields
    decreases |lines|
  {
    if lines == [] then f else ClientRead(ClientStep(f, lines[0]), lines[1..])
  }

  function StandardFrame(lines: seq<Line>): seq<Event> {
    DispatchEvent(StandardRead(Empty, lines))
  }

  function ClientFrame(lines: seq<Line>): seq<Event> {
    EventOf(ClientRead(NoFields, lines))
  }

  // ----- The standard reads frame by frame -----

  lemma {:induction false} ColonAfter(field: Text, value: Text)
    requires forall i :: 0 <= i < |field| ==> field[i] != ':' as int
    ensures ColonAt(field + [':' as int] + value) == |field|
  {
    if field != [] {
      assert (field + [':' as int] + value)[1..] == field[1..] + [':' as int] + value;
      ColonAfter(field[1..], value);
    }
  }

  lemma FieldLine(b: Buffers, field: Text, value: Text)
    requires field != [] && forall i :: 0 <= i < |field| ==> field[i] != ':' as int
    ensures ProcessLine(b, field + [':' as int] + value) == ProcessField(b, field, DropSpace(value))
  {
    var line := field + [':' as int] + value;
    ColonAfter(field, value);
    assert line[..|field|] == field && line[|field| + 1..] == value;
  }

  lemma StandardLine(b: Buffers, line: Line)
    ensures line.Written() != []
    ensures ProcessLine(b, line.Written()) == StandardStep(b, line)
  {
    match line
    case Comment(v) => assert line.Written()[0] == ':' as int;
    case EventField(v) =>
      assert line.Written() == Ascii("event") + [':' as int] + v;
      FieldLine(b, Ascii("event"), v);
    case DataField(v) =>
      assert line.Written() == Ascii("data") + [':' as int] + v;
      assert Ascii("data")[0] == 'd' as int && Ascii("event")[0] == 'e' as int;
      FieldLine(b, Ascii("data"), v);
  }

  lemma WrittenHasNoBreak(line: Line)
    requires line.Valid()
    ensures forall i :: 0 <= i < |line.Written()| ==> line.Written()[i] != LF && line.Written()[i] != CR
    ensures line.Written() != []
  {
  }

  lemma StandardNextLine(b: Buffers, line: Line, rest: Text)
    requires line.Valid()
    ensures StandardEvents(b, line.Written() + [LF] + rest) == StandardEvents(StandardStep(b, line), rest)
  {
    var x := line.Written();
    var s := x + [LF] + rest;
    WrittenHasNoBreak(line);
    StandardLine(b, line);
    FirstLine(x, rest);
    hide Line.Written, ProcessLine, StandardStep, LineEnd;
    assert s[..|x|] == x && s[|x| + 1..] == rest;
  }

  lemma {:induction false} StandardLines(b: Buffers, lines: Lines, rest: Text)
    ensures StandardEvents(b, FrameText(lines) + rest) ==
      DispatchEvent(StandardRead(b, lines)) + StandardEvents(Empty, rest)
    decreases |lines|
  {
    hide Line.Written, StandardStep, DispatchEvent;
    var (x, b') := (lines[0].Written(), StandardStep(b, lines[0]));
    if |lines| == 1 {
      var blank := [LF] + rest;
      assert FrameText(lines) + rest == x + [LF] + blank;
      StandardNextLine(b, lines[0], blank);
      assert LineEnd(blank) == 0 && blank[1..] == rest;
      assert StandardRead(b, lines) == b' by { assert StandardRead(b', lines[1..]) == b'; }
    } else {
      assert FrameText(lines) + rest == x + [LF] + (FrameText(lines[1..]) + rest);
      StandardNextLine(b, lines[0], FrameText(lines[1..]) + rest);
      StandardLines(b', lines[1..], rest);
    }
  }

  // ----- So does the client -----

  lemma ClientLine(f: Client.Fields, line: Line)
    ensures ReadLine(f, line.Written()) == ClientStep(f, line)
  {
    hide JsTrim, DropSpace;
    var w := line.Written();
    match line
    case Comment(v) => assert w[..1] == Ascii(":");
    case EventField(v) =>
      assert w[..6] == Ascii("event:") && w[6..] == v && w[0] == 'e' as int;
    case DataField(v) =>
      assert w[..5] == Ascii("data:") && w[5..] == v && w[0] == 'd' as int;
  }

  // The unit of two texts and a line feed between them.
  lemma JoinedAt(x: Text, y: Text)
    ensures forall i :: 0 <= i < |x| + 1 + |y| ==>
      (x + [LF] + y)[i] == if i < |x| then x[i] else if i == |x| then LF else y[i - |x| - 1]
  {
  }

  lemma {:induction false} LinesHaveNoCr(lines: Lines)
    ensures LinesText(lines) != []
    ensures forall i :: 0 <= i < |LinesText(lines)| ==> LinesText(lines)[i] != CR
    decreases |lines|
  {
    WrittenHasNoBreak(lines[0]);
    hide Line.Written;
    if |lines| > 1 {
      LinesHaveNoCr(lines[1..]);
      JoinedAt(lines[0].Written(), LinesText(lines[1..]));
    }
  }

  // No line feed at either end, and no two in a row.
  predicate SingleBreaks(t: Text) {
    && t != [] && t[0] != LF && t[|t| - 1] != LF
    && forall i :: 0 <= i < |t| - 1 ==> t[i] != LF || t[i + 1] != LF
  }

  lemma {:induction false} LinesBreakOnce(lines: Lines)
    ensures SingleBreaks(LinesText(lines))
    decreases |lines|
  {
    WrittenHasNoBreak(lines[0]);
    hide Line.Written;
    if |lines| > 1 {
      LinesBreakOnce(lines[1..]);
      BreaksJoined(lines[0].Written(), LinesText(lines[1..]));
    }
  }

  lemma BreaksJoined(x: Text, y: Text)
    requires x != [] && (forall i :: 0 <= i < |x| ==> x[i] != LF) && SingleBreaks(y)
    ensures SingleBreaks(x + [LF] + y)
  {
    JoinedAt(x, y);
  }

  lemma LinesBoundary(lines: Lines, rest: Text)
    ensures
      var (t, s) := (LinesText(lines), FrameText(lines) + rest);
      IndexOfFrameBoundary(s) == |t| && s[..|t|] == t && DropBoundary(s[|t|..]) == rest
  {
    LinesHaveNoCr(lines);
    LinesBreakOnce(lines);
    hide LinesText, IndexOfFrameBoundary, DropBoundary;
    var (t, s) := (LinesText(lines), FrameText(lines) + rest);
    var n := |t|;
    assert s[n..n + 2] == LFLF;
    assert forall i :: 0 <= i < n ==> s[i] == t[i];
    assert s[n] == LF;
    forall j | j < n
      ensures !OccursAt(s, LFLF, j) && !OccursAt(s, CRLFCRLF, j)
    {
      if 0 <= j {
        OccursMeans(s, j);
      }
    }
    BoundaryIsFirst(s, n);
    BoundaryAt(s);
    assert s[n + 2..] == rest;
  }

  function WrittenLines(lines: seq<Line>): seq<Text> {
    if lines == [] then [] else [lines[0].Written()] + WrittenLines(lines[1..])
  }

  lemma {:induction false} LinesSplit(lines: Lines)
    ensures SplitLines(LinesText(lines)) == WrittenLines(lines)
    decreases |lines|
  {
    var x := lines[0].Written();
    WrittenHasNoBreak(lines[0]);
    hide Line.Written, LineEnd;
    if |lines| == 1 {
      FirstLine(x, []);
      assert WrittenLines(lines[1..]) == [];
    } else {
      var y := LinesText(lines[1..]);
      var s := x + [LF] + y;
      FirstLine(x, y);
      LinesSplit(lines[1..]);
      assert s[..|x|] == x && s[|x| + 1..] == y;
    }
  }

  lemma {:induction false} ClientLines(f: Client.Fields, lines: seq<Line>)
    ensures ReadLines(f, WrittenLines(lines)) == ClientRead(f, lines)
    decreases |lines|
  {
    hide ReadLine, ClientStep, Line.Written;
    if lines != [] {
      ClientLine(f, lines[0]);
      ClientLines(ClientStep(f, lines[0]), lines[1..]);
      assert WrittenLines(lines)[1..] == WrittenLines(lines[1..]);
    }
  }

  lemma ClientFirstFrame(lines: Lines, rest: Text)
    ensures ClientEvents(FrameText(lines) + rest) == ClientFrame(lines) + ClientEvents(rest)
  {
    LinesBoundary(lines, rest);
    LinesSplit(lines);
    ClientLines(NoFields, lines);
    hide LinesText, FrameText, IndexOfFrameBoundary, DropBoundary, EventOf, SplitLines, ReadLines;
  }

  // ----- Agreement -----

  // The value of the last event line of a frame.
  function LastName(lines: seq<Line>): Option<Text> {
    if lines == [] then None
    else if lines[|lines| - 1].EventField? then Some(lines[|lines| - 1].value)
    else LastName(lines[..|lines| - 1])
  }

  // The values of the data lines, each without the one space after its colon.
  function DataValues(lines: seq<Line>): seq<Text> {
    if lines == [] then []
    else
      var before := DataValues(lines[..|lines| - 1]);
      var last := lines[|lines| - 1];
      if last.DataField? then before + [DropSpace(last.value)] else before
  }

  // A name that is there and needs no trimming beyond the one space.
  predicate CleanName(v: Text) {
    var name := DropSpace(v);
    name != [] && !JsBlanks.Has(name[0]) && !JsBlanks.Has(name[|name| - 1])
  }

  // The condition, on the lines of a frame, under which the client reads it as the
  // standard does. Without data lines its name, if any, must trim to "message".
  // With data lines its name, if any, must be clean, and empty data must be
  // reported under another name than "message".
  predicate FrameConforms(lines: seq<Line>) {
    var name := LastName(lines);
    if DataValues(lines) == [] then name.Some? ==> JsTrim(name.value) == Ascii("message")
    else
      && (name.Some? ==> CleanName(name.value))
      && (JoinWith(DataValues(lines), LF) == [] ==> name.Some? && DropSpace(name.value) != Ascii("message"))
  }

  // What frames made with a writer's care look like: some data, and clean names.
  predicate PlainFrame(lines: seq<Line>) {
    && JoinWith(DataValues(lines), LF) != []
    && forall i :: 0 <= i < |lines| && lines[i].EventField? ==> CleanName(lines[i].value)
  }

  lemma {:induction false} LastNameIsALine(lines: seq<Line>)
    ensures LastName(lines).Some? ==>
      exists i :: 0 <= i < |lines| && lines[i].EventField? && lines[i].value == LastName(lines).value
  {
    if lines != [] && !lines[|lines| - 1].EventField? {
      var front := lines[..|lines| - 1];
      LastNameIsALine(front);
      if LastName(front).Some? {
        var i :| 0 <= i < |front| && front[i].EventField? && front[i].value == LastName(front).value;
        assert lines[i] == front[i];
      }
    }
  }

  lemma PlainConforms(lines: seq<Line>)
    requires PlainFrame(lines)
    ensures FrameConforms(lines)
  {
    hide CleanName, JsTrim, DropSpace;
    LastNameIsALine(lines);
  }

  // ----- What both readers keep, on the lines -----

  lemma {:induction false} StandardReadNext(b: Buffers, lines: seq<Line>, last: Line)
    ensures StandardRead(b, lines + [last]) == StandardStep(StandardRead(b, lines), last)
    decreases |lines|
  {
    hide StandardStep;
    var all := lines + [last];
    var none: seq<Line> := [];
    if lines == [] {
      assert all[1..] == none;
    } else {
      assert all[1..] == lines[1..] + [last];
      StandardReadNext(StandardStep(b, lines[0]), lines[1..], last);
    }
  }

  lemma {:induction false} ClientReadNext(f: Client.Fields, lines: seq<Line>, last: Line)
    ensures ClientRead(f, lines + [last]) == ClientStep(ClientRead(f, lines), last)
    decreases |lines|
  {
    hide ClientStep;
    var all := lines + [last];
    var none: seq<Line> := [];
    if lines == [] {
      assert all[1..] == none;
    } else {
      assert all[1..] == lines[1..] + [last];
      ClientReadNext(ClientStep(f, lines[0]), lines[1..], last);
    }
  }

  lemma {:induction false} ClientKeeps(lines: seq<Line>)
    ensures
      var (f, name) := (ClientRead(NoFields, lines), LastName(lines));
      && f.data == DataValues(lines)
      && f.event == if name.Some? then JsTrim(name.value) else Ascii("message")
  {
    hide JsTrim, DropSpace;
    if lines != [] {
      var (front, last) := (lines[..|lines| - 1], lines[|lines| - 1]);
      assert lines == front + [last];
      ClientReadNext(NoFields, front, last);
      ClientKeeps(front);
      hide ClientRead;
    }
  }

  lemma {:induction false} StandardKeeps(lines: seq<Line>)
    ensures
      var (b, name, data) := (StandardRead(Empty, lines), LastName(lines), DataValues(lines));
      && b.data == (if data == [] then [] else JoinWith(data, LF) + [LF])
      && b.eventType == if name.Some? then DropSpace(name.value) else []
  {
    hide DropSpace, JoinWith;
    if lines != [] {
      var (front, last) := (lines[..|lines| - 1], lines[|lines| - 1]);
      assert lines == front + [last];
      StandardReadNext(Empty, front, last);
      StandardKeeps(front);
      if last.DataField? {
        JoinAppend(DataValues(front), DropSpace(last.value));
      }
      hide StandardRead;
    }
  }

  // Trimming takes more than the one space exactly from a name that is not clean.
  lemma TrimIsDrop(v: Text)
    ensures DropSpace(v) == [] ==> JsTrim(v) == []
    ensures DropSpace(v) != [] ==> (JsTrim(v) == DropSpace(v) <==> CleanName(v))
  {
    hide JsBlanks.Has;
    SpaceIsBlank();
    var d := DropSpace(v);
    var start := JsBlanks.Skip(v, 0);
    var end := JsBlanks.SkipBack(v, start, |v|);
    assert JsTrim(v) == v[start..end];
    if d == [] {
      assert JsBlanks.Skip(v, 0) == |v| by { if v != [] { assert JsBlanks.Skip(v, 1) == 1; } }
    } else if CleanName(v) {
      var n := |v| - |d|;
      assert forall i :: 0 <= i < |d| ==> v[n + i] == d[i];
      assert !JsBlanks.Has(v[n]) && !JsBlanks.Has(v[|v| - 1]);
      assert JsBlanks.Skip(v, n) == n && start == n;
      assert end == |v|;
      assert v[n..|v|] == d;
    }
  }

  lemma SpaceIsBlank()
    ensures JsBlanks.Has(SPACE)
  {
  }

  lemma {:induction false} JoinAppend(parts: seq<Text>, last: Text)
    ensures JoinWith(parts + [last], LF) == if parts == [] then last else JoinWith(parts, LF) + [LF] + last
  {
    if parts != [] {
      assert (parts + [last])[1..] == parts[1..] + [last];
      JoinAppend(parts[1..], last);
    }
  }

  // Frame by frame, the client and the standard see the same event exactly when
  // the frame conforms.
  lemma FrameAgreement(lines: seq<Line>)
    ensures StandardFrame(lines) == ClientFrame(lines) <==> FrameConforms(lines)
  {
    ClientKeeps(lines);
    StandardKeeps(lines);
    var (b, f, name) := (StandardRead(Empty, lines), ClientRead(NoFields, lines), LastName(lines));
    if name.Some? {
      TrimIsDrop(name.value);
    }
    hide StandardRead, ClientRead, JoinWith, LastName, DataValues, JsTrim, DropSpace;
    EmptyIsNoName();
    if f.data != [] {
      assert b.data[..|b.data| - 1] == JoinWith(f.data, LF);
      CleanIsNotEmpty(name);
    }
  }

  lemma EmptyIsNoName()
    ensures Ascii("message") != []
  {
  }

  lemma CleanIsNotEmpty(name: Option<Text>)
    ensures name.Some? && CleanName(name.value) ==> DropSpace(name.value) != []
  {
  }

  lemma NoEvents()
    ensures ClientEvents([]) == [] && StandardEvents(Empty, []) == []
  {
    NoBoundaryInNothing();
  }

  // ----- Whole streams -----

  function AllStandard(frames: seq<seq<Line>>): seq<Event> {
    if frames == [] then [] else StandardFrame(frames[0]) + AllStandard(frames[1..])
  }

  function AllClient(frames: seq<seq<Line>>): seq<Event> {
    if frames == [] then [] else ClientFrame(frames[0]) + AllClient(frames[1..])
  }

  // Both readers read a stream frame by frame.
  lemma {:induction false} StreamFrames(frames: seq<Lines>)
    ensures StandardEvents(Empty, StreamText(frames)) == AllStandard(frames)
    ensures ClientEvents(StreamText(frames)) == AllClient(frames)
    decreases |frames|
  {
    hide FrameText, ClientFrame, DispatchEvent, StandardRead, StandardEvents, ClientEvents;
    if frames == [] {
      NoEvents();
    } else {
      var rest := StreamText(frames[1..]);
      ClientFirstFrame(frames[0], rest);
      StandardLines(Empty, frames[0], rest);
      StreamFrames(frames[1..]);
    }
  }

  // An event the client never reports: empty data under the default name.
  predicate Unheard(e: Event) { e.data == [] && JsTrim(e.name) == Ascii("message") }

  lemma TrimTwice(v: Text)
    ensures JsTrim(JsTrim(v)) == JsTrim(v)
  {
    hide JsBlanks.Has;
    var start := JsBlanks.Skip(v, 0);
    var end := JsBlanks.SkipBack(v, start, |v|);
    var t := v[start..end];
    if t != [] {
      assert t[0] == v[start] && t[|t| - 1] == v[end - 1];
      hide JsBlanks.Skip, JsBlanks.SkipBack;
      NothingToTrim(t);
    }
  }

  lemma TrimAfterDrop(v: Text)
    ensures JsTrim(DropSpace(v)) == JsTrim(v)
  {
    if v != [] && v[0] == SPACE {
      TrimFromOne(v);
    }
  }

  lemma TrimFromOne(v: Text)
    requires v != [] && v[0] == SPACE
    ensures JsTrim(v[1..]) == JsTrim(v)
  {
    hide JsBlanks.Has, JsBlanks.Skip, JsBlanks.SkipBack;
    var w := v[1..];
    var start := JsBlanks.Skip(v, 1);
    SkipsSpace(v);
    SkipShift(v, 1);
    SkipBackShift(v, start, |v|);
    Shifted(v, start, JsBlanks.SkipBack(v, start, |v|));
    assert JsBlanks.Skip(w, 0) == start - 1;
    assert JsBlanks.SkipBack(w, start - 1, |w|) == JsBlanks.SkipBack(v, start, |v|) - 1;
  }

  lemma Shifted(v: Text, a: nat, b: nat)
    requires 1 <= a <= b <= |v|
    ensures v[1..][a - 1..b - 1] == v[a..b]
  {
  }

  lemma SkipsSpace(v: Text)
    requires v != [] && v[0] == SPACE
    ensures JsBlanks.Skip(v, 0) == JsBlanks.Skip(v, 1)
  {
  }

  lemma {:induction false} SkipShift(v: Text, i: nat)
    requires 1 <= i <= |v|
    ensures JsBlanks.Skip(v[1..], i - 1) == JsBlanks.Skip(v, i) - 1
    decreases |v| - i
  {
    hide JsBlanks.Has;
    if i < |v| && JsBlanks.Has(v[i]) {
      SkipShift(v, i + 1);
    }
  }

  lemma {:induction false} SkipBackShift(v: Text, low: nat, i: nat)
    requires 1 <= low <= i <= |v|
    ensures JsBlanks.SkipBack(v[1..], low - 1, i - 1) == JsBlanks.SkipBack(v, low, i) - 1
  {
    hide JsBlanks.Has;
    if low < i && JsBlanks.Has(v[i - 1]) {
      SkipBackShift(v, low, i - 1);
    }
  }

  lemma MessageIsTrimmed()
    ensures JsTrim(Ascii("message")) == Ascii("message")
  {
  }

  lemma FrameEvents(lines: seq<Line>)
    ensures |StandardFrame(lines)| <= 1 && |ClientFrame(lines)| <= 1
    ensures forall i :: 0 <= i < |ClientFrame(lines)| ==> !Unheard(ClientFrame(lines)[i])
    ensures |StandardFrame(lines)| > |ClientFrame(lines)| ==> Unheard(StandardFrame(lines)[0])
  {
    ClientKeeps(lines);
    StandardKeeps(lines);
    MessageIsTrimmed();
    var name := LastName(lines);
    if name.Some? {
      TrimTwice(name.value);
      TrimAfterDrop(name.value);
    }
    hide StandardRead, ClientRead, LastName, DataValues, JsTrim, DropSpace;
  }

  lemma {:induction false} ClientHearsNone(frames: seq<seq<Line>>, e: Event)
    requires Unheard(e)
    ensures e !in AllClient(frames)
  {
    hide ClientFrame, Unheard;
    if frames != [] {
      FrameEvents(frames[0]);
      ClientHearsNone(frames[1..], e);
    }
  }

  lemma {:induction false} StandardReports(frames: seq<seq<Line>>, i: nat, e: Event)
    requires i < |frames| && e in StandardFrame(frames[i])
    ensures e in AllStandard(frames)
  {
    hide StandardFrame;
    if i > 0 {
      StandardReports(frames[1..], i - 1, e);
    }
  }

  // Lists of equal events made of frames none of which is longer on one side.
  lemma {:induction false} EqualPieces(frames: seq<seq<Line>>)
    requires forall i :: 0 <= i < |frames| ==> |StandardFrame(frames[i])| <= |ClientFrame(frames[i])|
    ensures |AllStandard(frames)| <= |AllClient(frames)|
    ensures AllStandard(frames) == AllClient(frames) ==>
      forall i :: 0 <= i < |frames| ==> StandardFrame(frames[i]) == ClientFrame(frames[i])
  {
    hide StandardFrame, ClientFrame;
    if frames != [] {
      var (s, c) := (StandardFrame(frames[0]), ClientFrame(frames[0]));
      var (later, later') := (AllStandard(frames[1..]), AllClient(frames[1..]));
      EqualPieces(frames[1..]);
      if AllStandard(frames) == AllClient(frames) {
        assert |s| == |c|;
        assert s == (s + later)[..|s|] && c == (c + later')[..|c|];
        assert later == (s + later)[|s|..] && later' == (c + later')[|c|..];
      }
    }
  }

  lemma {:induction false} EqualFrames(frames: seq<seq<Line>>)
    requires forall i :: 0 <= i < |frames| ==> StandardFrame(frames[i]) == ClientFrame(frames[i])
    ensures AllStandard(frames) == AllClient(frames)
  {
    hide StandardFrame, ClientFrame;
    if frames != [] {
      EqualFrames(frames[1..]);
    }
  }

  // On every stream of such frames, reading frame by frame as the client does and
  // line by line as the standard does give the same events if and only if every
  // frame conforms: no two disagreements ever cancel out.
  lemma ExactAgreement(frames: seq<Lines>)
    ensures ClientEvents(StreamText(frames)) == StandardEvents(Empty, StreamText(frames))
      <==> forall i :: 0 <= i < |frames| ==> FrameConforms(frames[i])
  {
    hide StandardFrame, ClientFrame, FrameConforms, AllStandard, AllClient, StandardEvents, ClientEvents, StreamText, Unheard;
    StreamFrames(frames);
    forall i | 0 <= i < |frames|
      ensures StandardFrame(frames[i]) == ClientFrame(frames[i]) <==> FrameConforms(frames[i])
    {
      FrameAgreement(frames[i]);
    }
    if AllStandard(frames) == AllClient(frames) {
      forall i | 0 <= i < |frames|
        ensures |StandardFrame(frames[i])| <= |ClientFrame(frames[i])|
      {
        FrameEvents(frames[i]);
        if |StandardFrame(frames[i])| > |ClientFrame(frames[i])| {
          StandardReports(frames, i, StandardFrame(frames[i])[0]);
          ClientHearsNone(frames, StandardFrame(frames[i])[0]);
        }
      }
      EqualPieces(frames);
    } else if forall i :: 0 <= i < |frames| ==> FrameConforms(frames[i]) {
      EqualFrames(frames);
    }
  }

  // In particular on streams of frames with nonempty data and clean names.
  lemma StreamAgreement(frames: seq<Lines>)
    requires forall i :: 0 <= i < |frames| ==> PlainFrame(frames[i])
    ensures ClientEvents(StreamText(frames)) == StandardEvents(Empty, StreamText(frames))
  {
    hide PlainFrame, FrameConforms, ClientEvents, StandardEvents, StreamText;
    forall i | 0 <= i < |frames|
      ensures FrameConforms(frames[i])
    {
      PlainConforms(frames[i]);
    }
    ExactAgreement(frames);
  }
}
