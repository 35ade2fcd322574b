// spa/src/api/chat.ts: the browser's incremental event-stream parser.
module Client {
  import opened Text
  import opened Json

  datatype ErrorKind = Network | Server | Aborted

  datatype Call =
    | OnToken(text: Text)
    | OnUsage(usage: Value)
    | OnDone
    | OnError(kind: ErrorKind, message: Text)

  // What one frame makes the client do, and whether it ends the stream.
  datatype Outcome = Outcome(calls: seq<Call>, finished: bool)

  // ----- Frame boundaries -----

  const LFLF: Text := [LF, LF]
  const CRLFCRLF: Text := [CR, LF, CR, LF]

  function IndexOfFrameBoundary(buffer: Text): (r: int)
    ensures -1 <= r <= |buffer|
  {
    var lf := IndexOf(buffer, LFLF);
    var crlf := IndexOf(buffer, CRLFCRLF);
    if lf == -1 then crlf
    else if crlf == -1 then lf
    else if lf < crlf then lf else crlf
  }

  // The length of \r?\n at the front of s, 0 if there is none.
  function NewlineLength(s: Text): (n: nat)
    ensures n <= |s|
  {
    if s != [] && s[0] == LF then 1
    else if |s| >= 2 && s[0] == CR && s[1] == LF then 2
    else 0
  }

  // s without (\r?\n){2} at its front.
  function DropBoundary(s: Text): Text {
    var n := NewlineLength(s);
    var m := NewlineLength(s[n..]);
    if n == 0 || m == 0 then s else s[n + m..]
  }

  // ----- One frame -----

  // Where the first line feed of s is, |s| if there is none.
  function LineEnd(s: Text): (n: nat)
    ensures n <= |s|
    ensures n < |s| ==> s[n] == LF
    ensures forall i :: 0 <= i < n ==> s[i] != LF
  {
    if s == [] || s[0] == LF then 0 else 1 + LineEnd(s[1..])
  }

  lemma {:induction false} FirstLine(x: Text, y: Text)
    requires forall i :: 0 <= i < |x| ==> x[i] != LF
    ensures LineEnd(x + [LF] + y) == |x|
    ensures LineEnd(x) == |x|
  {
    if x != [] {
      assert (x + [LF] + y)[1..] == x[1..] + [LF] + y;
      FirstLine(x[1..], y);
    }
  }

  function DropCr(line: Text): Text {
    if line != [] && line[|line| - 1] == CR then line[..|line| - 1] else line
  }

  // String.prototype.split(/\r?\n/).
  function SplitLines(s: Text): (lines: seq<Text>)
    ensures lines != []
  {
    var n := LineEnd(s);
    if n == |s| then [s] else [DropCr(s[..n])] + SplitLines(s[n + 1..])
  }

  // A line break, with or without a carriage return, takes off exactly the line
  // before it.
  lemma SplitFirst(x: Text, y: Text)
    requires forall i :: 0 <= i < |x| ==> x[i] != LF
    ensures SplitLines(x) == [x]
    ensures SplitLines(x + [CR, LF] + y) == [x] + SplitLines(y)
    ensures x == [] || x[|x| - 1] != CR ==> SplitLines(x + [LF] + y) == [x] + SplitLines(y)
  {
    FirstLine(x, y);
    FirstLine(x + [CR], y);
    hide LineEnd;
    var (s, t) := (x + [LF] + y, x + [CR] + [LF] + y);
    assert x + [CR, LF] + y == t;
    assert s[..|x|] == x && s[|x| + 1..] == y;
    assert t[..|x| + 1] == x + [CR] && t[|x| + 2..] == y;
    assert (x + [CR])[..|x|] == x;
  }

  // The fields of a frame: its event type and its data lines.
  datatype Fields = Fields(event: Text, data: seq<Text>)

  const NoFields: Fields := Fields(Ascii("message"), [])

  function DropSpace(s: Text): Text {
    if s != [] && s[0] == SPACE then s[1..] else s
  }

  function ReadLine(f: Fields, line: Text): Fields {
    if Ascii(":") <= line then f
    else if Ascii("event:") <= line then f.(event := JsTrim(line[6..]))
    else if Ascii("data:") <= line then f.(data := f.data + [DropSpace(line[5..])])
    else f
  }

  function ReadLines(f: Fields, lines: seq<Text>): Fields
    decreases |lines|
  {
    if lines == [] then f else ReadLines(ReadLine(f, lines[0]), lines[1..])
  }

  function FrameFields(frame: Text): Fields {
    ReadLines(NoFields, SplitLines(frame))
  }

  // The string property `key`, if the value has one.
  function StringProperty(v: Value, key: Text): Option<Text> {
    match Lookup(v, key)
    case Some(String(text)) => Some(text)
    case _ => None
  }

  // v?.[0]
  function First(v: Option<Value>): Option<Value> {
    match v
    case Some(Array(items)) => if items == [] then None else Some(items[0])
    case Some(Object(_)) => Lookup(v.value, Ascii("0"))
    case _ => None
  }

  function TextOf(v: Value): Text {
    if StringProperty(v, Ascii("text")).Some? then StringProperty(v, Ascii("text")).value
    else if StringProperty(v, Ascii("token")).Some? then StringProperty(v, Ascii("token")).value
    else if StringProperty(v, Ascii("content")).Some? then StringProperty(v, Ascii("content")).value
    else if StringProperty(v, Ascii("delta")).Some? then StringProperty(v, Ascii("delta")).value
    else
      match First(Lookup(v, Ascii("choices")))
      case None => []
      case Some(choice) =>
        match Lookup(choice, Ascii("delta"))
        case None => []
        case Some(delta) =>
          if StringProperty(delta, Ascii("content")).Some? then StringProperty(delta, Ascii("content")).value
          else []
  }

  function ExtractTokenText(data: Text): Text {
    var trimmed := JsTrim(data);
    if trimmed != [] && (trimmed[0] == LBRACE || trimmed[0] == LBRACKET) then
      match JsonParse(trimmed)
      case Some(v) => TextOf(v)
      case None => data
    else data
  }

  function ExtractErrorMessage(data: Text): Text {
    var fallback := if data == [] then Ascii("The server reported an error.") else data;
    match JsonParse(data)
    case None => fallback
    case Some(v) =>
      if StringProperty(v, Ascii("message")).Some? then StringProperty(v, Ascii("message")).value
      else if StringProperty(v, Ascii("error")).Some? then StringProperty(v, Ascii("error")).value
      else fallback
  }

  function TokenCalls(data: Text): seq<Call> {
    if ExtractTokenText(data) == [] then [] else [OnToken(ExtractTokenText(data))]
  }

  function UsageCalls(data: Text): seq<Call> {
    match JsonParse(data)
    case Some(v) => [OnUsage(v)]
    case None => []
  }

  function Dispatch(event: Text, data: Text): Outcome {
    if data == [] && event == Ascii("message") then Outcome([], false)
    else if JsTrim(data) == Ascii("[DONE]") then Outcome([OnDone], true)
    else if event == Ascii("token") then Outcome(TokenCalls(data), false)
    else if event == Ascii("usage") then Outcome(UsageCalls(data), false)
    else if event == Ascii("done") then Outcome([OnDone], true)
    else if event == Ascii("error") then Outcome([OnError(Server, ExtractErrorMessage(data))], true)
    else Outcome(TokenCalls(data), false)
  }

  function Interpret(frame: Text): Outcome {
    var f := FrameFields(frame);
    Dispatch(f.event, JoinWith(f.data, LF))
  }

  // ----- The read loop -----

  datatype Drained = Drained(calls: seq<Call>, finished: bool, tail: Text)

  // Every complete frame of a buffer, up to the one that ends the stream.
  function Drain(buffer: Text): Drained
    decreases |buffer|
  {
    var i := IndexOfFrameBoundary(buffer);
    if i == -1 then Drained([], false, buffer)
    else
      BoundaryShrinks(buffer);
      var o := Interpret(buffer[..i]);
      var rest := DropBoundary(buffer[i..]);
      if o.finished then Drained(o.calls, true, rest)
      else
        var d := Drain(rest);
        Drained(o.calls + d.calls, d.finished, d.tail)
  }

  // What a boundary looks like: two line breaks of one kind, and the first such.
  lemma BoundaryAt(buffer: Text)
    ensures
      var i := IndexOfFrameBoundary(buffer);
      i >= 0 ==>
        && (OccursAt(buffer, LFLF, i) || OccursAt(buffer, CRLFCRLF, i))
        && DropBoundary(buffer[i..]) == buffer[i + (if OccursAt(buffer, LFLF, i) then 2 else 4)..]
  {
    var i := IndexOfFrameBoundary(buffer);
    if i >= 0 {
      var s := buffer[i..];
      if OccursAt(buffer, LFLF, i) {
        assert s[0] == buffer[i..i + 2][0] && s[1] == buffer[i..i + 2][1];
        assert s[1..][0] == LF;
        assert s[2..] == buffer[i + 2..];
      } else {
        var p := buffer[i..i + 4];
        assert s[0] == p[0] && s[1] == p[1] && s[2] == p[2] && s[3] == p[3];
        assert s[2..][0] == CR && s[2..][1] == LF;
        assert s[4..] == buffer[i + 4..];
      }
    }
  }

  lemma BoundaryShrinks(buffer: Text)
    ensures
      var i := IndexOfFrameBoundary(buffer);
      i >= 0 ==> |DropBoundary(buffer[i..])| < |buffer|
  {
    BoundaryAt(buffer);
  }

  // An exception out of the reader, or out of the abort check before a read.
  datatype ReadFailure = Abort | Failed(message: Text)

  // What the reader hands over: a decoded chunk or an exception.
  datatype Read = Chunk(text: Text) | Fails(failure: ReadFailure)

  datatype Ending = Finished | EndOfStream(tail: Text) | Broken(failure: ReadFailure)

  datatype Session = Session(calls: seq<Call>, ending: Ending)

  function Prepend(calls: seq<Call>, s: Session): Session {
    Session(calls + s.calls, s.ending)
  }

  // The loop over reads, before anything is flushed.
  function ReadPhase(buffer: Text, chunks: seq<Read>): Session
    decreases |chunks|, 0
  {
    if chunks == [] then Session([], EndOfStream(buffer))
    else
      match chunks[0]
      case Fails(failure) => Session([], Broken(failure))
      case Chunk(text) => AfterChunk(buffer + text, chunks[1..])
  }

  // The rest of the loop once a chunk has been added to the buffer.
  function AfterChunk(buffer: Text, later: seq<Read>): Session
    decreases |later|, 1
  {
    var d := Drain(buffer);
    if d.finished then Session(d.calls, Finished) else Prepend(d.calls, ReadPhase(d.tail, later))
  }

  lemma PrependTwice(a: seq<Call>, b: seq<Call>, s: Session)
    ensures Prepend(a, Prepend(b, s)) == Prepend(a + b, s)
    ensures Prepend([], s) == s
  {
    assert a + (b + s.calls) == a + b + s.calls;
    assert [] + s.calls == s.calls;
  }

  // AfterChunk, one frame at a time.
  lemma AfterChunkStep(buffer: Text, later: seq<Read>)
    ensures
      var i := IndexOfFrameBoundary(buffer);
      if i == -1 then AfterChunk(buffer, later) == ReadPhase(buffer, later)
      else
        var o := Interpret(buffer[..i]);
        AfterChunk(buffer, later) ==
          if o.finished then Session(o.calls, Finished)
          else Prepend(o.calls, AfterChunk(DropBoundary(buffer[i..]), later))
  {
    hide IndexOfFrameBoundary, DropBoundary, Interpret, ReadPhase;
    var i := IndexOfFrameBoundary(buffer);
    if i == -1 {
      PrependTwice([], [], ReadPhase(buffer, later));
    } else {
      var d := Drain(DropBoundary(buffer[i..]));
      PrependTwice(Interpret(buffer[..i]).calls, d.calls, ReadPhase(d.tail, later));
    }
  }

  // One round of the loop over reads, after the callbacks already fired.
  lemma ReadStep(done: seq<Call>, buffer: Text, chunks: seq<Read>, i: nat)
    requires i < |chunks|
    ensures Prepend(done, ReadPhase(buffer, chunks[i..])) ==
      if chunks[i].Fails? then Session(done, Broken(chunks[i].failure))
      else Prepend(done, AfterChunk(buffer + chunks[i].text, chunks[i + 1..]))
  {
    assert chunks[i..][0] == chunks[i] && chunks[i..][1..] == chunks[i + 1..];
    assert done + [] == done;
  }

  // One round of the loop over frames, after the callbacks already fired.
  lemma ChunkStep(done: seq<Call>, buffer: Text, later: seq<Read>)
    ensures
      var i := IndexOfFrameBoundary(buffer);
      var s := Prepend(done, AfterChunk(buffer, later));
      if i == -1 then s == Prepend(done, ReadPhase(buffer, later))
      else
        var o := Interpret(buffer[..i]);
        s ==
          if o.finished then Session(done + o.calls, Finished)
          else Prepend(done + o.calls, AfterChunk(DropBoundary(buffer[i..]), later))
  {
    hide IndexOfFrameBoundary, DropBoundary, Interpret, AfterChunk, ReadPhase;
    AfterChunkStep(buffer, later);
    var i := IndexOfFrameBoundary(buffer);
    if i != -1 {
      PrependTwice(done, Interpret(buffer[..i]).calls, AfterChunk(DropBoundary(buffer[i..]), later));
    }
  }

  lemma EndOfChunks(done: seq<Call>, buffer: Text, chunks: seq<Read>)
    ensures Prepend(done, ReadPhase(buffer, chunks[|chunks|..])) == Session(done, EndOfStream(buffer))
  {
    assert done + [] == done;
  }

  // What happens once reading has stopped.
  function Closing(ending: Ending): seq<Call> {
    match ending
    case Finished => []
    case EndOfStream(tail) =>
      (if JsTrim(tail) == [] then [] else Interpret(JsTrim(tail)).calls) + [OnDone]
    case Broken(Abort) => [OnError(Aborted, Ascii("Request cancelled."))]
    case Broken(Failed(message)) => [OnError(Network, message)]
  }

  // All the callbacks of one response body.
  function BodyCalls(chunks: seq<Read>): seq<Call> {
    var s := ReadPhase([], chunks);
    s.calls + Closing(s.ending)
  }

  // ----- The client itself -----

  class StreamCallbacks {
    var calls: seq<Call>

    constructor ()
      ensures calls == []
    {
      calls := [];
    }

    method Fire(call: Call)
      modifies this
      ensures calls == old(calls) + [call]
    {
      calls := calls + [call];
    }
  }

  method DispatchToken(data: Text, callbacks: StreamCallbacks)
    modifies callbacks
    ensures callbacks.calls == old(callbacks.calls) + TokenCalls(data)
  {
    var text := ExtractTokenText(data);
    if text != [] {
      callbacks.Fire(OnToken(text));
    }
  }

  method DispatchUsage(data: Text, callbacks: StreamCallbacks)
    modifies callbacks
    ensures callbacks.calls == old(callbacks.calls) + UsageCalls(data)
  {
    match JsonParse(data)
    case Some(v) => callbacks.Fire(OnUsage(v));
    case None =>
  }

  method HandleFrame(rawFrame: Text, callbacks: StreamCallbacks) returns (finished: bool)
    modifies callbacks
    ensures callbacks.calls == old(callbacks.calls) + Interpret(rawFrame).calls
    ensures finished == Interpret(rawFrame).finished
  {
    var lines := SplitLines(rawFrame);
    var eventType := Ascii("message");
    var dataParts: seq<Text> := [];
    for i := 0 to |lines|
      invariant ReadLines(NoFields, lines) == ReadLines(Fields(eventType, dataParts), lines[i..])
      invariant callbacks.calls == old(callbacks.calls)
    {
      var line := lines[i];
      assert lines[i..][0] == line && lines[i..][1..] == lines[i + 1..];
      if Ascii(":") <= line {
        continue;
      }
      if Ascii("event:") <= line {
        eventType := JsTrim(line[6..]);
      } else if Ascii("data:") <= line {
        dataParts := dataParts + [DropSpace(line[5..])];
      }
    }
    var data := JoinWith(dataParts, LF);
    if data == [] && eventType == Ascii("message") {
      return false;
    }
    if JsTrim(data) == Ascii("[DONE]") {
      callbacks.Fire(OnDone);
      return true;
    }
    if eventType == Ascii("token") {
      DispatchToken(data, callbacks);
      return false;
    } else if eventType == Ascii("usage") {
      DispatchUsage(data, callbacks);
      return false;
    } else if eventType == Ascii("done") {
      callbacks.Fire(OnDone);
      return true;
    } else if eventType == Ascii("error") {
      callbacks.Fire(OnError(Server, ExtractErrorMessage(data)));
      return true;
    } else {
      DispatchToken(data, callbacks);
      return false;
    }
  }

  // Returns the exception that left the parser, if one did.
  method ParseSseStream(chunks: seq<Read>, callbacks: StreamCallbacks) returns (threw: Option<ReadFailure>)
    modifies callbacks
    ensures
      var s := ReadPhase([], chunks);
      if s.ending.Broken? then
        threw == Some(s.ending.failure) && callbacks.calls == old(callbacks.calls) + s.calls
      else
        threw == None && callbacks.calls == old(callbacks.calls) + BodyCalls(chunks)
  {
    hide IndexOfFrameBoundary, DropBoundary, Interpret, JsTrim, Drain, AfterChunk, ReadPhase, Prepend;
    var buffer: Text := [];
    ghost var all := ReadPhase([], chunks);
    ghost var done: seq<Call> := [];
    PrependTwice([], [], all);
    assert chunks[0..] == chunks;
    for i := 0 to |chunks|
      invariant callbacks.calls == old(callbacks.calls) + done
      invariant all == Prepend(done, ReadPhase(buffer, chunks[i..]))
    {
      ghost var later := chunks[i + 1..];
      ReadStep(done, buffer, chunks, i);
      if chunks[i].Fails? {
        return Some(chunks[i].failure);
      }
      buffer := buffer + chunks[i].text;
      var sepIndex := IndexOfFrameBoundary(buffer);
      while sepIndex != -1
        invariant sepIndex == IndexOfFrameBoundary(buffer)
        invariant callbacks.calls == old(callbacks.calls) + done
        invariant all == Prepend(done, AfterChunk(buffer, later))
        decreases |buffer|
      {
        BoundaryShrinks(buffer);
        ChunkStep(done, buffer, later);
        var rawFrame := buffer[..sepIndex];
        buffer := DropBoundary(buffer[sepIndex..]);
        var finished := HandleFrame(rawFrame, callbacks);
        done := done + Interpret(rawFrame).calls;
        if finished {
          assert done + [] == done;
          return None;
        }
        sepIndex := IndexOfFrameBoundary(buffer);
      }
      ChunkStep(done, buffer, later);
    }
    EndOfChunks(done, buffer, chunks);
    var tail := JsTrim(buffer);
    if tail != [] {
      var _ := HandleFrame(tail, callbacks);
    }
    callbacks.Fire(OnDone);
    assert callbacks.calls == old(callbacks.calls) + (done + Closing(EndOfStream(buffer)));
    return None;
  }

  // The part of streamChatCompletion that reads a response body.
  method StreamBody(chunks: seq<Read>, callbacks: StreamCallbacks)
    modifies callbacks
    ensures callbacks.calls == old(callbacks.calls) + BodyCalls(chunks)
  {
    var threw := ParseSseStream(chunks, callbacks);
    match threw
    case None =>
    case Some(Abort) => callbacks.Fire(OnError(Aborted, Ascii("Request cancelled.")));
    case Some(Failed(message)) => callbacks.Fire(OnError(Network, message));
  }
}
