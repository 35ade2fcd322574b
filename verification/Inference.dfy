// services/api/app/inference.py: the upstream line loop and the frames it emits.
module Inference {
  import opened Text
  import opened Frames

  // ----- Upstream lines -----

  // A streamed chunk, reduced to what the loop reads of it. An absent count is
  // None; absent or null content is empty.
  datatype Chunk = Chunk(prompt: Option<int>, completion: Option<int>, content: PyString)

  // json.loads of a payload, then the field accesses: malformed JSON is skipped,
  // a value of another shape raises out of the generator.
  datatype Loaded = Malformed | Unusable | Parsed(chunk: Chunk)

  const DONE: PyString := Ascii("[DONE]")

  // The payload of a data line.
  function ParseSseData(line: PyString): Option<PyString> {
    if Ascii("data:") <= line then Some(PyStrip(line[5..])) else None
  }

  // A data line gives its payload without the blanks around it; every other line
  // gives none.
  lemma DataLineRead(w: PyString, p: PyString, v: PyString)
    requires AllBlank(PyBlanks, w) && AllBlank(PyBlanks, v) && CleanEnds(PyBlanks, p)
    ensures ParseSseData(Ascii("data:") + w + p + v) == Some(p)
  {
    hide PyStrip;
    var line := Ascii("data:") + w + p + v;
    assert line[..5] == Ascii("data:") && line[5..] == w + p + v;
    StripExact(w, p, v);
  }

  lemma DoneLineRead()
    ensures ParseSseData(Ascii("data: [DONE]")) == Some(DONE)
  {
    var w: PyString, p: PyString, v: PyString := [32], Ascii("[DONE]"), [];
    assert Ascii("data: [DONE]") == Ascii("data:") + w + p + v;
    DataLineRead(w, p, v);
  }

  lemma OtherLineSkipped(line: PyString)
    ensures ParseSseData(line).None? <==> |line| < 5 || line[..5] != Ascii("data:")
  {
  }

  // What has been gathered so far: the nonempty deltas and the token counts.
  datatype Totals = Totals(parts: seq<PyString>, prompt: int, completion: int)

  const NoTotals: Totals := Totals([], 0, 0)

  function Gather(t: Totals, c: Chunk): Totals {
    Totals(
      if c.content == [] then t.parts else t.parts + [c.content],
      if c.prompt.Some? then c.prompt.value else t.prompt,
      if c.completion.Some? then c.completion.value else t.completion)
  }

  // ----- The generator, from one suspension to the next -----

  datatype Outcome = Returned | Disconnected | Crashed | Cancelled

  datatype Gen =
    | Opening                    // waiting for the upstream response
    | Reading(t: Totals)         // waiting for a line, or suspended at a token
    | Leaving(t: Totals)         // past the loop, closing the response
    | UsageSent                  // suspended at the usage frame
    | Final                      // suspended at the done or error frame
    | Ended(outcome: Outcome)

  datatype Input =
    | Opened | Refused(failure: Failure) | BadStatus
    | Line(line: PyString, gone: bool) | NoMoreLines | LinesFail(failure: Failure)
    | Closed | CloseFails(failure: Failure)
    | Resume | Cancel

  datatype Output = Emit(frame: Frame) | Complete(text: PyString)

  predicate Accepts(g: Gen, input: Input) {
    match input
    case Opened | Refused(_) | BadStatus => g.Opening?
    case Line(_, _) | NoMoreLines | LinesFail(_) => g.Reading?
    case Closed | CloseFails(_) => g.Leaving?
    case Resume => g.UsageSent? || g.Final?
    case Cancel => !g.Ended?
  }

  datatype Move = Move(gen: Gen, outs: seq<Output>)

  function Fail(f: Failure): Move { Move(Final, [Emit(Error(f))]) }

  function OnLine(loads: PyString -> Loaded, t: Totals, line: PyString): Move {
    match ParseSseData(line)
    case None => Move(Reading(t), [])
    case Some(data) =>
      if data == [] then Move(Reading(t), [])
      else if data == DONE then Move(Leaving(t), [])
      else
        match loads(data)
        case Malformed => Move(Reading(t), [])
        case Unusable => Move(Ended(Crashed), [])
        case Parsed(c) =>
          Move(Reading(Gather(t, c)), if c.content == [] then [] else [Emit(Token(c.content))])
  }

  // The callback that persists the reply comes before the last frames.
  function OnClosed(t: Totals): Move {
    var completion := if t.parts == [] then [] else [Complete(Concat(t.parts))];
    if t.prompt != 0 || t.completion != 0 then
      Move(UsageSent, completion + [Emit(Usage(t.prompt, t.completion))])
    else Move(Final, completion + [Emit(Done)])
  }

  function Advance(loads: PyString -> Loaded, g: Gen, input: Input): Move
    requires Accepts(g, input)
  {
    match input
    case Opened => Move(Reading(NoTotals), [])
    case Refused(f) => Fail(f)
    case BadStatus => Fail(ModelError)
    case Line(line, gone) => if gone then Move(Ended(Disconnected), []) else OnLine(loads, g.t, line)
    case NoMoreLines => Move(Leaving(g.t), [])
    case LinesFail(f) => Fail(f)
    case Closed => OnClosed(g.t)
    case CloseFails(f) => Fail(f)
    case Resume => if g.UsageSent? then Move(Final, [Emit(Done)]) else Move(Ended(Returned), [])
    case Cancel => Move(Ended(Cancelled), [])
  }

  // ----- What a generator has put out -----

  function Tokens(parts: seq<PyString>): seq<Output> {
    if parts == [] then [] else Tokens(parts[..|parts| - 1]) + [Emit(Token(parts[|parts| - 1]))]
  }

  datatype Tail = NoTail | Failing(failure: Failure) | UsageOnly(p: int, c: int) | Finishing(p: int, c: int)

  function Persisted(parts: seq<PyString>): seq<Output> {
    if parts == [] then [] else [Complete(Concat(parts))]
  }

  function UsageOf(p: int, c: int): seq<Output> {
    if p != 0 || c != 0 then [Emit(Usage(p, c))] else []
  }

  // The only things that ever follow the token frames.
  function TailOutputs(parts: seq<PyString>, tail: Tail): seq<Output> {
    match tail
    case NoTail => []
    case Failing(f) => [Emit(Error(f))]
    case UsageOnly(p, c) => Persisted(parts) + UsageOf(p, c)
    case Finishing(p, c) => Persisted(parts) + UsageOf(p, c) + [Emit(Done)]
  }

  // Which tails go with which state.
  predicate TailFits(g: Gen, tail: Tail) {
    match g
    case Opening | Reading(_) | Leaving(_) => tail.NoTail?
    case UsageSent => tail.UsageOnly? && (tail.p != 0 || tail.c != 0)
    case Final => tail.Failing? || tail.Finishing?
    case Ended(Returned) => tail.Failing? || tail.Finishing?
    case Ended(Cancelled) => true
    case Ended(_) => tail.NoTail?
  }

  // The outputs of a generator: its token frames, in order and each with text,
  // then one of the tails.
  predicate Shaped(g: Gen, outs: seq<Output>, parts: seq<PyString>, tail: Tail) {
    && (forall i :: 0 <= i < |parts| ==> parts[i] != [])
    && TailFits(g, tail)
    && outs == Tokens(parts) + TailOutputs(parts, tail)
    && (g.Opening? ==> parts == [])
    && (g.Reading? || g.Leaving? ==> g.t.parts == parts)
  }

  lemma TokenStep(loads: PyString -> Loaded, t: Totals, line: PyString)
    requires forall i :: 0 <= i < |t.parts| ==> t.parts[i] != []
    ensures
      var m := OnLine(loads, t, line);
      if m.gen.Reading? then
        && Tokens(t.parts) + m.outs == Tokens(m.gen.t.parts)
        && forall i :: 0 <= i < |m.gen.t.parts| ==> m.gen.t.parts[i] != []
      else m.outs == [] && (m.gen == Leaving(t) || m.gen == Ended(Crashed))
  {
    var m := OnLine(loads, t, line);
    hide PyStrip;
    if m.gen.Reading? && m.outs != [] {
      assert m.gen.t.parts[..|t.parts|] == t.parts;
    } else {
      assert Tokens(t.parts) + [] == Tokens(t.parts);
    }
  }

  // One more step keeps the shape.
  lemma ShapedStep(loads: PyString -> Loaded, g: Gen, outs: seq<Output>, parts: seq<PyString>, tail: Tail, input: Input)
    returns (parts': seq<PyString>, tail': Tail)
    requires Shaped(g, outs, parts, tail) && Accepts(g, input)
    ensures
      var m := Advance(loads, g, input);
      Shaped(m.gen, outs + m.outs, parts', tail')
  {
    parts', tail' := parts, tail;
    var m := Advance(loads, g, input);
    hide Tokens, OnLine, OnClosed, TailOutputs;
    assert outs + [] == outs;
    match input
    case Line(line, gone) =>
      if !gone {
        TokenStep(loads, g.t, line);
        if m.gen.Reading? {
          parts' := m.gen.t.parts;
        }
      }
      NoOutputs(parts);
      NoOutputs(parts');
    case Refused(f) => tail' := Failing(f); NoOutputs(parts);
    case BadStatus => tail' := Failing(ModelError); NoOutputs(parts);
    case LinesFail(f) => tail' := Failing(f); NoOutputs(parts);
    case CloseFails(f) => tail' := Failing(f); NoOutputs(parts);
    case Closed =>
      tail' := if m.gen.UsageSent? then UsageOnly(g.t.prompt, g.t.completion) else Finishing(0, 0);
      ClosedOutputs(g.t);
      NoOutputs(parts);
    case Resume =>
      if g.UsageSent? {
        tail' := Finishing(tail.p, tail.c);
        DoneAfterUsage(parts, tail.p, tail.c);
        assert outs + m.outs == Tokens(parts) + (TailOutputs(parts, tail) + [Emit(Done)]);
      }
    case _ =>
  }

  lemma NoOutputs(parts: seq<PyString>)
    ensures Tokens(parts) + TailOutputs(parts, NoTail) == Tokens(parts)
    ensures forall f :: TailOutputs(parts, Failing(f)) == [Emit(Error(f))]
  {
    assert Tokens(parts) + [] == Tokens(parts);
  }

  lemma ClosedOutputs(t: Totals)
    ensures
      var m := OnClosed(t);
      && (m.gen == UsageSent || m.gen == Final)
      && (m.gen.UsageSent? <==> t.prompt != 0 || t.completion != 0)
      && m.outs == TailOutputs(t.parts, if m.gen.UsageSent? then UsageOnly(t.prompt, t.completion) else Finishing(0, 0))
  {
  }

  lemma DoneAfterUsage(parts: seq<PyString>, p: int, c: int)
    ensures TailOutputs(parts, Finishing(p, c)) == TailOutputs(parts, UsageOnly(p, c)) + [Emit(Done)]
  {
  }

  // ----- Runs -----

  function Run(loads: PyString -> Loaded, g: Gen, inputs: seq<Input>): Move
    requires Plays(loads, g, inputs)
    decreases |inputs|
  {
    if inputs == [] then Move(g, [])
    else
      var m := Advance(loads, g, inputs[0]);
      var later := Run(loads, m.gen, inputs[1..]);
      Move(later.gen, m.outs + later.outs)
  }

  // Each input is one the generator is waiting for.
  predicate Plays(loads: PyString -> Loaded, g: Gen, inputs: seq<Input>)
    decreases |inputs|
  {
    inputs == [] || (Accepts(g, inputs[0]) && Plays(loads, Advance(loads, g, inputs[0]).gen, inputs[1..]))
  }

  // One more input at the end of a run.
  lemma {:induction false} RunNext(loads: PyString -> Loaded, g: Gen, inputs: seq<Input>, input: Input)
    requires Plays(loads, g, inputs) && Accepts(Run(loads, g, inputs).gen, input)
    ensures Plays(loads, g, inputs + [input])
    ensures
      var (m, n) := (Run(loads, g, inputs), Advance(loads, Run(loads, g, inputs).gen, input));
      Run(loads, g, inputs + [input]) == Move(n.gen, m.outs + n.outs)
    decreases |inputs|
  {
    hide Advance, Accepts;
    var all := inputs + [input];
    if inputs == [] {
      var none: seq<Input> := [];
      assert all == [input] && all[1..] == none;
      var n := Advance(loads, g, input);
      assert n.outs + [] == [] + n.outs;
    } else {
      assert all[1..] == inputs[1..] + [input] && all[0] == inputs[0];
      var first := Advance(loads, g, inputs[0]);
      RunNext(loads, first.gen, inputs[1..], input);
      var later := Run(loads, first.gen, inputs[1..]);
      var n := Advance(loads, later.gen, input);
      assert first.outs + (later.outs + n.outs) == first.outs + later.outs + n.outs;
    }
  }

  lemma {:induction false} ShapedRun(
    loads: PyString -> Loaded, g: Gen, before: seq<Output>, parts: seq<PyString>, tail: Tail, inputs: seq<Input>)
    returns (parts': seq<PyString>, tail': Tail)
    requires Shaped(g, before, parts, tail) && Plays(loads, g, inputs)
    ensures
      var m := Run(loads, g, inputs);
      Shaped(m.gen, before + m.outs, parts', tail')
    decreases |inputs|
  {
    hide Shaped, Advance, Accepts;
    if inputs == [] {
      parts', tail' := parts, tail;
      assert before + [] == before;
    } else {
      var m := Advance(loads, g, inputs[0]);
      var p, e := ShapedStep(loads, g, before, parts, tail, inputs[0]);
      parts', tail' := ShapedRun(loads, m.gen, before + m.outs, p, e, inputs[1..]);
      var later := Run(loads, m.gen, inputs[1..]);
      assert before + (m.outs + later.outs) == before + m.outs + later.outs;
    }
  }

  // Over every upstream behaviour, disconnect and cancellation, what has been
  // emitted so far is token frames and then one of the tails.
  lemma Grammar(loads: PyString -> Loaded, inputs: seq<Input>) returns (parts: seq<PyString>, tail: Tail)
    requires Plays(loads, Opening, inputs)
    ensures
      var m := Run(loads, Opening, inputs);
      Shaped(m.gen, m.outs, parts, tail)
  {
    var m := Run(loads, Opening, inputs);
    assert Shaped(Opening, [], [], NoTail);
    parts, tail := ShapedRun(loads, Opening, [], [], NoTail, inputs);
    assert [] + m.outs == m.outs;
  }

  // The texts of the token frames among some outputs.
  function TextsOf(outs: seq<Output>): seq<PyString> {
    if outs == [] then []
    else if outs[0].Emit? && outs[0].frame.Token? then [outs[0].frame.text] + TextsOf(outs[1..])
    else TextsOf(outs[1..])
  }

  lemma {:induction false} TextsAppend(a: seq<Output>, b: seq<Output>)
    ensures TextsOf(a + b) == TextsOf(a) + TextsOf(b)
  {
    if a == [] {
      assert a + b == b;
    } else {
      assert (a + b)[1..] == a[1..] + b;
      TextsAppend(a[1..], b);
    }
  }

  lemma {:induction false} TokensTexts(parts: seq<PyString>)
    ensures TextsOf(Tokens(parts)) == parts
    ensures |Tokens(parts)| == |parts|
    ensures forall i :: 0 <= i < |parts| ==> Tokens(parts)[i] == Emit(Token(parts[i]))
  {
    if parts != [] {
      var (front, last) := (parts[..|parts| - 1], [Emit(Token(parts[|parts| - 1]))]);
      TokensTexts(front);
      TextsAppend(Tokens(front), last);
      assert TextsOf(last) == [parts[|parts| - 1]] + TextsOf(last[1..]);
    }
  }

  predicate IsError(o: Output) { o.Emit? && o.frame.Error? }
  predicate IsDone(o: Output) { o.Emit? && o.frame.Done? }
  predicate IsUsage(o: Output) { o.Emit? && o.frame.Usage? }
  predicate IsToken(o: Output) { o.Emit? && o.frame.Token? }

  // What the completion callback can rely on: it runs at most once, with the
  // whole text, after every token and before the last frames, and on no run that
  // fails, crashes or sees the client leave.
  ghost predicate SoundCompletion(g: Gen, outs: seq<Output>) {
    forall i :: 0 <= i < |outs| && outs[i].Complete? ==>
      && outs[i].text == Concat(TextsOf(outs)) && TextsOf(outs) != []
      && g != Ended(Disconnected) && g != Ended(Crashed)
      && forall j :: 0 <= j < |outs| && j != i ==>
           && !outs[j].Complete? && !IsError(outs[j])
           && (IsToken(outs[j]) ==> j < i)
           && (IsDone(outs[j]) || IsUsage(outs[j]) ==> i < j)
  }

  // A run that emits done has run it, unless there was no text.
  ghost predicate DoneIsPersisted(outs: seq<Output>) {
    (exists j :: 0 <= j < |outs| && IsDone(outs[j])) && TextsOf(outs) != [] ==>
      exists i :: 0 <= i < |outs| && outs[i].Complete?
  }

  lemma CompletionIsSound(g: Gen, outs: seq<Output>, parts: seq<PyString>, tail: Tail)
    requires Shaped(g, outs, parts, tail)
    ensures SoundCompletion(g, outs) && DoneIsPersisted(outs) && TextsOf(outs) == parts
  {
    hide Tokens, TextsOf, TailOutputs, Concat;
    var (front, back) := (Tokens(parts), TailOutputs(parts, tail));
    TokensTexts(parts);
    TextsAppend(front, back);
    TailHasNoText(parts, tail);
    assert parts + [] == parts;
    TailElements(parts, tail);
    PlacedCompletion(g, outs, front, back);
    PlacedDone(outs, front, back);
  }

  // The tail, element by element: a completion only comes first, before frames
  // that are neither token nor error, and comes with every done frame.
  lemma TailElements(parts: seq<PyString>, tail: Tail)
    ensures
      var back := TailOutputs(parts, tail);
      && (forall k :: 0 <= k < |back| ==> !IsToken(back[k]) && (back[k].Complete? ==> k == 0))
      && (parts != [] && (tail.UsageOnly? || tail.Finishing?) ==> back != [] && back[0] == Complete(Concat(parts)))
      && (forall k :: 0 <= k < |back| && IsError(back[k]) ==> tail.Failing? && |back| == 1)
      && (parts == [] || !(tail.UsageOnly? || tail.Finishing?) ==> forall k :: 0 <= k < |back| ==> !back[k].Complete?)
      && (forall k :: 0 <= k < |back| && IsDone(back[k]) ==> tail.Finishing?)
  {
    hide Concat;
  }

  lemma PlacedCompletion(g: Gen, outs: seq<Output>, front: seq<Output>, back: seq<Output>)
    requires outs == front + back
    requires forall i :: 0 <= i < |front| ==> IsToken(front[i])
    requires forall k :: 0 <= k < |back| ==> !IsToken(back[k]) && (back[k].Complete? ==> k == 0)
    requires back != [] && back[0].Complete? ==>
      && TextsOf(outs) != [] && back[0].text == Concat(TextsOf(outs))
      && g != Ended(Disconnected) && g != Ended(Crashed)
      && forall k :: 0 <= k < |back| ==> !IsError(back[k])
    ensures SoundCompletion(g, outs)
  {
    hide TextsOf, Concat;
    var n := |front|;
    assert forall i :: 0 <= i < n ==> outs[i] == front[i];
    assert forall i :: n <= i < |outs| ==> outs[i] == back[i - n];
    forall i | 0 <= i < |outs| && outs[i].Complete?
      ensures i == n && back != [] && back[0] == outs[n]
    {
    }
  }

  lemma PlacedDone(outs: seq<Output>, front: seq<Output>, back: seq<Output>)
    requires outs == front + back
    requires forall i :: 0 <= i < |front| ==> IsToken(front[i])
    requires TextsOf(outs) != [] && (exists k :: 0 <= k < |back| && IsDone(back[k])) ==> back[0].Complete?
    ensures DoneIsPersisted(outs)
  {
    hide TextsOf;
    var n := |front|;
    assert forall i :: 0 <= i < n ==> outs[i] == front[i];
    assert forall i :: n <= i < |outs| ==> outs[i] == back[i - n];
    if j :| 0 <= j < |outs| && IsDone(outs[j]) {
      assert outs[n] == back[0];
    }
  }

  lemma TailHasNoText(parts: seq<PyString>, tail: Tail)
    ensures TextsOf(TailOutputs(parts, tail)) == []
  {
    var (p, u) := (Persisted(parts), if tail.UsageOnly? || tail.Finishing? then UsageOf(tail.p, tail.c) else []);
    assert TextsOf(p) == [] && TextsOf(u) == [];
    TextsAppend(p, u);
    if tail.Finishing? {
      assert TextsOf([Emit(Done)]) == [];
      TextsAppend(p + u, [Emit(Done)]);
    }
  }

  // The completion contract over every run.
  lemma StreamContract(loads: PyString -> Loaded, inputs: seq<Input>)
    requires Plays(loads, Opening, inputs)
    ensures
      var m := Run(loads, Opening, inputs);
      SoundCompletion(m.gen, m.outs) && DoneIsPersisted(m.outs)
  {
    var m := Run(loads, Opening, inputs);
    var parts, tail := Grammar(loads, inputs);
    CompletionIsSound(m.gen, m.outs, parts, tail);
  }

  // ----- What the loop keeps of the upstream lines -----

  // The nonblank payloads of the data lines.
  function Payloads(lines: seq<PyString>): seq<PyString> {
    if lines == [] then []
    else
      match ParseSseData(lines[0])
      case Some(data) => (if data == [] then [] else [data]) + Payloads(lines[1..])
      case None => Payloads(lines[1..])
  }

  function BeforeDone(payloads: seq<PyString>): seq<PyString> {
    if payloads == [] || payloads[0] == DONE then [] else [payloads[0]] + BeforeDone(payloads[1..])
  }

  // The chunks among some payloads, malformed JSON left out.
  function Chunks(loads: PyString -> Loaded, payloads: seq<PyString>): seq<Chunk> {
    if payloads == [] then []
    else if loads(payloads[0]).Parsed? then [loads(payloads[0]).chunk] + Chunks(loads, payloads[1..])
    else Chunks(loads, payloads[1..])
  }

  function Deltas(chunks: seq<Chunk>): seq<PyString> {
    if chunks == [] then []
    else (if chunks[0].content == [] then [] else [chunks[0].content]) + Deltas(chunks[1..])
  }

  // The last count reported, 0 if there is none.
  function LastCount(counts: seq<Option<int>>): int {
    if counts == [] then 0
    else if counts[|counts| - 1].Some? then counts[|counts| - 1].value
    else LastCount(counts[..|counts| - 1])
  }

  function Prompts(chunks: seq<Chunk>): seq<Option<int>> {
    seq(|chunks|, i requires 0 <= i < |chunks| => chunks[i].prompt)
  }

  function Completions(chunks: seq<Chunk>): seq<Option<int>> {
    seq(|chunks|, i requires 0 <= i < |chunks| => chunks[i].completion)
  }

  // The chunks an upstream body delivers, up to its end or its [DONE].
  function Delivered(loads: PyString -> Loaded, lines: seq<PyString>): seq<Chunk> {
    Chunks(loads, BeforeDone(Payloads(lines)))
  }

  // What the whole body amounts to.
  function TotalsOf(chunks: seq<Chunk>): Totals {
    Totals(Deltas(chunks), LastCount(Prompts(chunks)), LastCount(Completions(chunks)))
  }

  // No payload before [DONE] makes the generator raise.
  predicate AllUsable(loads: PyString -> Loaded, lines: seq<PyString>) {
    var ps := BeforeDone(Payloads(lines));
    forall i :: 0 <= i < |ps| ==> !loads(ps[i]).Unusable?
  }

  lemma {:induction false} DeltasAppend(a: seq<Chunk>, b: seq<Chunk>)
    ensures Deltas(a + b) == Deltas(a) + Deltas(b)
  {
    if a == [] {
      assert a + b == b;
    } else {
      assert (a + b)[1..] == a[1..] + b;
      DeltasAppend(a[1..], b);
    }
  }

  lemma GatherNext(chunks: seq<Chunk>, c: Chunk)
    ensures TotalsOf(chunks + [c]) == Gather(TotalsOf(chunks), c)
  {
    var all := chunks + [c];
    DeltasAppend(chunks, [c]);
    assert Deltas([c]) == (if c.content == [] then [] else [c.content]) + Deltas([c][1..]);
    assert Prompts(all)[..|chunks|] == Prompts(chunks);
    assert Completions(all)[..|chunks|] == Completions(chunks);
    assert Deltas(chunks) + [] == Deltas(chunks);
  }

  // The lines of a body, as they are written.
  datatype Written = DataLine(before: PyString, payload: PyString, after: PyString) | OtherLine(line: PyString)
  {
    predicate Valid() {
      match this
      case DataLine(w, p, v) => AllBlank(PyBlanks, w) && AllBlank(PyBlanks, v) && CleanEnds(PyBlanks, p)
      case OtherLine(line) => !(Ascii("data:") <= line)
    }

    function Line(): PyString {
      if DataLine? then Ascii("data:") + before + payload + after else line
    }
  }

  function LinesOf(ws: seq<Written>): seq<PyString> {
    seq(|ws|, i requires 0 <= i < |ws| => ws[i].Line())
  }

  function PayloadsOf(ws: seq<Written>): seq<PyString> {
    if ws == [] then []
    else (if ws[0].DataLine? && ws[0].payload != [] then [ws[0].payload] else []) + PayloadsOf(ws[1..])
  }

  lemma {:induction false} PayloadsRead(ws: seq<Written>)
    requires forall i :: 0 <= i < |ws| ==> ws[i].Valid()
    ensures Payloads(LinesOf(ws)) == PayloadsOf(ws)
  {
    hide ParseSseData, PyStrip;
    if ws != [] {
      assert ws[0].Valid();
      assert LinesOf(ws)[1..] == LinesOf(ws[1..]);
      PayloadsRead(ws[1..]);
      if ws[0].DataLine? {
        DataLineRead(ws[0].before, ws[0].payload, ws[0].after);
      } else {
        OtherLineSkipped(ws[0].line);
      }
      assert [] + PayloadsOf(ws[1..]) == PayloadsOf(ws[1..]);
    }
  }

  // A body delivers the parsed chunks of its nonblank payloads, all of them or
  // those before the first [DONE].
  lemma BodyDelivers(loads: PyString -> Loaded, ws: seq<Written>, a: seq<PyString>, b: seq<PyString>)
    requires forall i :: 0 <= i < |ws| ==> ws[i].Valid()
    requires DONE !in a
    ensures PayloadsOf(ws) == a ==> Delivered(loads, LinesOf(ws)) == Chunks(loads, a)
    ensures PayloadsOf(ws) == a + [DONE] + b ==> Delivered(loads, LinesOf(ws)) == Chunks(loads, a)
  {
    hide Chunks, Payloads, PayloadsOf;
    PayloadsRead(ws);
    BeforeDoneAll(a);
    BeforeDoneCut(a, [DONE] + b);
    assert a + [DONE] + b == a + ([DONE] + b);
    assert BeforeDone([DONE] + b) == [] && a + [] == a;
  }

  // A line of the wrong kind, with a blank payload or with malformed JSON.
  predicate Skipped(loads: PyString -> Loaded, line: PyString) {
    match ParseSseData(line)
    case None => true
    case Some(data) => data == [] || (data != DONE && loads(data).Malformed?)
  }

  lemma {:induction false} PayloadsAppend(a: seq<PyString>, b: seq<PyString>)
    ensures Payloads(a + b) == Payloads(a) + Payloads(b)
  {
    if a == [] {
      assert a + b == b;
    } else {
      assert (a + b)[1..] == a[1..] + b;
      PayloadsAppend(a[1..], b);
    }
  }

  lemma {:induction false} MalformedIgnored(loads: PyString -> Loaded, a: seq<PyString>, p: PyString, b: seq<PyString>)
    requires p != DONE && loads(p).Malformed?
    ensures Chunks(loads, BeforeDone(a + [p] + b)) == Chunks(loads, BeforeDone(a + b))
  {
    if a == [] {
      assert a + [p] + b == [p] + b && a + b == b && ([p] + b)[1..] == b;
      assert BeforeDone([p] + b)[1..] == BeforeDone(b);
    } else {
      assert (a + [p] + b)[1..] == a[1..] + [p] + b && (a + b)[1..] == a[1..] + b;
      MalformedIgnored(loads, a[1..], p, b);
      if a[0] != DONE {
        assert BeforeDone(a + [p] + b)[1..] == BeforeDone(a[1..] + [p] + b);
        assert BeforeDone(a + b)[1..] == BeforeDone(a[1..] + b);
      }
    }
  }

  // Comments, blank payloads and malformed JSON change nothing, wherever they
  // are inserted.
  lemma SkippedLineIgnored(loads: PyString -> Loaded, a: seq<PyString>, line: PyString, b: seq<PyString>)
    requires Skipped(loads, line)
    ensures Delivered(loads, a + [line] + b) == Delivered(loads, a + b)
  {
    hide Chunks, BeforeDone, ParseSseData;
    PayloadsAppend(a + [line], b);
    PayloadsAppend(a, [line]);
    PayloadsAppend(a, b);
    var none: seq<PyString> := [];
    assert [line][1..] == none;
    match ParseSseData(line)
    case Some(data) =>
      if data != [] {
        assert Payloads([line]) == [data];
        MalformedIgnored(loads, Payloads(a), data, Payloads(b));
      } else {
        assert Payloads([line]) == none;
        assert Payloads(a) + none == Payloads(a);
      }
    case None =>
      assert Payloads([line]) == none;
      assert Payloads(a) + none == Payloads(a);
  }

  // ----- The coroutine, driven to its end -----

  // What the upstream call comes to, and what its end does.
  datatype Upstream =
    | Unreachable(failure: Failure)
    | ErrorStatus
    | Body(lines: seq<PyString>, ending: Option<Failure>, closing: Option<Failure>)

  // Whether some payload before the end is the [DONE] sentinel.
  predicate SaysDone(lines: seq<PyString>) { DONE in Payloads(lines) }

  // The outputs of a generator that is neither disconnected nor cancelled.
  function StreamOutputs(loads: PyString -> Loaded, up: Upstream): seq<Output> {
    match up
    case Unreachable(f) => [Emit(Error(f))]
    case ErrorStatus => [Emit(Error(ModelError))]
    case Body(lines, ending, closing) =>
      var t := TotalsOf(Delivered(loads, lines));
      var failure := if !SaysDone(lines) && ending.Some? then ending else closing;
      Tokens(t.parts) + TailOutputs(t.parts,
        if failure.Some? then Failing(failure.value) else Finishing(t.prompt, t.completion))
  }

  // The loop's progress: the chunks of the lines read, the last of which may be
  // the [DONE] line.
  ghost predicate Progress(loads: PyString -> Loaded, lines: seq<PyString>, i: nat, sawDone: bool, seen: seq<Chunk>) {
    && i <= |lines|
    && seen == Delivered(loads, lines[..i])
    && AllUsable(loads, lines[..i]) && (SaysDone(lines[..i]) <==> sawDone)
  }

  // The first payload that makes the generator raise is on line n.
  ghost predicate RaisesAt(loads: PyString -> Loaded, lines: seq<PyString>, n: nat) {
    && n < |lines|
    && AllUsable(loads, lines[..n]) && !SaysDone(lines[..n])
    && ParseSseData(lines[n]).Some? && ParseSseData(lines[n]).value !in [[], DONE]
    && loads(ParseSseData(lines[n]).value).Unusable?
  }

  // stream_chat with every yield and callback recorded, for a client that stays.
  // A payload of the wrong shape raises, after the tokens before it.
  method StreamChat(loads: PyString -> Loaded, up: Upstream) returns (outs: seq<Output>, raised: bool)
    ensures raised <==> up.Body? && !AllUsable(loads, up.lines)
    ensures !raised ==> outs == StreamOutputs(loads, up)
    ensures raised ==>
      exists n: nat :: RaisesAt(loads, up.lines, n) && outs == Tokens(TotalsOf(Delivered(loads, up.lines[..n])).parts)
  {
    hide Delivered, AllUsable, SaysDone, TotalsOf, ParseSseData, Tokens, Concat, Progress, RaisesAt;
    outs, raised := [], false;
    if up.Unreachable? {
      return [Emit(Error(up.failure))], false;
    }
    if up.ErrorStatus? {
      return [Emit(Error(ModelError))], false;
    }
    var assistantParts: seq<PyString> := [];
    var promptTokens, completionTokens := 0, 0;
    var sawDone := false;
    ghost var seen: seq<Chunk> := [];
    var i := 0;
    NothingYet(loads, up.lines);
    while i < |up.lines| && !sawDone
      invariant 0 <= i <= |up.lines| && !raised
      invariant Progress(loads, up.lines, i, sawDone, seen)
      invariant Totals(assistantParts, promptTokens, completionTokens) == TotalsOf(seen)
      invariant outs == Tokens(assistantParts)
      decreases |up.lines| - i, !sawDone
    {
      var data := ParseSseData(up.lines[i]);
      NextProgress(loads, up.lines, i, seen);
      i := i + 1;
      if data.None? || data.value == [] {
        continue;
      }
      if data.value == DONE {
        sawDone := true;
        continue;
      }
      var chunk := loads(data.value);
      if chunk.Malformed? {
        continue;
      }
      if chunk.Unusable? {
        return outs, true;
      }
      var c := chunk.chunk;
      GatherNext(seen, c);
      seen := seen + [c];
      if c.prompt.Some? {
        promptTokens := c.prompt.value;
      }
      if c.completion.Some? {
        completionTokens := c.completion.value;
      }
      if c.content != [] {
        TokensNext(assistantParts, c.content);
        assistantParts := assistantParts + [c.content];
        outs := outs + [Emit(Token(c.content))];
      }
    }
    LoopEnds(loads, up.lines, i, sawDone, seen);
    if !sawDone && up.ending.Some? {
      return outs + [Emit(Error(up.ending.value))], false;
    }
    if up.closing.Some? {
      return outs + [Emit(Error(up.closing.value))], false;
    }
    if assistantParts != [] {
      outs := outs + [Complete(Concat(assistantParts))];
    }
    if promptTokens != 0 || completionTokens != 0 {
      outs := outs + [Emit(Usage(promptTokens, completionTokens))];
    }
    outs := outs + [Emit(Done)];
  }

  lemma NothingYet(loads: PyString -> Loaded, lines: seq<PyString>)
    ensures TotalsOf([]) == NoTotals && Tokens([]) == []
    ensures Progress(loads, lines, 0, false, [])
  {
    assert lines[..0] == [];
  }

  // Nothing after [DONE] counts.
  lemma AfterDoneIgnored(loads: PyString -> Loaded, a: seq<PyString>, b: seq<PyString>)
    requires SaysDone(a)
    ensures SaysDone(a + b) && Delivered(loads, a + b) == Delivered(loads, a)
    ensures AllUsable(loads, a + b) <==> AllUsable(loads, a)
  {
    hide ParseSseData, Chunks;
    PayloadsAppend(a, b);
    BeforeDoneCut(Payloads(a), Payloads(b));
  }

  lemma {:induction false} BeforeDoneCut(a: seq<PyString>, b: seq<PyString>)
    ensures DONE in a ==> BeforeDone(a + b) == BeforeDone(a)
    ensures DONE !in a ==> BeforeDone(a + b) == a + BeforeDone(b)
  {
    if a == [] {
      assert a + b == b;
    } else {
      assert (a + b)[1..] == a[1..] + b;
      BeforeDoneCut(a[1..], b);
    }
  }

  lemma LoopEnds(loads: PyString -> Loaded, lines: seq<PyString>, i: nat, sawDone: bool, seen: seq<Chunk>)
    requires Progress(loads, lines, i, sawDone, seen) && (i < |lines| ==> sawDone)
    ensures Delivered(loads, lines) == seen && (SaysDone(lines) <==> sawDone) && AllUsable(loads, lines)
  {
    hide Delivered, AllUsable, SaysDone;
    assert lines[..i] + lines[i..] == lines;
    if sawDone {
      AfterDoneIgnored(loads, lines[..i], lines[i..]);
    } else {
      assert lines[..i] == lines;
    }
  }

  // One turn of the loop.
  lemma NextProgress(loads: PyString -> Loaded, lines: seq<PyString>, i: nat, seen: seq<Chunk>)
    requires i < |lines| && Progress(loads, lines, i, false, seen)
    ensures
      var data := ParseSseData(lines[i]);
      if data.None? || data.value == [] then Progress(loads, lines, i + 1, false, seen)
      else if data.value == DONE then Progress(loads, lines, i + 1, true, seen)
      else
        var c := loads(data.value);
        && (c.Malformed? ==> Progress(loads, lines, i + 1, false, seen))
        && (c.Parsed? ==> Progress(loads, lines, i + 1, false, seen + [c.chunk]))
        && (c.Unusable? ==>
              RaisesAt(loads, lines, i) && !AllUsable(loads, lines) && seen == Delivered(loads, lines[..i]))
  {
    hide Delivered, AllUsable, SaysDone, ParseSseData;
    assert lines[..i + 1] == lines[..i] + [lines[i]];
    NextLine(loads, lines[..i], lines[i]);
    var data := ParseSseData(lines[i]);
    if data.Some? && data.value != [] && data.value != DONE && loads(data.value).Unusable? {
      StaysUnusable(loads, lines[..i + 1], lines[i + 1..]);
      assert lines == lines[..i + 1] + lines[i + 1..];
    }
  }

  lemma StaysUnusable(loads: PyString -> Loaded, a: seq<PyString>, b: seq<PyString>)
    requires !AllUsable(loads, a)
    ensures !AllUsable(loads, a + b)
  {
    hide ParseSseData;
    PayloadsAppend(a, b);
    BeforeDoneCut(Payloads(a), Payloads(b));
    if DONE !in Payloads(a) {
      BeforeDoneAll(Payloads(a));
      var (x, y) := (BeforeDone(Payloads(a)), BeforeDone(Payloads(a + b)));
      var k :| 0 <= k < |x| && loads(x[k]).Unusable?;
      assert y[k] == x[k];
    }
  }

  lemma TokensNext(parts: seq<PyString>, text: PyString)
    ensures Tokens(parts + [text]) == Tokens(parts) + [Emit(Token(text))]
  {
    assert (parts + [text])[..|parts|] == parts;
  }

  // One more line of the body.
  lemma NextLine(loads: PyString -> Loaded, lines: seq<PyString>, line: PyString)
    requires !SaysDone(lines)
    ensures
      var all := lines + [line];
      var data := ParseSseData(line);
      if data.None? || data.value == [] || data.value == DONE then
        && Delivered(loads, all) == Delivered(loads, lines)
        && (AllUsable(loads, all) <==> AllUsable(loads, lines))
        && (SaysDone(all) <==> data == Some(DONE))
      else
        var c := loads(data.value);
        && Delivered(loads, all) == Delivered(loads, lines) + (if c.Parsed? then [c.chunk] else [])
        && (AllUsable(loads, all) <==> AllUsable(loads, lines) && !c.Unusable?)
        && !SaysDone(all)
  {
    hide ParseSseData, BeforeDone, Chunks;
    OnePayload(line);
    PayloadsAppend(lines, [line]);
    var (ps, data) := (Payloads(lines), ParseSseData(line));
    BeforeDoneAll(ps);
    if data.None? || data.value == [] {
      assert ps + [] == ps;
    } else {
      var p := data.value;
      BeforeDoneAppend(ps, p);
      if p == DONE {
        assert ps + [] == ps;
        assert (ps + [p])[|ps|] == DONE;
      } else {
        ChunksAppend(loads, ps, [p]);
        OneChunk(loads, p);
        var xs := ps + [p];
        assert xs[|ps|] == p && forall i :: 0 <= i < |ps| ==> xs[i] == ps[i];
      }
    }
  }

  lemma OnePayload(line: PyString)
    ensures
      var data := ParseSseData(line);
      Payloads([line]) == if data.None? || data.value == [] then [] else [data.value]
  {
    hide ParseSseData;
    var none: seq<PyString> := [];
    assert [line][1..] == none;
  }

  lemma {:induction false} BeforeDoneAppend(a: seq<PyString>, p: PyString)
    requires DONE !in a
    ensures BeforeDone(a + [p]) == a + (if p == DONE then [] else [p])
  {
    if a == [] {
      var none: seq<PyString> := [];
      assert [p][1..] == none;
    } else {
      assert (a + [p])[1..] == a[1..] + [p];
      BeforeDoneAppend(a[1..], p);
    }
  }

  lemma {:induction false} BeforeDoneAll(a: seq<PyString>)
    requires DONE !in a
    ensures BeforeDone(a) == a
  {
    if a != [] {
      BeforeDoneAll(a[1..]);
    }
  }

  lemma {:induction false} ChunksAppend(loads: PyString -> Loaded, a: seq<PyString>, b: seq<PyString>)
    ensures Chunks(loads, a + b) == Chunks(loads, a) + Chunks(loads, b)
  {
    if a == [] {
      assert a + b == b;
    } else {
      assert (a + b)[1..] == a[1..] + b;
      ChunksAppend(loads, a[1..], b);
    }
  }

  // One more line at the end of the lines read.
  lemma LineRead(loads: PyString -> Loaded, lines: seq<PyString>, line: PyString)
    requires !SaysDone(lines)
    ensures
      var (t, t') := (TotalsOf(Delivered(loads, lines)), TotalsOf(Delivered(loads, lines + [line])));
      var m := OnLine(loads, t, line);
      && (m.gen.Reading? ==> m.gen.t == t' && !SaysDone(lines + [line]))
      && (!m.gen.Reading? ==> t' == t)
  {
    hide ParseSseData, TotalsOf, Gather, Delivered, SaysDone, AllUsable;
    NextLine(loads, lines, line);
    var data := ParseSseData(line);
    if data.Some? && data.value != [] && data.value != DONE {
      var c := loads(data.value);
      if c.Parsed? {
        GatherNext(Delivered(loads, lines), c.chunk);
      } else {
        assert Delivered(loads, lines) + [] == Delivered(loads, lines);
      }
    }
  }

  lemma OneChunk(loads: PyString -> Loaded, p: PyString)
    ensures Chunks(loads, [p]) == if loads(p).Parsed? then [loads(p).chunk] else []
  {
    var none: seq<PyString> := [];
    assert [p][1..] == none;
  }
}
