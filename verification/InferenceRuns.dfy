// What every run of stream_chat puts out and where it stops, told from its inputs
// alone: the lines read, how the upstream call ended, who left.
module InferenceRuns {
  import opened Text
  import opened Frames
  import opened Inference

  // ----- What a run has been told -----

  // The lines a run has acted on: the ones read while the client was there.
  function LinesRead(inputs: seq<Input>): seq<PyString> {
    if inputs == [] then []
    else LinesRead(inputs[..|inputs| - 1]) + LineOf(inputs[|inputs| - 1])
  }

  function LineOf(input: Input): seq<PyString> {
    if input.Line? && !input.gone then [input.line] else []
  }

  // The upstream call failed, or its response was closed.
  predicate IsEnd(input: Input) {
    Fails(input) || input.Closed?
  }

  predicate Fails(input: Input) {
    input.Refused? || input.BadStatus? || input.LinesFail? || input.CloseFails?
  }

  function FailureOf(input: Input): Failure
    requires Fails(input)
  {
    if input.BadStatus? then ModelError else input.failure
  }

  function EndOf(inputs: seq<Input>): Option<Input> {
    if inputs == [] then None
    else if IsEnd(inputs[|inputs| - 1]) then Some(inputs[|inputs| - 1])
    else EndOf(inputs[..|inputs| - 1])
  }

  // How often the consumer has asked for more since then.
  function ResumesSince(inputs: seq<Input>): nat {
    if inputs == [] || IsEnd(inputs[|inputs| - 1]) then 0
    else ResumesSince(inputs[..|inputs| - 1]) + if inputs[|inputs| - 1].Resume? then 1 else 0
  }

  // A line came up after the client had left.
  predicate SawGone(inputs: seq<Input>) {
    exists i :: 0 <= i < |inputs| && inputs[i].Line? && inputs[i].gone
  }

  function Read(loads: PyString -> Loaded, inputs: seq<Input>): Totals {
    TotalsOf(Delivered(loads, LinesRead(inputs)))
  }

  predicate Counted(t: Totals) { t.prompt != 0 || t.completion != 0 }

  // ----- The outputs and the state they amount to -----

  function ExactOutputs(loads: PyString -> Loaded, inputs: seq<Input>): seq<Output> {
    Tokens(Read(loads, inputs).parts) + LastOutputs(Read(loads, inputs), EndOf(inputs), ResumesSince(inputs))
  }

  // What follows the tokens: the one error of a failed call; or the reply handed
  // over, the counts if there are any, and done, in two steps if there are.
  function LastOutputs(t: Totals, end: Option<Input>, resumes: nat): seq<Output> {
    if end.None? || !IsEnd(end.value) then []
    else if Fails(end.value) then [Emit(Error(FailureOf(end.value)))]
    else
      Persisted(t.parts) + UsageOf(t.prompt, t.completion)
      + if Counted(t) && resumes == 0 then [] else [Emit(Done)]
  }

  function ExactGen(loads: PyString -> Loaded, inputs: seq<Input>): Gen {
    var (t, lines) := (Read(loads, inputs), LinesRead(inputs));
    if Cancel in inputs then Ended(Cancelled)
    else if SawGone(inputs) then Ended(Disconnected)
    else if !AllUsable(loads, lines) then Ended(Crashed)
    else if EndOf(inputs).Some? then LastGen(t, EndOf(inputs).value, ResumesSince(inputs))
    else if SaysDone(lines) || NoMoreLines in inputs then Leaving(t)
    else if Opened in inputs then Reading(t)
    else Opening
  }

  function LastGen(t: Totals, end: Input, resumes: nat): Gen {
    if end.Closed? && Counted(t) then
      if resumes == 0 then UsageSent else if resumes == 1 then Final else Ended(Returned)
    else if resumes == 0 then Final
    else Ended(Returned)
  }

  // ----- One more input -----

  lemma ToldNext(inputs: seq<Input>, x: Input)
    ensures
      var all := inputs + [x];
      && LinesRead(all) == LinesRead(inputs) + LineOf(x)
      && EndOf(all) == (if IsEnd(x) then Some(x) else EndOf(inputs))
      && ResumesSince(all) == (if IsEnd(x) then 0 else ResumesSince(inputs) + if x.Resume? then 1 else 0)
      && (SawGone(all) <==> SawGone(inputs) || (x.Line? && x.gone))
  {
    var all := inputs + [x];
    assert all[..|inputs|] == inputs && all[|inputs|] == x;
    assert forall i :: 0 <= i < |inputs| ==> all[i] == inputs[i];
    if SawGone(inputs) {
      var i :| 0 <= i < |inputs| && inputs[i].Line? && inputs[i].gone;
      assert all[i] == inputs[i];
    }
  }

  // Before the response is there nothing has been read; a call ends once, refused
  // only before that and failing in its lines only before [DONE].
  predicate Orderly(inputs: seq<Input>) {
    && (Opened in inputs || (LinesRead(inputs) == [] && NoMoreLines !in inputs))
    && (forall i :: 0 <= i < |inputs| && IsEnd(inputs[i]) ==> EndOf(inputs) == Some(inputs[i]))
    && (EndOf(inputs).Some? ==> EndFits(EndOf(inputs).value, LinesRead(inputs)))
  }

  predicate EndFits(end: Input, lines: seq<PyString>) {
    && (end.Refused? || end.BadStatus? ==> lines == [])
    && (end.LinesFail? ==> !SaysDone(lines))
  }

  lemma LineNext(loads: PyString -> Loaded, inputs: seq<Input>, x: Input, g: Gen)
    requires x.Line? && g == ExactGen(loads, inputs) && g.Reading? && Orderly(inputs)
    ensures
      var (all, m) := (inputs + [x], Advance(loads, g, x));
      && m.gen == ExactGen(loads, all)
      && ExactOutputs(loads, inputs) + m.outs == ExactOutputs(loads, all)
      && Orderly(all)
  {
    hide TotalsOf, Delivered, AllUsable, SaysDone, OnLine, LinesRead, EndOf, ResumesSince, SawGone, Tokens;
    var all := inputs + [x];
    ToldNext(inputs, x);
    var (lines, t) := (LinesRead(inputs), Read(loads, inputs));
    if x.gone {
      assert lines + [] == lines;
      assert ExactOutputs(loads, inputs) + [] == ExactOutputs(loads, inputs);
    } else {
      LineRead(loads, lines, x.line);
      OnLineOutputs(loads, t, x.line);
      var m := OnLine(loads, t, x.line);
      if m.outs != [] {
        TokensNext(t.parts, m.outs[0].frame.text);
      }
      var t' := Read(loads, all);
      assert m.outs == [] || m.outs == [Emit(Token(m.outs[0].frame.text))];
      assert t.parts + [] == t.parts && Tokens(t.parts) + [] == Tokens(t.parts);
      assert Tokens(t.parts) + m.outs == Tokens(t'.parts);
      assert Tokens(t'.parts) + [] == Tokens(t'.parts);
    }
  }

  lemma OnLineOutputs(loads: PyString -> Loaded, t: Totals, line: PyString)
    ensures
      var m := OnLine(loads, t, line);
      && (m.gen.Reading? || m.gen == Leaving(t) || m.gen == Ended(Crashed))
      && (!m.gen.Reading? ==> m.outs == [])
      && (m.outs == [] || (|m.outs| == 1 && IsToken(m.outs[0])))
      && (m.gen.Reading? ==>
            m.gen.t.parts == t.parts + if m.outs == [] then [] else [m.outs[0].frame.text])
  {
    hide ParseSseData;
  }

  // The line at the end of the lines read, and what the loop makes of it.
  lemma LineRead(loads: PyString -> Loaded, lines: seq<PyString>, line: PyString)
    requires !SaysDone(lines) && AllUsable(loads, lines)
    ensures
      var (all, t, t') := (lines + [line], TotalsOf(Delivered(loads, lines)), TotalsOf(Delivered(loads, lines + [line])));
      var m := OnLine(loads, t, line);
      && (m.gen.Ended? <==> !AllUsable(loads, all))
      && (m.gen.Leaving? <==> SaysDone(all))
      && (m.gen.Reading? ==> m.gen.t == t')
      && (!m.gen.Reading? ==> t' == t)
  {
    hide ParseSseData, TotalsOf, Gather, Delivered, SaysDone, AllUsable;
    NextLine(loads, lines, line);
    var data := ParseSseData(line);
    if data.Some? && data.value != [] && data.value != DONE {
      var c := loads(data.value);
      if c.Parsed? {
        GatherNext(Delivered(loads, lines), c.chunk);
      } else {
        assert Delivered(loads, lines) + [] == Delivered(loads, lines);
      }
    }
  }

  lemma OtherNext(loads: PyString -> Loaded, inputs: seq<Input>, x: Input, g: Gen)
    requires !x.Line? && g == ExactGen(loads, inputs) && Accepts(g, x) && Orderly(inputs)
    ensures
      var (all, m) := (inputs + [x], Advance(loads, g, x));
      && m.gen == ExactGen(loads, all)
      && ExactOutputs(loads, inputs) + m.outs == ExactOutputs(loads, all)
      && Orderly(all)
  {
    hide TotalsOf, Delivered, AllUsable, SaysDone, OnLine, LinesRead, EndOf, ResumesSince, SawGone, Tokens, Concat;
    ToldNext(inputs, x);
    EndOfIsIn(inputs);
    assert LinesRead(inputs) + [] == LinesRead(inputs);
    OpeningTotals(loads);
    var t := Read(loads, inputs);
    assert Tokens(t.parts) + [] == Tokens(t.parts);
    var m := Advance(loads, g, x);
    var last := LastOutputs(t, EndOf(inputs), ResumesSince(inputs));
    var last' := LastOutputs(t, EndOf(inputs + [x]), ResumesSince(inputs + [x]));
    assert last + m.outs == last';
    assert Tokens(t.parts) + last + m.outs == Tokens(t.parts) + (last + m.outs);
  }

  lemma OpeningTotals(loads: PyString -> Loaded)
    ensures TotalsOf(Delivered(loads, [])) == NoTotals && AllUsable(loads, []) && !SaysDone([])
  {
  }

  // ----- Every run -----

  lemma {:induction false} PlaysFront(loads: PyString -> Loaded, g: Gen, inputs: seq<Input>)
    requires inputs != [] && Plays(loads, g, inputs)
    ensures
      var front := inputs[..|inputs| - 1];
      Plays(loads, g, front) && Accepts(Run(loads, g, front).gen, inputs[|inputs| - 1])
    decreases |inputs|
  {
    hide Advance, Accepts;
    if |inputs| == 1 {
      assert inputs[..0] == [];
    } else {
      var m := Advance(loads, g, inputs[0]);
      PlaysFront(loads, m.gen, inputs[1..]);
      assert inputs[..|inputs| - 1][1..] == inputs[1..][..|inputs| - 2];
    }
  }

  // Over every upstream behaviour, disconnect and cancellation: what a run has put
  // out and where it is, exactly, from its inputs.
  lemma {:induction false} ExactRun(loads: PyString -> Loaded, inputs: seq<Input>)
    requires Plays(loads, Opening, inputs)
    ensures Run(loads, Opening, inputs) == Move(ExactGen(loads, inputs), ExactOutputs(loads, inputs))
    ensures Orderly(inputs)
    decreases |inputs|
  {
    if inputs == [] {
      StartsExact(loads);
    } else {
      hide Run, Plays, ExactGen, ExactOutputs, Orderly, Advance, Accepts;
      var (front, x) := (inputs[..|inputs| - 1], inputs[|inputs| - 1]);
      assert inputs == front + [x];
      PlaysFront(loads, Opening, inputs);
      ExactRun(loads, front);
      RunNext(loads, Opening, front, x);
      var g := ExactGen(loads, front);
      if x.Line? {
        ReadingAccepts(g, x);
        LineNext(loads, front, x, g);
      } else {
        OtherNext(loads, front, x, g);
      }
    }
  }

  lemma ReadingAccepts(g: Gen, x: Input)
    requires x.Line? && Accepts(g, x)
    ensures g.Reading?
  {
  }

  lemma StartsExact(loads: PyString -> Loaded)
    ensures Run(loads, Opening, []) == Move(ExactGen(loads, []), ExactOutputs(loads, [])) && Orderly([])
  {
    hide TotalsOf, Delivered, AllUsable, SaysDone;
    OpeningTotals(loads);
  }

  // ----- What that says -----

  // A call that failed has put out its tokens and one error, whatever came before
  // or after the failure.
  lemma FailureMeansError(loads: PyString -> Loaded, inputs: seq<Input>, x: Input)
    requires Plays(loads, Opening, inputs) && x in inputs && Fails(x)
    ensures
      var outs := Run(loads, Opening, inputs).outs;
      && outs == Tokens(Read(loads, inputs).parts) + [Emit(Error(FailureOf(x)))]
      && (x.Refused? || x.BadStatus? ==> outs == [Emit(Error(FailureOf(x)))])
      && forall i :: 0 <= i < |outs| ==> !outs[i].Complete?
  {
    hide TotalsOf, Delivered, Run, Plays, LinesRead, EndOf, ResumesSince, ExactGen, Tokens;
    ExactRun(loads, inputs);
    OpeningTotals(loads);
    var t := Read(loads, inputs);
    TokensTexts(t.parts);
    assert [] + [Emit(Error(FailureOf(x)))] == [Emit(Error(FailureOf(x)))];
  }

  // The completion callback runs exactly when the response was closed after some
  // text, and then with that text.
  lemma CompletesWhenClosed(loads: PyString -> Loaded, inputs: seq<Input>, text: PyString)
    requires Plays(loads, Opening, inputs)
    ensures
      var parts := Read(loads, inputs).parts;
      Complete(text) in Run(loads, Opening, inputs).outs <==>
        Closed in inputs && parts != [] && text == Concat(parts)
  {
    hide TotalsOf, Delivered, Run, Plays, LinesRead, EndOf, ResumesSince, ExactGen, Tokens, Concat;
    ExactRun(loads, inputs);
    var t := Read(loads, inputs);
    var (front, back) := (Tokens(t.parts), LastOutputs(t, EndOf(inputs), ResumesSince(inputs)));
    TokensTexts(t.parts);
    EndOfIsIn(inputs);
    assert forall o :: o in front + back <==> o in front || o in back;
    if back != [] && Complete(text) in back {
      assert EndOf(inputs) == Some(Closed);
    }
    if EndOf(inputs) == Some(Closed) && t.parts != [] {
      assert back[0] == Complete(Concat(t.parts));
    }
  }

  lemma {:induction false} EndOfIsIn(inputs: seq<Input>)
    ensures EndOf(inputs).Some? ==> EndOf(inputs).value in inputs && IsEnd(EndOf(inputs).value)
  {
    if inputs != [] && !IsEnd(inputs[|inputs| - 1]) {
      var front := inputs[..|inputs| - 1];
      EndOfIsIn(front);
      assert forall x :: x in front ==> x in inputs;
    }
  }

  // A client that left and a cancellation add nothing and end the run.
  lemma LeavingIsSilent(loads: PyString -> Loaded, inputs: seq<Input>, x: Input)
    requires Plays(loads, Opening, inputs + [x]) && (x.Cancel? || (x.Line? && x.gone))
    ensures Plays(loads, Opening, inputs)
    ensures
      var (m, m') := (Run(loads, Opening, inputs), Run(loads, Opening, inputs + [x]));
      m'.outs == m.outs && m'.gen == Ended(if x.Cancel? then Cancelled else Disconnected)
  {
    var all := inputs + [x];
    assert all[..|inputs|] == inputs && all[|inputs|] == x;
    PlaysFront(loads, Opening, all);
    RunNext(loads, Opening, inputs, x);
    hide Run, Plays;
    var m := Run(loads, Opening, inputs);
    assert m.outs + [] == m.outs;
  }

  // ----- Against the loop written out -----

  // Some usage frame, some done frame among some outputs.
  predicate HasUsage(outs: seq<Output>) { exists i :: 0 <= i < |outs| && IsUsage(outs[i]) }
  predicate HasDone(outs: seq<Output>) { exists i :: 0 <= i < |outs| && IsDone(outs[i]) }

  predicate Reports(o: Output, t: Totals) { IsUsage(o) ==> o.frame == Usage(t.prompt, t.completion) }

  // The outputs against the chunks the lines deliver: the same texts, the last
  // counts, and no done frame that leaves a nonzero count unreported.
  ghost predicate Faithful(outs: seq<Output>, t: Totals) {
    && TextsOf(outs) == t.parts
    && (forall i :: 0 <= i < |outs| ==> Reports(outs[i], t))
    && (HasDone(outs) && Counted(t) ==> HasUsage(outs))
  }

  // At every point of every run, whatever the client and the upstream do: the
  // token frames are the nonempty deltas of the chunks delivered by the lines
  // read, a usage frame carries the last counts, and done never goes out before
  // a nonzero count is reported.
  lemma LoopSpecification(loads: PyString -> Loaded, inputs: seq<Input>)
    requires Plays(loads, Opening, inputs)
    ensures Faithful(Run(loads, Opening, inputs).outs, Read(loads, inputs))
  {
    hide TotalsOf, Delivered, Run, Plays, LinesRead, EndOf, ResumesSince, ExactGen, Tokens, LastOutputs;
    ExactRun(loads, inputs);
    LastAreFaithful(Read(loads, inputs), EndOf(inputs), ResumesSince(inputs));
  }

  lemma LastAreFaithful(t: Totals, end: Option<Input>, resumes: nat)
    ensures Faithful(Tokens(t.parts) + LastOutputs(t, end, resumes), t)
  {
    var (front, back) := (Tokens(t.parts), LastOutputs(t, end, resumes));
    var outs := front + back;
    LastElements(t, end, resumes);
    hide Tokens, LastOutputs, TextsOf;
    TokensTexts(t.parts);
    TextsAppend(front, back);
    NoTexts(back);
    assert t.parts + [] == t.parts;
    assert forall i :: 0 <= i < |front| ==> outs[i] == front[i];
    assert forall k :: 0 <= k < |back| ==> outs[|front| + k] == back[k];
    forall i | 0 <= i < |outs|
      ensures Reports(outs[i], t)
    {
      assert i >= |front| ==> outs[i] == back[i - |front|];
    }
    if HasDone(outs) && Counted(t) {
      var i :| 0 <= i < |outs| && IsDone(outs[i]);
      assert outs[i] == back[i - |front|];
      var k :| 0 <= k < |back| && IsUsage(back[k]);
      assert IsUsage(outs[|front| + k]);
    }
  }

  lemma LastElements(t: Totals, end: Option<Input>, resumes: nat)
    ensures
      var back := LastOutputs(t, end, resumes);
      && (forall k :: 0 <= k < |back| ==> !IsToken(back[k]) && Reports(back[k], t))
      && (Counted(t) && (exists k :: 0 <= k < |back| && IsDone(back[k])) ==> exists k :: 0 <= k < |back| && IsUsage(back[k]))
  {
    hide Concat;
    var back := LastOutputs(t, end, resumes);
    if end.Some? && end.value.Closed? && Counted(t) {
      assert IsUsage(back[|Persisted(t.parts)|]);
    }
  }

  lemma {:induction false} NoTexts(more: seq<Output>)
    requires forall i :: 0 <= i < |more| ==> !IsToken(more[i])
    ensures TextsOf(more) == []
  {
    if more != [] {
      assert !IsToken(more[0]);
      NoTexts(more[1..]);
    }
  }

  // The upstream call a run has seen the end of.
  function UpstreamOf(inputs: seq<Input>): Upstream {
    match EndOf(inputs)
    case Some(Refused(f)) => Unreachable(f)
    case Some(BadStatus) => ErrorStatus
    case Some(LinesFail(f)) => Body(LinesRead(inputs), Some(f), None)
    case Some(CloseFails(f)) => Body(LinesRead(inputs), None, Some(f))
    case _ => Body(LinesRead(inputs), None, None)
  }

  // The step machine and the loop written out agree on every ending: a run that
  // returned has put out what the loop puts out over the same upstream call.
  lemma RunIsLoop(loads: PyString -> Loaded, inputs: seq<Input>)
    requires Plays(loads, Opening, inputs) && Run(loads, Opening, inputs).gen == Ended(Returned)
    ensures Run(loads, Opening, inputs).outs == StreamOutputs(loads, UpstreamOf(inputs))
  {
    hide TotalsOf, Delivered, AllUsable, SaysDone, Run, Plays, LinesRead, EndOf, ResumesSince, SawGone, Tokens, Concat;
    ExactRun(loads, inputs);
    OpeningTotals(loads);
    EndOfIsIn(inputs);
    var t := Read(loads, inputs);
    TokensTexts(t.parts);
    var e := EndOf(inputs).value;
    if e.Refused? || e.BadStatus? {
      assert Tokens(t.parts) == [];
      assert [] + [Emit(Error(FailureOf(e)))] == [Emit(Error(FailureOf(e)))];
    } else if e.Closed? {
      assert LastOutputs(t, Some(e), ResumesSince(inputs)) == TailOutputs(t.parts, Finishing(t.prompt, t.completion));
    }
  }
}
