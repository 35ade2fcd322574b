// What holds of the chat route over every run: slots, streams, memory, and what
// the browser at the other end hears.
module ChatRuns {
  import opened Text
  import opened Sessions
  import opened Requests
  import opened Inference
  import opened InferenceRuns
  import opened ChatRoute
  import opened Frames
  import Middleware
  import Retention
  import Client
  import Chunking
  import Pipeline

  // ----- Slots -----

  // Over every interleaving: the counter, the gauge and the requests holding a
  // slot agree and stay within the cap, and each request has released as often
  // as it should: once if it was admitted and is over, otherwise never.
  lemma SlotAccounting(loads: PyString -> Loaded, cfg: Config, events: seq<Event>)
    requires Happens(loads, cfg, events)
    ensures
      var w := After(loads, cfg, events);
      && w.slots.inFlight == w.slots.gauge == Holders(w.requests)
      && 0 <= w.slots.inFlight <= Max(1, cfg.maxConcurrent)
      && forall i :: 0 <= i < |w.requests| ==>
           w.requests[i].releases == if w.requests[i].Admitted() && !w.requests[i].HoldsSlot() then 1 else 0
  {
    AlwaysGood(loads, cfg, events);
    var w := After(loads, cfg, events);
    hide StoreAgrees, RepliesAgree, Holders, After, Happens, Conversation;
    forall i | 0 <= i < |w.requests|
      ensures w.requests[i].releases == if w.requests[i].Admitted() && !w.requests[i].HoldsSlot() then 1 else 0
    {
      assert RequestAgrees(loads, cfg, w.requests[i]);
    }
  }

  // A release always finds a slot to give back: its guard never stops it.
  lemma GuardNeverBlocks(loads: PyString -> Loaded, cfg: Config, events: seq<Event>, e: Event)
    requires Happens(loads, cfg, events) && Enabled(After(loads, cfg, events), e)
    ensures
      var w := After(loads, cfg, events);
      var w' := Next(loads, cfg, w, e);
      e.Finish? || (e.Feed? && w'.requests[e.i].task.gen.Ended?) ==>
        w'.slots == Middleware.Slots(w.slots.inFlight - 1, w.slots.gauge - 1)
  {
    AlwaysGood(loads, cfg, events);
    SlotsStep(loads, cfg, After(loads, cfg, events), e);
    hide StoreAgrees, RepliesAgree, RequestAgrees, SlotsAgree, Holders, After, Happens,
      Conversation, Advance, Accepts, Retention.Step;
  }

  // A request is refused exactly when every slot is held, and its transcript has
  // been stored by then all the same.
  lemma RefusedWhenFull(
    loads: PyString -> Loaded, cfg: Config, events: seq<Event>, id: SessionId, transcript: seq<Message>, stream: bool, now: real)
    requires Happens(loads, cfg, events) && After(loads, cfg, events).now <= now
    ensures
      var w := After(loads, cfg, events);
      var w' := Next(loads, cfg, w, Arrive(Some(id), transcript, stream, now));
      && (w'.requests[|w.requests|].task.Rejected? <==> Holders(w.requests) == cfg.Cap())
      && w'.store == SyncStep(cfg.limits, w.store, id, transcript, now)
  {
    AlwaysGood(loads, cfg, events);
    hide StoreAgrees, RepliesAgree, RequestAgrees, Holders, After, Happens, Conversation, SyncStep;
  }

  // ----- Responses that are thrown away unstarted -----

  function Leaked(rs: seq<Request>): nat {
    if rs == [] then 0 else Leaked(rs[..|rs| - 1]) + if rs[|rs| - 1].task.Abandoned? then 1 else 0
  }

  // Nothing is under way any more.
  predicate Quiet(rs: seq<Request>) {
    forall i :: 0 <= i < |rs| ==> rs[i].HoldsSlot() ==> rs[i].task.Abandoned?
  }

  lemma {:induction false} LeakedHold(rs: seq<Request>)
    ensures Leaked(rs) <= Holders(rs)
    ensures Quiet(rs) ==> Leaked(rs) == Holders(rs)
  {
    if rs != [] {
      LeakedHold(rs[..|rs| - 1]);
      assert Quiet(rs) ==> Quiet(rs[..|rs| - 1]);
    }
  }

  // Once nothing is under way, the slots still taken are those of the responses
  // whose generator never started; every other slot has come back.
  lemma OnlyUnstartedLeak(loads: PyString -> Loaded, cfg: Config, events: seq<Event>)
    requires Happens(loads, cfg, events) && Quiet(After(loads, cfg, events).requests)
    ensures After(loads, cfg, events).slots.inFlight == Leaked(After(loads, cfg, events).requests)
  {
    AlwaysGood(loads, cfg, events);
    LeakedHold(After(loads, cfg, events).requests);
    hide Holders, After, Happens, Leaked, Quiet, RequestAgrees;
  }

  lemma {:induction false} LeakedUpdate(rs: seq<Request>, i: nat, r: Request)
    requires i < |rs| && (rs[i].task.Abandoned? ==> r.task.Abandoned?)
    ensures Leaked(rs) <= Leaked(rs[i := r])
  {
    var (n, all) := (|rs| - 1, rs[i := r]);
    if i == n {
      assert all[..n] == rs[..n];
    } else {
      assert all[..n] == rs[..n][i := r];
      LeakedUpdate(rs[..n], i, r);
    }
  }

  lemma LeakedGrows(loads: PyString -> Loaded, cfg: Config, w: World, e: Event)
    requires Enabled(w, e)
    ensures Leaked(w.requests) <= Leaked(Next(loads, cfg, w, e).requests)
  {
    hide Advance, Accepts, Conversation, Retention.Step, Leaked;
    var rs := Next(loads, cfg, w, e).requests;
    match e
    case Arrive(_, _, _, _) =>
      assert rs[..|w.requests|] == w.requests;
      LeakedFront(rs);
    case Forget(_, _) =>
    case Start(i, _) => LeakedUpdate(w.requests, i, rs[i]);
    case Drop(i, _) => LeakedUpdate(w.requests, i, rs[i]);
    case Feed(i, _, _) => LeakedUpdate(w.requests, i, rs[i]);
    case Finish(i, _, _) => LeakedUpdate(w.requests, i, rs[i]);
  }

  lemma LeakedFront(rs: seq<Request>)
    requires rs != []
    ensures Leaked(rs[..|rs| - 1]) <= Leaked(rs)
  {
  }

  // Once as many responses as the cap have been thrown away unstarted, no request
  // is ever admitted again.
  lemma {:induction false} LeakIsForever(loads: PyString -> Loaded, cfg: Config, before: seq<Event>, later: seq<Event>)
    requires Happens(loads, cfg, before) && Happens(loads, cfg, before + later)
    requires Leaked(After(loads, cfg, before).requests) >= cfg.Cap()
    ensures
      var (w, w') := (After(loads, cfg, before), After(loads, cfg, before + later));
      && Leaked(w'.requests) >= cfg.Cap() && |w.requests| <= |w'.requests|
      && forall i :: |w.requests| <= i < |w'.requests| ==> w'.requests[i].task.Rejected?
    decreases |later|
  {
    hide Next, Enabled, Leaked;
    if later == [] {
      assert before + later == before;
    } else {
      var (front, e) := (later[..|later| - 1], later[|later| - 1]);
      var all := before + later;
      assert all[..|all| - 1] == before + front && all[|all| - 1] == e;
      LeakIsForever(loads, cfg, before, front);
      var w := After(loads, cfg, before + front);
      LeakedGrows(loads, cfg, w, e);
      LeakedHold(w.requests);
      AlwaysGood(loads, cfg, before + front);
      RejectedStays(loads, cfg, w, e, |After(loads, cfg, before).requests|);
    }
  }

  lemma RejectedStays(loads: PyString -> Loaded, cfg: Config, w: World, e: Event, n: nat)
    requires Enabled(w, e) && w.slots.inFlight >= cfg.Cap() && n <= |w.requests|
    requires forall i :: n <= i < |w.requests| ==> w.requests[i].task.Rejected?
    ensures
      var w' := Next(loads, cfg, w, e);
      n <= |w'.requests| && forall i :: n <= i < |w'.requests| ==> w'.requests[i].task.Rejected?
  {
    hide Advance, Accepts, Conversation, Retention.Step;
  }

  // Responses thrown away one after the other.
  function Leaks(n: nat): seq<Event> {
    if n == 0 then [] else Leaks(n - 1) + [Arrive(None, [], true, 0.0)] + [Drop(n - 1, 0.0)]
  }

  lemma OneMore(loads: PyString -> Loaded, cfg: Config, events: seq<Event>, e: Event)
    requires Happens(loads, cfg, events) && Enabled(After(loads, cfg, events), e)
    ensures Happens(loads, cfg, events + [e])
    ensures After(loads, cfg, events + [e]) == Next(loads, cfg, After(loads, cfg, events), e)
  {
    hide Next, Enabled;
    assert (events + [e])[..|events|] == events;
  }

  // As many of them as the maximum can be, each taking its slot along.
  lemma {:induction false} LeaksHappen(loads: PyString -> Loaded, cfg: Config, n: nat)
    requires n <= cfg.Cap()
    ensures Happens(loads, cfg, Leaks(n))
    ensures
      var w := After(loads, cfg, Leaks(n));
      |w.requests| == Leaked(w.requests) == w.slots.inFlight == n && w.now == 0.0
  {
    hide Enabled, Advance, Accepts, Conversation, Leaked, Happens, After;
    if n == 0 {
      StartsHere(loads, cfg);
    } else {
      LeaksHappen(loads, cfg, n - 1);
      var w := After(loads, cfg, Leaks(n - 1));
      var (arrive, drop) := (Arrive(None, [], true, 0.0), Drop(n - 1, 0.0));
      CanLeak(w, n - 1);
      OneMore(loads, cfg, Leaks(n - 1), arrive);
      var w1 := Next(loads, cfg, w, arrive);
      CanDrop(w1, n - 1);
      OneMore(loads, cfg, Leaks(n - 1) + [arrive], drop);
      var rs := Next(loads, cfg, w1, drop).requests;
      assert rs[..n - 1] == w.requests && rs[n - 1].task.Abandoned?;
      LeakedLast(rs);
    }
  }

  lemma StartsHere(loads: PyString -> Loaded, cfg: Config)
    ensures Happens(loads, cfg, []) && After(loads, cfg, []) == Startup && Leaked(Startup.requests) == 0
  {
  }

  lemma CanLeak(w: World, n: nat)
    requires w.now == 0.0
    ensures Enabled(w, Arrive(None, [], true, 0.0))
  {
  }

  lemma CanDrop(w: World, i: nat)
    requires w.now == 0.0 && i < |w.requests| && w.requests[i].task.Created?
    ensures Enabled(w, Drop(i, 0.0))
  {
  }

  lemma LeakedLast(rs: seq<Request>)
    requires rs != [] && rs[|rs| - 1].task.Abandoned?
    ensures Leaked(rs) == Leaked(rs[..|rs| - 1]) + 1
  {
  }

  // So there is a run after which every request is refused, for ever.
  lemma LeaksCloseTheDoor(loads: PyString -> Loaded, cfg: Config, later: seq<Event>)
    requires Happens(loads, cfg, Leaks(cfg.Cap()) + later)
    ensures Happens(loads, cfg, Leaks(cfg.Cap())) && |After(loads, cfg, Leaks(cfg.Cap())).requests| == cfg.Cap()
    ensures
      var w := After(loads, cfg, Leaks(cfg.Cap()) + later);
      forall i :: cfg.Cap() <= i < |w.requests| ==> w.requests[i].task.Rejected?
  {
    hide Leaked, Happens, After, Leaks;
    LeaksHappen(loads, cfg, cfg.Cap());
    LeakIsForever(loads, cfg, Leaks(cfg.Cap()), later);
  }

  // ----- Streams -----

  // Every stream of every interleaving keeps the completion contract and follows
  // the upstream lines it read.
  lemma StreamsKeepContract(loads: PyString -> Loaded, cfg: Config, events: seq<Event>, i: nat)
    requires Happens(loads, cfg, events) && i < |After(loads, cfg, events).requests|
    requires After(loads, cfg, events).requests[i].task.Streaming?
    ensures
      var r := After(loads, cfg, events).requests[i];
      && SoundCompletion(r.task.gen, r.outs) && DoneIsPersisted(r.outs)
      && Faithful(r.outs, Read(loads, r.inputs))
      && r.outs == ExactOutputs(loads, r.inputs) && r.task.gen == ExactGen(loads, r.inputs)
  {
    AlwaysGood(loads, cfg, events);
    var r := After(loads, cfg, events).requests[i];
    assert RequestAgrees(loads, cfg, r);
    hide SlotsAgree, StoreAgrees, RepliesAgree, Conversation, Run, Plays, SoundCompletion, DoneIsPersisted, Faithful,
      ExactOutputs, ExactGen;
    StreamContract(loads, r.inputs);
    LoopSpecification(loads, r.inputs);
    ExactRun(loads, r.inputs);
  }

  // What the upstream model was given: the request's own messages, windowed when
  // it has a session, whatever the other requests did to the store.
  lemma ConversationIsOwn(loads: PyString -> Loaded, cfg: Config, events: seq<Event>, i: nat)
    requires Happens(loads, cfg, events) && i < |After(loads, cfg, events).requests|
    ensures
      var r := After(loads, cfg, events).requests[i];
      r.conversation == if r.session.Some? then Window(Cleaned(r.transcript), cfg.limits.maxMessages) else r.transcript
  {
    AlwaysGood(loads, cfg, events);
    assert RequestAgrees(loads, cfg, After(loads, cfg, events).requests[i]);
    hide SlotsAgree, StoreAgrees, RepliesAgree, Plays, Run;
  }

  // ----- Memory -----

  // The text is all a request said: its whole answer, or every token frame of a
  // stream that completed, which is every delta of the lines it read; its upstream
  // response was closed and no step of the call failed.
  ghost predicate Whole(loads: PyString -> Loaded, r: Request, text: PyString) {
    || r.task == Answered(Some(text))
    || (&& r.task.Streaming? && Complete(text) in r.outs
        && text == Concat(TextsOf(r.outs))
        && text == Concat(Deltas(Delivered(loads, LinesRead(r.inputs))))
        && Completed(r.task.gen)
        && Closed in r.inputs && (forall j :: 0 <= j < |r.inputs| ==> !Fails(r.inputs[j]))
        && forall j :: 0 <= j < |r.outs| ==> !IsError(r.outs[j]))
  }

  // Past the completion callback: about to send the last frames, or ended there.
  predicate Completed(g: Gen) {
    g == UsageSent || g == Final || g == Ended(Returned) || g == Ended(Cancelled)
  }

  lemma GaveIsWhole(loads: PyString -> Loaded, cfg: Config, r: Request, id: SessionId, text: PyString)
    requires RequestAgrees(loads, cfg, r) && Gave(r, id, text)
    ensures Whole(loads, r, text)
  {
    hide Conversation, Run, Plays, Concat, TextsOf, DoneIsPersisted, Tokens, Deltas, Delivered, LinesRead;
    if r.task != Answered(Some(text)) {
      assert r.task.Streaming?;
      StreamContract(loads, r.inputs);
      LoopSpecification(loads, r.inputs);
      CompletesWhenClosed(loads, r.inputs, text);
      forall j | 0 <= j < |r.inputs|
        ensures !Fails(r.inputs[j])
      {
        if Fails(r.inputs[j]) {
          FailureMeansError(loads, r.inputs, r.inputs[j]);
        }
      }
      var parts, tail := Grammar(loads, r.inputs);
      CompletedState(r.task.gen, r.outs, parts, tail);
      var k :| 0 <= k < |r.outs| && r.outs[k] == Complete(text);
      assert !IsError(r.outs[k]);
    }
  }

  lemma CompletedState(g: Gen, outs: seq<Output>, parts: seq<PyString>, tail: Tail)
    requires Shaped(g, outs, parts, tail)
    ensures forall k :: 0 <= k < |outs| && outs[k].Complete? ==> Completed(g)
  {
    hide Tokens, Concat;
    TokensTexts(parts);
  }

  lemma {:induction false} ReplyIsRecorded(ops: seq<Retention.Op>, id: SessionId, m: Message)
    requires m in Retention.Replies(ops, id)
    ensures m == Message(Assistant, m.content) && Recorded(ops, id, m.content)
  {
    if ops != [] {
      var (past, op) := (ops[..|ops| - 1], ops[|ops| - 1]);
      if m in Retention.Replies(past, id) {
        ReplyIsRecorded(past, id, m);
        var k :| 0 <= k < |past| && past[k].Append? && past[k].id == id && past[k].content == m.content;
        assert ops[k] == past[k];
      } else {
        assert m in Retention.Reply(op, id);
        assert ops[|ops| - 1] == op;
      }
    }
  }

  // Over every interleaving, each remembered message is in the last transcript
  // synced, or is the whole answer or the whole completed stream of a request of
  // that session: nothing of a stream that did not complete is ever remembered.
  lemma RememberedIsWhole(loads: PyString -> Loaded, cfg: Config, events: seq<Event>, id: SessionId, m: Message)
    requires cfg.limits.Valid() && Happens(loads, cfg, events)
    requires id in After(loads, cfg, events).store.table
    requires m in After(loads, cfg, events).store.table[id].messages
    ensures
      var w := After(loads, cfg, events);
      var k := Retention.LastSync(w.log, id);
      && k >= 0
      && (|| m in w.log[k].transcript
          || (&& m.role == Assistant
              && exists i :: 0 <= i < |w.requests| && w.requests[i].session == Some(id) &&
                   Whole(loads, w.requests[i], m.content)))
  {
    hide After, Happens, SlotsAgree, Conversation, Run, Plays, Whole, Cleaned,
      Retention.Replies, Retention.Replay, Retention.LastSync;
    AlwaysGood(loads, cfg, events);
    var w := After(loads, cfg, events);
    Retention.WindowedHistory(cfg.limits, w.log, id);
    var k := Retention.LastSync(w.log, id);
    var (said, since) := (Cleaned(w.log[k].transcript), w.log[k + 1..]);
    if m in said {
      CleanedWithin(w.log[k].transcript, m);
    } else {
      assert m in Retention.Replies(since, id);
      ReplyIsRecorded(since, id, m);
      var j :| 0 <= j < |since| && since[j].Append? && since[j].id == id && since[j].content == m.content;
      assert w.log[k + 1 + j] == since[j];
      assert Given(w.requests, id, m.content);
      var i :| 0 <= i < |w.requests| && Gave(w.requests[i], id, m.content);
      assert RequestAgrees(loads, cfg, w.requests[i]);
      GaveIsWhole(loads, cfg, w.requests[i], id, m.content);
      assert w.requests[i].session == Some(id);
    }
  }

  lemma {:induction false} CleanedWithin(transcript: seq<Message>, m: Message)
    requires m in Cleaned(transcript)
    ensures m in transcript
  {
    if transcript != [] && m != transcript[0] {
      CleanedWithin(transcript[1..], m);
    }
  }

  // A stream that has said done, with any text at all and for a session, has had
  // exactly that text recorded for it.
  lemma DoneIsRemembered(loads: PyString -> Loaded, cfg: Config, events: seq<Event>, i: nat)
    requires Happens(loads, cfg, events) && i < |After(loads, cfg, events).requests|
    requires
      var r := After(loads, cfg, events).requests[i];
      r.task.Streaming? && r.session.Some? && HasDone(r.outs) && TextsOf(r.outs) != []
    ensures
      var (w, r) := (After(loads, cfg, events), After(loads, cfg, events).requests[i]);
      Recorded(w.log, r.session.value, Concat(TextsOf(r.outs)))
  {
    hide After, Happens, SlotsAgree, StoreAgrees, Conversation, Run, Plays, Concat, TextsOf;
    AlwaysGood(loads, cfg, events);
    var w := After(loads, cfg, events);
    var r := w.requests[i];
    assert RequestAgrees(loads, cfg, r);
    StreamContract(loads, r.inputs);
    var k :| 0 <= k < |r.outs| && r.outs[k].Complete?;
    assert r.outs[k] == Complete(Concat(TextsOf(r.outs)));
    assert Gave(r, r.session.value, Concat(TextsOf(r.outs)));
  }

  // The store at any point of any interleaving follows the retention rule, on
  // the operations recorded.
  lemma StoreFollowsRule(loads: PyString -> Loaded, cfg: Config, events: seq<Event>, id: SessionId)
    requires cfg.limits.Valid() && Happens(loads, cfg, events)
    ensures
      var w := After(loads, cfg, events);
      Retention.Holds(cfg.limits, w.store, id, Retention.Recall(cfg.limits, w.log, id)) && Inv(cfg.limits, w.store, w.now)
  {
    hide After, Happens, SlotsAgree, RequestAgrees, RepliesAgree, Retention.Holds, Inv, Retention.Recall, Retention.Replay;
    AlwaysGood(loads, cfg, events);
    var w := After(loads, cfg, events);
    Retention.StoreFollowsRule(cfg.limits, w.log);
    Retention.ReachableInv(cfg.limits, w.log, w.now);
  }

  // A forgotten session is gone at once, whatever its requests are doing.
  lemma ForgottenIsGone(loads: PyString -> Loaded, cfg: Config, events: seq<Event>, id: SessionId, now: real)
    requires Happens(loads, cfg, events) && After(loads, cfg, events).now <= now
    ensures
      var (w, w') := (After(loads, cfg, events), Next(loads, cfg, After(loads, cfg, events), Forget(id, now)));
      && id !in w'.store.table && id !in w'.store.order
      && (forall x :: x != id && x in w.store.table ==> x in w'.store.table && w'.store.table[x] == w.store.table[x])
      && w'.requests == w.requests && w'.slots == w.slots
  {
    hide After, Happens;
  }

  // A request is answered as it was asked: streams stream, and the others never do.
  lemma ServedAsAsked(loads: PyString -> Loaded, cfg: Config, events: seq<Event>, i: nat)
    requires Happens(loads, cfg, events) && i < |After(loads, cfg, events).requests|
    ensures
      var r := After(loads, cfg, events).requests[i];
      && (r.stream ==> !r.task.Awaiting? && !r.task.Answered?)
      && (!r.stream ==> !r.task.Created? && !r.task.Streaming? && !r.task.Abandoned? && r.outs == [])
  {
    hide After, Happens, SlotsAgree, StoreAgrees, RepliesAgree, Conversation, Run, Plays;
    AlwaysGood(loads, cfg, events);
    assert RequestAgrees(loads, cfg, After(loads, cfg, events).requests[i]);
  }

  // ----- What the browser hears -----

  function FramesOf(outs: seq<Output>): seq<Frame> {
    if outs == [] then []
    else if outs[0].Emit? then [outs[0].frame] + FramesOf(outs[1..])
    else FramesOf(outs[1..])
  }

  lemma {:induction false} FramesAppend(a: seq<Output>, b: seq<Output>)
    ensures FramesOf(a + b) == FramesOf(a) + FramesOf(b)
  {
    if a == [] {
      assert a + b == b;
    } else {
      assert (a + b)[1..] == a[1..] + b;
      FramesAppend(a[1..], b);
    }
  }

  // The texts a browser is given, in order.
  function Heard(calls: seq<Client.Call>): seq<Text> {
    if calls == [] then []
    else (if calls[0].OnToken? then [calls[0].text] else []) + Heard(calls[1..])
  }

  lemma {:induction false} HeardAppend(a: seq<Client.Call>, b: seq<Client.Call>)
    ensures Heard(a + b) == Heard(a) + Heard(b)
  {
    if a == [] {
      assert a + b == b;
    } else {
      assert (a + b)[1..] == a[1..] + b;
      HeardAppend(a[1..], b);
    }
  }

  lemma HeardOne(f: Frame)
    ensures Concat(Heard(Pipeline.CallsOf(f))) == if f.Token? then Utf16(f.text) else []
  {
    hide Frame.Fields;
    var calls := Pipeline.CallsOf(f);
    if calls != [] {
      assert Heard(calls[1..]) == [];
    }
    if f.Token? && f.text != [] {
      assert Heard(calls) == [Utf16(f.text)];
      assert Concat([Utf16(f.text)]) == Utf16(f.text) + Concat([Utf16(f.text)][1..]);
    }
  }

  lemma {:induction false} Utf16Append(a: PyString, b: PyString)
    ensures Utf16(a + b) == Utf16(a) + Utf16(b)
  {
    if a == [] {
      assert a + b == b;
    } else {
      assert (a + b)[1..] == a[1..] + b;
      Utf16Append(a[1..], b);
    }
  }

  // The texts heard are the token texts, put in UTF-16.
  lemma {:induction false} HeardAll(outs: seq<Output>)
    ensures Concat(Heard(Pipeline.CallsOfAll(FramesOf(outs)))) == Utf16(Concat(TextsOf(outs)))
  {
    if outs != [] {
      hide Pipeline.CallsOf, Heard, Utf16;
      HeardAll(outs[1..]);
      if outs[0].Emit? {
        var f := outs[0].frame;
        var later := FramesOf(outs[1..]);
        assert FramesOf(outs)[1..] == later;
        HeardAppend(Pipeline.CallsOf(f), Pipeline.CallsOfAll(later));
        ConcatAppend(Heard(Pipeline.CallsOf(f)), Heard(Pipeline.CallsOfAll(later)));
        HeardOne(f);
        if f.Token? {
          var texts := TextsOf(outs[1..]);
          assert ([f.text] + texts)[1..] == texts;
          Utf16Append(f.text, Concat(texts));
        }
      }
    } else {
      assert Heard([]) == [];
    }
  }

  lemma {:induction false} TokenFrames(parts: seq<PyString>)
    ensures Pipeline.NoTerminal(FramesOf(Tokens(parts)))
  {
    if parts != [] {
      var (front, last) := (parts[..|parts| - 1], [Emit(Token(parts[|parts| - 1]))]);
      TokenFrames(front);
      FramesAppend(Tokens(front), last);
      assert FramesOf(last) == [last[0].frame] + FramesOf(last[1..]);
    }
  }

  lemma OneFrame(f: Frame)
    ensures FramesOf([Emit(f)]) == [f]
  {
    var none: seq<Output> := [];
    assert [Emit(f)][1..] == none;
  }

  // The frames of a generator that ran to its end: nothing terminal, then one
  // terminal frame.
  lemma ReturnedFrames(outs: seq<Output>, parts: seq<PyString>, tail: Tail) returns (front: seq<Frame>, last: Frame)
    requires Shaped(Ended(Returned), outs, parts, tail)
    ensures FramesOf(outs) == front + [last] && Pipeline.NoTerminal(front) && last.Terminal()
    ensures last.Done? == tail.Finishing?
  {
    hide Tokens, Concat, FramesOf;
    TokenFrames(parts);
    var tokens := FramesOf(Tokens(parts));
    FramesAppend(Tokens(parts), TailOutputs(parts, tail));
    match tail
    case Failing(f) =>
      front, last := tokens, Error(f);
      OneFrame(last);
    case Finishing(p, c) =>
      FramesAppend(Persisted(parts) + UsageOf(p, c), [Emit(Done)]);
      FramesAppend(Persisted(parts), UsageOf(p, c));
      MiddleFrames(parts, p, c);
      last := Done;
      OneFrame(last);
      front := tokens + FramesOf(UsageOf(p, c));
      assert tokens + (([] + FramesOf(UsageOf(p, c))) + [Done]) == front + [Done];
  }

  lemma MiddleFrames(parts: seq<PyString>, p: int, c: int)
    ensures FramesOf(Persisted(parts)) == [] && Pipeline.NoTerminal(FramesOf(UsageOf(p, c)))
  {
    hide Concat;
    assert FramesOf([]) == [];
    OneFrame(Usage(p, c));
    if parts != [] {
      assert Persisted(parts)[1..] == [];
    }
  }

  lemma {:induction false} WireAppend(a: seq<Frame>, b: seq<Frame>)
    ensures WireOf(a + b) == WireOf(a) + WireOf(b)
    ensures Pipeline.CallsOfAll(a + b) == Pipeline.CallsOfAll(a) + Pipeline.CallsOfAll(b)
  {
    hide Frame.Wire, Pipeline.CallsOf;
    if a == [] {
      assert a + b == b;
    } else {
      assert (a + b)[1..] == a[1..] + b;
      WireAppend(a[1..], b);
    }
  }

  lemma OneWire(f: Frame)
    ensures WireOf([f]) == f.Wire() && Pipeline.CallsOfAll([f]) == Pipeline.CallsOf(f)
  {
    hide Frame.Wire, Pipeline.CallsOf;
    var none: seq<Frame> := [];
    assert [f][1..] == none;
  }

  predicate IsTerminal(c: Client.Call) { c.OnDone? || c.OnError? }

  lemma {:induction false} NoneTerminal(frames: seq<Frame>)
    requires Pipeline.NoTerminal(frames)
    ensures forall k :: 0 <= k < |Pipeline.CallsOfAll(frames)| ==> !IsTerminal(Pipeline.CallsOfAll(frames)[k])
  {
    hide Frame.Fields, Utf16;
    if frames != [] {
      NoneTerminal(frames[1..]);
      assert !frames[0].Terminal();
    }
  }

  // From the upstream lines to the callbacks: however the bytes of a stream that
  // ran to its end are cut, the browser fires the callbacks of its frames, one of
  // them terminal and last, and the texts it is given make up exactly the text
  // the stream has put out, which is the text remembered if any is.
  lemma ClientHears(loads: PyString -> Loaded, cfg: Config, events: seq<Event>, i: nat, chunks: seq<Text>)
    requires Happens(loads, cfg, events) && i < |After(loads, cfg, events).requests|
    requires After(loads, cfg, events).requests[i].task == Streaming(Ended(Returned))
    requires Concat(chunks) == WireOf(FramesOf(After(loads, cfg, events).requests[i].outs))
    ensures
      var r := After(loads, cfg, events).requests[i];
      var calls := Client.BodyCalls(Chunking.Chunks(chunks));
      && calls == Pipeline.CallsOfAll(FramesOf(r.outs))
      && Concat(Heard(calls)) == Utf16(Concat(TextsOf(r.outs)))
      && calls != [] && IsTerminal(calls[|calls| - 1])
      && (forall k :: 0 <= k < |calls| - 1 ==> !IsTerminal(calls[k]))
      && (forall id, text :: Gave(r, id, text) ==> calls[|calls| - 1].OnDone? && Concat(Heard(calls)) == Utf16(text))
  {
    hide After, Happens, SlotsAgree, StoreAgrees, RepliesAgree, Conversation, Run, Plays, Concat, TextsOf, FramesOf,
      WireOf, Heard, Utf16, Frame.Fields, Shaped, Client.BodyCalls, Chunking.Chunks,
      Pipeline.CallsOfAll, Frame.Wire, DoneIsPersisted;
    AlwaysGood(loads, cfg, events);
    var r := After(loads, cfg, events).requests[i];
    assert RequestAgrees(loads, cfg, r);
    var parts, tail := Grammar(loads, r.inputs);
    var front, last := ReturnedFrames(r.outs, parts, tail);
    WireAppend(front, [last]);
    OneWire(last);
    Pipeline.EndToEnd(front, last, chunks);
    HeardAll(r.outs);
    NoneTerminal(front);
    StreamContract(loads, r.inputs);
    LastOutput(r.outs, parts, tail);
  }

  // A completed text means that done comes last.
  lemma LastOutput(outs: seq<Output>, parts: seq<PyString>, tail: Tail)
    requires Shaped(Ended(Returned), outs, parts, tail)
    ensures forall k :: 0 <= k < |outs| && outs[k].Complete? ==> tail.Finishing?
  {
    hide Tokens, Concat;
    TokensTexts(parts);
  }

  // ----- What the browser hears of any stream, cut anywhere -----

  lemma TailFrames(parts: seq<PyString>, tail: Tail)
    ensures
      var fs := FramesOf(TailOutputs(parts, tail));
      forall i :: 0 <= i < |fs| - 1 ==> !fs[i].Terminal()
  {
    hide Concat, FramesOf;
    match tail
    case NoTail => NoFrames();
    case Failing(f) => OneFrame(Error(f));
    case UsageOnly(p, c) =>
      FramesAppend(Persisted(parts), UsageOf(p, c));
      MiddleFrames(parts, p, c);
    case Finishing(p, c) =>
      FramesAppend(Persisted(parts) + UsageOf(p, c), [Emit(Done)]);
      FramesAppend(Persisted(parts), UsageOf(p, c));
      MiddleFrames(parts, p, c);
      OneFrame(Done);
  }

  lemma NoFrames()
    ensures FramesOf([]) == []
  {
  }

  // In every state of a generator only its last frame can be a terminal one.
  lemma OnlyLastTerminal(g: Gen, outs: seq<Output>, parts: seq<PyString>, tail: Tail)
    requires Shaped(g, outs, parts, tail)
    ensures forall i :: 0 <= i < |FramesOf(outs)| - 1 ==> !FramesOf(outs)[i].Terminal()
  {
    hide Tokens, TailOutputs, FramesOf, Concat;
    TokenFrames(parts);
    TailFrames(parts, tail);
    FramesAppend(Tokens(parts), TailOutputs(parts, tail));
  }

  // Where a prefix of the bytes ends: n whole frames and the front of the next.
  lemma {:induction false} CutPoint(fs: seq<Frame>, t: Text) returns (n: nat, k: nat)
    requires t <= WireOf(fs)
    ensures n <= |fs| && (n < |fs| ==> k < |fs[n].Wire()|)
    ensures t == WireOf(fs[..n]) + if n < |fs| then fs[n].Wire()[..k] else []
  {
    hide Frame.Wire;
    if fs == [] {
      n, k := 0, 0;
    } else {
      var w := fs[0].Wire();
      if |t| < |w| {
        n, k := 0, |t|;
        assert fs[..0] == [];
        assert t == w[..k];
      } else {
        assert WireOf(fs)[|w|..] == WireOf(fs[1..]);
        n, k := CutPoint(fs[1..], t[|w|..]);
        assert t == w + t[|w|..];
        assert fs[..n + 1][0] == fs[0] && fs[..n + 1][1..] == fs[1..][..n];
        n := n + 1;
      }
    }
  }

  // What comes after the complete frames: the flush of the cut one, and done
  // unless a terminal frame had ended the reading.
  function Afterwards(fs: seq<Frame>, n: nat, k: nat): seq<Client.Call>
    requires n <= |fs|
  {
    if n < |fs| then Pipeline.FlushedCalls(fs[n], k) + [Client.OnDone]
    else if n > 0 && fs[n - 1].Terminal() then []
    else [Client.OnDone]
  }

  // What is heard of any front of the bytes of any stream in any state, that is n
  // complete frames and k units of the next: before the body ends the callbacks of
  // the complete frames and nothing else, and in all exactly these calls.
  lemma HearsPrefix(
    loads: PyString -> Loaded, cfg: Config, events: seq<Event>, i: nat, chunks: seq<Text>)
    returns (n: nat, k: nat)
    requires Happens(loads, cfg, events) && i < |After(loads, cfg, events).requests|
    requires After(loads, cfg, events).requests[i].task.Streaming?
    requires Concat(chunks) <= WireOf(FramesOf(After(loads, cfg, events).requests[i].outs))
    ensures
      var fs := FramesOf(After(loads, cfg, events).requests[i].outs);
      && n <= |fs| && (n < |fs| ==> k < |fs[n].Wire()|)
      && Concat(chunks) == WireOf(fs[..n]) + (if n < |fs| then fs[n].Wire()[..k] else [])
      && Client.ReadPhase([], Chunking.Chunks(chunks)).calls == Pipeline.CallsOfAll(fs[..n])
      && Client.BodyCalls(Chunking.Chunks(chunks)) == Pipeline.CallsOfAll(fs[..n]) + Afterwards(fs, n, k)
  {
    hide After, Happens, SlotsAgree, StoreAgrees, RepliesAgree, Conversation, Run, Plays, Concat, TextsOf, FramesOf,
      WireOf, Frame.Fields, Shaped, Client.ReadPhase, Client.BodyCalls, Chunking.Chunks, Pipeline.CallsOfAll,
      Frame.Wire, Frame.Terminal, Afterwards;
    AlwaysGood(loads, cfg, events);
    var r := After(loads, cfg, events).requests[i];
    assert RequestAgrees(loads, cfg, r);
    var parts, tail := Grammar(loads, r.inputs);
    OnlyLastTerminal(r.task.gen, r.outs, parts, tail);
    var fs := FramesOf(r.outs);
    n, k := CutPoint(fs, Concat(chunks));
    PrefixCalls(fs, n, k, chunks);
  }

  lemma PrefixCalls(fs: seq<Frame>, n: nat, k: nat, chunks: seq<Text>)
    requires n <= |fs| && (n < |fs| ==> k < |fs[n].Wire()|)
    requires forall i :: 0 <= i < |fs| - 1 ==> !fs[i].Terminal()
    requires Concat(chunks) == WireOf(fs[..n]) + if n < |fs| then fs[n].Wire()[..k] else []
    ensures Client.ReadPhase([], Chunking.Chunks(chunks)).calls == Pipeline.CallsOfAll(fs[..n])
    ensures Client.BodyCalls(Chunking.Chunks(chunks)) == Pipeline.CallsOfAll(fs[..n]) + Afterwards(fs, n, k)
  {
    hide Concat, WireOf, Client.ReadPhase, Client.BodyCalls, Chunking.Chunks, Pipeline.CallsOfAll, Frame.Wire,
      Frame.Terminal, Pipeline.FlushedCalls;
    var calls := Pipeline.CallsOfAll(fs[..n]);
    if n < |fs| {
      Pipeline.CutRun(fs[..n], fs[n], k, chunks);
      var flushed := Pipeline.FlushedCalls(fs[n], k);
      assert calls + flushed + [Client.OnDone] == calls + (flushed + [Client.OnDone]);
    } else if n > 0 && fs[n - 1].Terminal() {
      var (front, last) := (fs[..n - 1], fs[n - 1]);
      assert fs[..n] == front + [last] && WireOf(fs[..n]) + [] == WireOf(fs[..n]);
      WireAppend(front, [last]);
      OneWire(last);
      Pipeline.EndToEnd(front, last, chunks);
      assert calls + [] == calls;
    } else {
      assert fs[..n] == fs;
      EndsBlank(Done);
      var none: Text := [];
      assert Done.Wire()[..0] == none;
      Pipeline.CutRun(fs[..n], Done, 0, chunks);
      NothingFlushed();
      assert calls + [] + [Client.OnDone] == calls + [Client.OnDone];
    }
  }

  lemma NothingFlushed()
    ensures Pipeline.FlushedCalls(Done, 0) == []
  {
  }

  lemma EndsBlank(f: Frame)
    ensures |f.Wire()| >= 2
  {
  }
}
