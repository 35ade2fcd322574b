// services/api/app/main.py: the chat route. Requests interleave at their awaits;
// between two awaits a request runs undisturbed, and that is one event here.
module ChatRoute {
  import opened Text
  import opened Sessions
  import opened Middleware
  import opened Requests
  import opened Inference
  import Retention

  // ----- State -----

  // Where a request is. A streaming response exists before its generator has
  // started; if it is then thrown away, no finally block ever runs.
  datatype Task =
    | Rejected
    | Awaiting
    | Answered(content: Option<PyString>)
    | Created
    | Streaming(gen: Gen)
    | Abandoned

  // A request with what it has consumed and put out so far, and how often it has
  // called release.
  datatype Request = Request(
    session: Option<SessionId>, transcript: seq<Message>, conversation: seq<Message>, stream: bool,
    task: Task, inputs: seq<Input>, outs: seq<Output>, releases: nat)
  {
    predicate Admitted() { !task.Rejected? }

    predicate HoldsSlot() {
      task.Awaiting? || task.Created? || task.Abandoned? || (task.Streaming? && !task.gen.Ended?)
    }
  }

  // The shared state, the requests that ever arrived and the store operations
  // that ever happened.
  datatype World = World(
    slots: Slots, store: Store, requests: seq<Request>, log: seq<Retention.Op>, now: real)

  const Startup: World := World(NoSlots, EmptyStore, [], [], 0.0)

  datatype Config = Config(limits: Limits, maxConcurrent: int)
  {
    function Cap(): int { Max(1, maxConcurrent) }
  }

  datatype Event =
    | Arrive(session: Option<SessionId>, transcript: seq<Message>, stream: bool, now: real)
    | Start(i: nat, now: real)
    | Drop(i: nat, now: real)
    | Feed(i: nat, input: Input, now: real)
    | Finish(i: nat, content: Option<PyString>, now: real)
    | Forget(id: SessionId, now: real)

  predicate Enabled(w: World, e: Event) {
    && w.now <= e.now
    && match e
       case Start(i, _) => i < |w.requests| && w.requests[i].task.Created?
       case Drop(i, _) => i < |w.requests| && w.requests[i].task.Created?
       case Feed(i, input, _) =>
         i < |w.requests| && w.requests[i].task.Streaming? && Accepts(w.requests[i].task.gen, input)
       case Finish(i, _, _) => i < |w.requests| && w.requests[i].task.Awaiting?
       case _ => true
  }

  // ----- One event -----

  function Logged(l: Limits, w: World, op: Retention.Op): World {
    w.(store := Retention.Step(l, w.store, op), log := w.log + [op])
  }

  // The text handed to the completion callback in one step of the generator.
  function CompletedText(outs: seq<Output>): Option<PyString> {
    if outs != [] && outs[0].Complete? then Some(outs[0].text) else None
  }

  function Remember(l: Limits, w: World, session: Option<SessionId>, text: Option<PyString>, now: real): World {
    if session.Some? && text.Some? then Logged(l, w, Retention.Append(session.value, text.value, now)) else w
  }

  function Synced(l: Limits, w: World, session: Option<SessionId>, transcript: seq<Message>, now: real): World {
    if session.Some? then Logged(l, w, Retention.Sync(session.value, transcript, now)) else w
  }

  function NewRequest(
    cfg: Config, session: Option<SessionId>, transcript: seq<Message>, stream: bool, task: Task): Request
  {
    Request(session, transcript, Conversation(cfg.limits, session, transcript), stream, task, [], [], 0)
  }

  function Fed(r: Request, input: Input, m: Move): Request {
    r.(task := Streaming(m.gen), inputs := r.inputs + [input], outs := r.outs + m.outs,
       releases := r.releases + if m.gen.Ended? then 1 else 0)
  }

  function Next(loads: PyString -> Loaded, cfg: Config, w: World, e: Event): World
    requires Enabled(w, e)
  {
    match e
    case Arrive(session, transcript, stream, now) =>
      var w1 := Synced(cfg.limits, w, session, transcript, now);
      var admitted := w.slots.inFlight < cfg.Cap();
      var task := if !admitted then Rejected else if stream then Created else Awaiting;
      w1.(
        slots := if admitted then Acquired(w.slots) else w.slots,
        requests := w.requests + [NewRequest(cfg, session, transcript, stream, task)],
        now := now)
    case Start(i, now) =>
      w.(requests := w.requests[i := w.requests[i].(task := Streaming(Opening))], now := now)
    case Drop(i, now) =>
      w.(requests := w.requests[i := w.requests[i].(task := Abandoned)], now := now)
    case Feed(i, input, now) =>
      var r := w.requests[i];
      var m := Advance(loads, r.task.gen, input);
      var w1 := Remember(cfg.limits, w, r.session, CompletedText(m.outs), now);
      w1.(
        slots := if m.gen.Ended? then Released(w.slots) else w.slots,
        requests := w.requests[i := Fed(r, input, m)],
        now := now)
    case Finish(i, content, now) =>
      var r := w.requests[i];
      var w1 := Remember(cfg.limits, w, r.session, content, now);
      w1.(
        slots := Released(w.slots),
        requests := w.requests[i := r.(task := Answered(content), releases := r.releases + 1)],
        now := now)
    case Forget(id, now) =>
      Logged(cfg.limits, w, Retention.Forget(id, now)).(now := now)
  }

  // ----- Runs -----

  ghost predicate Happens(loads: PyString -> Loaded, cfg: Config, events: seq<Event>)
    decreases |events|, 0
  {
    events == [] ||
    var front := events[..|events| - 1];
    Happens(loads, cfg, front) && Enabled(After(loads, cfg, front), events[|events| - 1])
  }

  ghost function After(loads: PyString -> Loaded, cfg: Config, events: seq<Event>): World
    requires Happens(loads, cfg, events)
    decreases |events|, 1
  {
    if events == [] then Startup
    else Next(loads, cfg, After(loads, cfg, events[..|events| - 1]), events[|events| - 1])
  }

  // ----- Slots -----

  function Holders(rs: seq<Request>): nat {
    if rs == [] then 0 else Holders(rs[..|rs| - 1]) + if rs[|rs| - 1].HoldsSlot() then 1 else 0
  }

  function One(r: Request): nat { if r.HoldsSlot() then 1 else 0 }

  lemma {:induction false} HoldersUpdate(rs: seq<Request>, i: nat, r: Request)
    requires i < |rs|
    ensures Holders(rs[i := r]) == Holders(rs) - One(rs[i]) + One(r)
    ensures One(rs[i]) <= Holders(rs)
  {
    hide Request.HoldsSlot;
    var (n, all) := (|rs| - 1, rs[i := r]);
    if i == n {
      assert all[..n] == rs[..n];
    } else {
      assert all[..n] == rs[..n][i := r];
      HoldersUpdate(rs[..n], i, r);
    }
  }

  lemma HoldersNext(rs: seq<Request>, r: Request)
    ensures Holders(rs + [r]) == Holders(rs) + One(r)
  {
    assert (rs + [r])[..|rs|] == rs;
  }

  // ----- What every event keeps -----

  // The counter, the gauge and the number of requests that hold a slot agree,
  // within the cap.
  ghost predicate SlotsAgree(cfg: Config, w: World) {
    w.slots.inFlight == w.slots.gauge == Holders(w.requests) <= cfg.Cap()
  }

  // The store is what its own operations make of it, in the order of time.
  ghost predicate StoreAgrees(cfg: Config, w: World) {
    && w.store == Retention.Replay(cfg.limits, w.log)
    && Retention.Monotone(w.log)
    && forall k :: 0 <= k < |w.log| ==> w.log[k].now <= w.now
  }

  // A request is served the way it asked for; it released its slot once if it was admitted and no longer holds one,
  // never otherwise; a started generator is where its inputs have brought it.
  ghost predicate RequestAgrees(loads: PyString -> Loaded, cfg: Config, r: Request) {
    && r.conversation == Conversation(cfg.limits, r.session, r.transcript)
    && (r.task.Created? || r.task.Streaming? || r.task.Abandoned? ==> r.stream)
    && (r.task.Awaiting? || r.task.Answered? ==> !r.stream)
    && r.releases == (if r.Admitted() && !r.HoldsSlot() then 1 else 0)
    && (if r.task.Streaming? then
          Plays(loads, Opening, r.inputs) && Run(loads, Opening, r.inputs) == Move(r.task.gen, r.outs)
        else r.inputs == [] && r.outs == [])
  }

  // The request has handed over this text for its session: the whole text of its
  // completed stream, or its whole answer.
  predicate Gave(r: Request, id: SessionId, text: PyString) {
    && r.session == Some(id)
    && (r.task == Answered(Some(text)) || Complete(text) in r.outs)
  }

  // Every reply recorded was given by some request, and the other way round.
  ghost predicate RepliesAgree(w: World) {
    && (forall k :: 0 <= k < |w.log| && w.log[k].Append? ==> Given(w.requests, w.log[k].id, w.log[k].content))
    && (forall i, id, text :: 0 <= i < |w.requests| && Gave(w.requests[i], id, text) ==> Recorded(w.log, id, text))
  }

  predicate Given(rs: seq<Request>, id: SessionId, text: PyString) {
    exists i :: 0 <= i < |rs| && Gave(rs[i], id, text)
  }

  predicate Recorded(log: seq<Retention.Op>, id: SessionId, text: PyString) {
    exists k :: 0 <= k < |log| && log[k].Append? && log[k].id == id && log[k].content == text
  }

  ghost predicate Good(loads: PyString -> Loaded, cfg: Config, w: World) {
    && SlotsAgree(cfg, w)
    && StoreAgrees(cfg, w)
    && (forall i :: 0 <= i < |w.requests| ==> RequestAgrees(loads, cfg, w.requests[i]))
    && RepliesAgree(w)
  }

  lemma SlotsStep(loads: PyString -> Loaded, cfg: Config, w: World, e: Event)
    requires SlotsAgree(cfg, w) && Enabled(w, e)
    ensures SlotsAgree(cfg, Next(loads, cfg, w, e))
    ensures e.Finish? || (e.Feed? && Next(loads, cfg, w, e).requests[e.i].task.gen.Ended?) ==> w.slots.inFlight > 0
  {
    hide Advance, Accepts, Holders, Logged, Conversation;
    var w' := Next(loads, cfg, w, e);
    match e
    case Arrive(_, _, _, _) => HoldersNext(w.requests, w'.requests[|w.requests|]);
    case Start(i, _) => HoldersUpdate(w.requests, i, w'.requests[i]);
    case Drop(i, _) => HoldersUpdate(w.requests, i, w'.requests[i]);
    case Feed(i, input, _) =>
      NotEnded(w.requests[i].task.gen, input);
      HoldersUpdate(w.requests, i, w'.requests[i]);
    case Finish(i, _, _) => HoldersUpdate(w.requests, i, w'.requests[i]);
    case Forget(id, now) => LoggedOnlyStore(cfg.limits, w, Retention.Forget(id, now));
  }

  lemma LoggedOnlyStore(l: Limits, w: World, op: Retention.Op)
    ensures Logged(l, w, op).requests == w.requests && Logged(l, w, op).slots == w.slots
  {
  }

  lemma NotEnded(g: Gen, input: Input)
    requires Accepts(g, input)
    ensures !g.Ended?
  {
  }

  // Recording one more operation, not earlier than the others.
  lemma LoggedAgrees(cfg: Config, w: World, op: Retention.Op)
    requires StoreAgrees(cfg, w) && w.now <= op.now
    ensures StoreAgrees(cfg, Logged(cfg.limits, w, op).(now := op.now))
  {
    hide Retention.Step;
    var log := w.log + [op];
    assert log[..|w.log|] == w.log;
  }

  // The operations an event records.
  function Records(loads: PyString -> Loaded, cfg: Config, w: World, e: Event): seq<Retention.Op>
    requires Enabled(w, e)
  {
    match e
    case Arrive(session, transcript, _, now) =>
      if session.Some? then [Retention.Sync(session.value, transcript, now)] else []
    case Feed(i, input, now) =>
      var r := w.requests[i];
      var text := CompletedText(Advance(loads, r.task.gen, input).outs);
      if r.session.Some? && text.Some? then [Retention.Append(r.session.value, text.value, now)] else []
    case Finish(i, content, now) =>
      var r := w.requests[i];
      if r.session.Some? && content.Some? then [Retention.Append(r.session.value, content.value, now)] else []
    case Forget(id, now) => [Retention.Forget(id, now)]
    case _ => []
  }

  lemma NextStore(loads: PyString -> Loaded, cfg: Config, w: World, e: Event)
    requires Enabled(w, e)
    ensures
      var (w', ops) := (Next(loads, cfg, w, e), Records(loads, cfg, w, e));
      && |ops| <= 1 && w'.log == w.log + ops && w'.now == e.now
      && (ops != [] ==> ops[0].now == e.now && w'.store == Retention.Step(cfg.limits, w.store, ops[0]))
      && (ops == [] ==> w'.store == w.store)
  {
    hide Advance, Accepts, Retention.Step, Conversation;
    assert w.log + [] == w.log;
  }

  lemma StoreStep(loads: PyString -> Loaded, cfg: Config, w: World, e: Event)
    requires StoreAgrees(cfg, w) && Enabled(w, e)
    ensures StoreAgrees(cfg, Next(loads, cfg, w, e))
  {
    hide Next, Records, Retention.Step, Retention.Replay;
    NextStore(loads, cfg, w, e);
    var ops := Records(loads, cfg, w, e);
    assert w.now <= e.now;
    if ops != [] {
      LoggedAgrees(cfg, w, ops[0]);
      assert ops == [ops[0]];
    } else {
      assert w.log + [] == w.log;
    }
  }

  // Which request an event is about.
  function Subject(w: World, e: Event): nat {
    match e
    case Arrive(_, _, _, _) => |w.requests|
    case Forget(_, _) => |w.requests|
    case _ => e.i
  }

  lemma OthersUntouched(loads: PyString -> Loaded, cfg: Config, w: World, e: Event, i: nat)
    requires Enabled(w, e) && i < |w.requests| && i != Subject(w, e)
    ensures |Next(loads, cfg, w, e).requests| >= |w.requests|
    ensures Next(loads, cfg, w, e).requests[i] == w.requests[i]
  {
    hide Advance, Accepts, Retention.Step, Conversation, NewRequest;
  }

  lemma SubjectAgrees(loads: PyString -> Loaded, cfg: Config, w: World, e: Event)
    requires Enabled(w, e)
    requires forall i :: 0 <= i < |w.requests| ==> RequestAgrees(loads, cfg, w.requests[i])
    ensures
      var (w', i) := (Next(loads, cfg, w, e), Subject(w, e));
      && |w.requests| <= |w'.requests| <= |w.requests| + 1
      && (i < |w'.requests| ==> RequestAgrees(loads, cfg, w'.requests[i]))
      && (i != |w.requests| ==> |w'.requests| == |w.requests|)
  {
    hide Advance, Accepts, Retention.Step, Conversation, Run, Plays;
    var w' := Next(loads, cfg, w, e);
    match e
    case Start(i, _) =>
      assert RequestAgrees(loads, cfg, w.requests[i]);
      NoInputs(loads);
    case Feed(i, input, _) =>
      var r := w.requests[i];
      assert RequestAgrees(loads, cfg, r);
      NotEnded(r.task.gen, input);
      RunNext(loads, Opening, r.inputs, input);
    case Finish(i, _, _) => assert RequestAgrees(loads, cfg, w.requests[i]);
    case Drop(i, _) => assert RequestAgrees(loads, cfg, w.requests[i]);
    case _ =>
  }

  lemma NoInputs(loads: PyString -> Loaded)
    ensures Plays(loads, Opening, []) && Run(loads, Opening, []) == Move(Opening, [])
  {
  }

  lemma RequestsStep(loads: PyString -> Loaded, cfg: Config, w: World, e: Event)
    requires Enabled(w, e)
    requires forall i :: 0 <= i < |w.requests| ==> RequestAgrees(loads, cfg, w.requests[i])
    ensures
      var w' := Next(loads, cfg, w, e);
      forall i :: 0 <= i < |w'.requests| ==> RequestAgrees(loads, cfg, w'.requests[i])
  {
    hide Next, Enabled, RequestAgrees;
    var w' := Next(loads, cfg, w, e);
    SubjectAgrees(loads, cfg, w, e);
    forall i | 0 <= i < |w'.requests|
      ensures RequestAgrees(loads, cfg, w'.requests[i])
    {
      if i < |w.requests| && i != Subject(w, e) {
        OthersUntouched(loads, cfg, w, e, i);
      }
    }
  }

  // Only the first output of a step can be a completion.
  lemma CompletionFirst(loads: PyString -> Loaded, g: Gen, input: Input, text: PyString)
    requires Accepts(g, input)
    ensures
      var outs := Advance(loads, g, input).outs;
      Complete(text) in outs <==> CompletedText(outs) == Some(text)
  {
    hide Concat, ParseSseData;
  }

  // A request gives a text exactly when that reply is recorded.
  lemma GaveNext(loads: PyString -> Loaded, cfg: Config, w: World, e: Event, i: nat, id: SessionId, text: PyString)
    requires Enabled(w, e) && i < |Next(loads, cfg, w, e).requests|
    ensures Gave(Next(loads, cfg, w, e).requests[i], id, text) <==>
      || (i < |w.requests| && Gave(w.requests[i], id, text))
      || (i == Subject(w, e) && Records(loads, cfg, w, e) == [Retention.Append(id, text, e.now)])
  {
    hide Advance, Accepts, Retention.Step, Conversation;
    match e
    case Feed(j, input, _) => CompletionFirst(loads, w.requests[j].task.gen, input, text);
    case _ =>
  }

  lemma RecordsSubject(loads: PyString -> Loaded, cfg: Config, w: World, e: Event)
    requires Enabled(w, e)
    ensures
      var ops := Records(loads, cfg, w, e);
      ops != [] && ops[0].Append? ==>
        Subject(w, e) < |w.requests| && ops == [Retention.Append(ops[0].id, ops[0].content, e.now)]
    ensures |w.requests| <= |Next(loads, cfg, w, e).requests|
  {
    hide Advance, Accepts, Retention.Step, Conversation;
  }

  lemma RepliesStep(loads: PyString -> Loaded, cfg: Config, w: World, e: Event)
    requires RepliesAgree(w) && Enabled(w, e)
    ensures RepliesAgree(Next(loads, cfg, w, e))
  {
    hide Next, Enabled, Records, Gave;
    var w' := Next(loads, cfg, w, e);
    var ops := Records(loads, cfg, w, e);
    NextStore(loads, cfg, w, e);
    RecordsSubject(loads, cfg, w, e);
    forall k | 0 <= k < |w'.log| && w'.log[k].Append?
      ensures Given(w'.requests, w'.log[k].id, w'.log[k].content)
    {
      var (id, text) := (w'.log[k].id, w'.log[k].content);
      var i := Subject(w, e);
      if k < |w.log| {
        assert w.log[k] == w'.log[k] && Given(w.requests, id, text);
        i :| 0 <= i < |w.requests| && Gave(w.requests[i], id, text);
      }
      GaveNext(loads, cfg, w, e, i, id, text);
    }
    forall i, id, text | 0 <= i < |w'.requests| && Gave(w'.requests[i], id, text)
      ensures Recorded(w'.log, id, text)
    {
      GaveNext(loads, cfg, w, e, i, id, text);
      if i < |w.requests| && Gave(w.requests[i], id, text) {
        assert Recorded(w.log, id, text);
        var k :| 0 <= k < |w.log| && w.log[k].Append? && w.log[k].id == id && w.log[k].content == text;
        assert w'.log[k] == w.log[k];
      } else {
        assert w'.log[|w.log|] == ops[0];
      }
    }
  }

  lemma {:induction false} AlwaysGood(loads: PyString -> Loaded, cfg: Config, events: seq<Event>)
    requires Happens(loads, cfg, events)
    ensures Good(loads, cfg, After(loads, cfg, events))
    decreases |events|
  {
    if events != [] {
      hide Next, Enabled, SlotsAgree, StoreAgrees, RequestAgrees, RepliesAgree;
      var (front, e) := (events[..|events| - 1], events[|events| - 1]);
      var w := After(loads, cfg, front);
      AlwaysGood(loads, cfg, front);
      SlotsStep(loads, cfg, w, e);
      StoreStep(loads, cfg, w, e);
      RequestsStep(loads, cfg, w, e);
      RepliesStep(loads, cfg, w, e);
    }
  }
}
