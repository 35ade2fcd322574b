// The chat route over its shared objects: each method is one stretch of a
// request between two awaits.
module ChatService {
  import opened Text
  import opened Sessions
  import opened Requests
  import opened Middleware
  import opened Inference
  import opened ChatRoute
  import Retention

  class Service {
    const maxConcurrent: int
    const limiter: InferenceLimiter
    const sessions: ConversationStore
    var requests: seq<Request>
    ghost var log: seq<Retention.Op>
    ghost var now: real

    ghost function Cfg(): Config { Config(sessions.limits, maxConcurrent) }

    ghost function View(): World
      reads this, limiter, sessions
    {
      World(limiter.View(), sessions.View(), requests, log, now)
    }

    ghost predicate Valid()
      reads sessions
    {
      limiter.maxSlots == Max(1, maxConcurrent) && Rep(sessions.View())
    }

    constructor (maxConcurrent: int, maxTurns: int, ttlSeconds: int, maxSessions: int)
      ensures Valid() && fresh(limiter) && fresh(sessions)
      ensures Cfg() == Config(MakeLimits(maxTurns, ttlSeconds, maxSessions), maxConcurrent)
      ensures View() == Startup
    {
      this.maxConcurrent := maxConcurrent;
      limiter := new InferenceLimiter(maxConcurrent);
      sessions := new ConversationStore(maxTurns, ttlSeconds, maxSessions);
      requests := [];
      log := [];
      now := 0.0;
    }

    // chat_completions up to its first await or its return.
    method ChatCompletions(
      session: Option<SessionId>, transcript: seq<Message>, stream: bool, at: real,
      ghost loads: PyString -> Loaded)
      returns (i: nat)
      requires Valid() && now <= at
      modifies this, limiter, sessions
      ensures Valid()
      ensures i == |old(requests)| < |requests|
      ensures View() == Next(loads, Cfg(), old(View()), Arrive(session, transcript, stream, at))
    {
      hide SyncStep, Window, Cleaned, Rep;
      i := |requests|;
      var conversation := transcript;
      if session.Some? {
        conversation := sessions.Sync(session.value, transcript, at);
        log := log + [Retention.Sync(session.value, transcript, at)];
      }
      now := at;
      var acquired := limiter.TryAcquire();
      var task := if !acquired then Rejected else if stream then Created else Awaiting;
      requests := requests + [Request(session, transcript, conversation, stream, task, [], [], 0)];
    }

    // The first iteration of event_source.
    method StartStream(i: nat, at: real, ghost loads: PyString -> Loaded)
      requires Valid() && Enabled(View(), Start(i, at))
      modifies this
      ensures Valid()
      ensures View() == Next(loads, Cfg(), old(View()), Start(i, at))
    {
      now := at;
      requests := requests[i := requests[i].(task := Streaming(Opening))];
    }

    // The response is thrown away before that.
    method DropStream(i: nat, at: real, ghost loads: PyString -> Loaded)
      requires Valid() && Enabled(View(), Drop(i, at))
      modifies this
      ensures Valid()
      ensures View() == Next(loads, Cfg(), old(View()), Drop(i, at))
    {
      now := at;
      requests := requests[i := requests[i].(task := Abandoned)];
    }

    // The callback handed to the generator.
    method RememberReply(session: Option<SessionId>, text: PyString, at: real)
      requires Valid()
      modifies this`log, sessions
      ensures Valid()
      ensures View() == Remember(Cfg().limits, old(View()), session, Some(text), at)
    {
      hide AppendStep, Rep;
      if session.Some? {
        sessions.AppendAssistant(session.value, text, at);
        log := log + [Retention.Append(session.value, text, at)];
      }
    }

    // One resumption of event_source and of the generator inside it, with the
    // release of its finally block if it ends here.
    method ResumeStream(loads: PyString -> Loaded, i: nat, input: Input, at: real)
      requires Valid() && Enabled(View(), Feed(i, input, at))
      modifies this, limiter, sessions
      ensures Valid()
      ensures View() == Next(loads, Cfg(), old(View()), Feed(i, input, at))
    {
      hide AppendStep, Rep, Advance, Accepts;
      var r := requests[i];
      var m := Advance(loads, r.task.gen, input);
      if m.outs != [] && m.outs[0].Complete? {
        RememberReply(r.session, m.outs[0].text, at);
      }
      r := r.(task := Streaming(m.gen), inputs := r.inputs + [input], outs := r.outs + m.outs);
      if m.gen.Ended? {
        limiter.Release();
        r := r.(releases := r.releases + 1);
      }
      requests := requests[i := r];
      now := at;
    }

    // complete_chat returns its content or raises: the slot first, then memory.
    method FinishAnswer(i: nat, content: Option<PyString>, at: real, ghost loads: PyString -> Loaded)
      requires Valid() && Enabled(View(), Finish(i, content, at))
      modifies this, limiter, sessions
      ensures Valid()
      ensures View() == Next(loads, Cfg(), old(View()), Finish(i, content, at))
    {
      hide AppendStep, Rep;
      var r := requests[i];
      limiter.Release();
      if content.Some? {
        RememberReply(r.session, content.value, at);
      }
      requests := requests[i := r.(task := Answered(content), releases := r.releases + 1)];
      now := at;
    }

    // DELETE of a session.
    method SessionForget(id: SessionId, at: real, ghost loads: PyString -> Loaded) returns (removed: bool)
      requires Valid() && now <= at
      modifies this, sessions
      ensures Valid()
      ensures removed <==> id in old(sessions.table)
      ensures View() == Next(loads, Cfg(), old(View()), Forget(id, at))
    {
      hide Minus, Rep;
      removed := sessions.Forget(id);
      log := log + [Retention.Forget(id, at)];
      now := at;
    }
  }
}
