// services/api/app/middleware.py: the concurrency limiter and the body cap.
module Middleware {
  import opened Text

  // ----- The limiter -----

  // The counter and the metrics gauge that shadows it.
  datatype Slots = Slots(inFlight: int, gauge: int)

  const NoSlots: Slots := Slots(0, 0)

  function Acquired(s: Slots): Slots { Slots(s.inFlight + 1, s.gauge + 1) }

  function Released(s: Slots): Slots {
    if s.inFlight > 0 then Slots(s.inFlight - 1, s.gauge - 1) else s
  }

  class InferenceLimiter {
    const maxSlots: int
    var inFlight: int
    var gauge: int

    ghost function View(): Slots
      reads this
    {
      Slots(inFlight, gauge)
    }

    constructor (maxConcurrent: int)
      ensures maxSlots == Max(1, maxConcurrent) && View() == NoSlots
    {
      maxSlots := Max(1, maxConcurrent);
      inFlight := 0;
      gauge := 0;
    }

    method TryAcquire() returns (ok: bool)
      modifies this
      ensures ok <==> old(inFlight) < maxSlots
      ensures View() == if ok then Acquired(old(View())) else old(View())
    {
      if inFlight >= maxSlots {
        return false;
      }
      inFlight := inFlight + 1;
      gauge := gauge + 1;
      return true;
    }

    method Release()
      modifies this
      ensures View() == Released(old(View()))
    {
      if inFlight > 0 {
        inFlight := inFlight - 1;
        gauge := gauge - 1;
      }
    }
  }

  // ----- The body cap -----

  const MAX_BODY_BYTES: nat := 262144

  // An ASGI message, as far as the middleware looks at it.
  datatype Incoming = Part(body: seq<int>, more: bool) | Disconnect

  function SizeOf(m: Incoming): nat { if m.Part? then |m.body| else 0 }
  predicate More(m: Incoming) { m.Part? && m.more }

  function TotalSize(ms: seq<Incoming>): nat {
    if ms == [] then 0 else SizeOf(ms[0]) + TotalSize(ms[1..])
  }

  // What the middleware reads of the ASGI scope.
  datatype Scope = Scope(http: bool, verb: string)
  {
    predicate CarriesBody() { http && verb in ["POST", "PUT", "PATCH"] }
  }

  // The application behind the middleware: after the messages received so far it
  // either asks for one more or answers.
  datatype App<!R> = App(wants: seq<Incoming> -> bool, answer: seq<Incoming> -> R)

  // How the exchange ends: refused with 413, answered by the application, or
  // with someone waiting for a message that never comes.
  datatype Reply<R> = TooLarge | Answer(value: R) | Waiting

  // The messages an application takes from an incoming sequence.
  function Taken<R>(app: App<R>, incoming: seq<Incoming>, k: nat): (n: nat)
    requires k <= |incoming|
    ensures k <= n <= |incoming|
    ensures n < |incoming| ==> !app.wants(incoming[..n])
    ensures forall i :: k <= i < n ==> app.wants(incoming[..i])
    decreases |incoming| - k
  {
    if k < |incoming| && app.wants(incoming[..k]) then Taken(app, incoming, k + 1) else k
  }

  // The application without the middleware.
  function Bare<R>(app: App<R>, incoming: seq<Incoming>): Reply<R> {
    var received := incoming[..Taken(app, incoming, 0)];
    if app.wants(received) then Waiting else Answer(app.answer(received))
  }

  // What the application receives, without the recursion: the shortest front after
  // which it wants no more, or all there is.
  lemma BareMeans<R>(app: App<R>, incoming: seq<Incoming>, n: nat)
    requires n <= |incoming| && forall i :: 0 <= i < n ==> app.wants(incoming[..i])
    ensures !app.wants(incoming[..n]) ==> Bare(app, incoming) == Answer(app.answer(incoming[..n]))
    ensures app.wants(incoming[..n]) && n == |incoming| ==> Bare(app, incoming) == Waiting
  {
    var k := Taken(app, incoming, 0);
    assert k < n ==> k < |incoming|;
  }

  class BodySizeLimit {
    const incoming: seq<Incoming>
    var position: nat
    var total: nat
    var over: bool
    var replayed: bool

    ghost predicate Valid()
      reads this
    {
      && position <= |incoming|
      && total == TotalSize(incoming[..position])
    }

    constructor (messages: seq<Incoming>)
      ensures Valid() && incoming == messages && position == 0 && !over && !replayed
    {
      incoming := messages;
      position, total, over, replayed := 0, 0, false, false;
    }

    method CountingReceive() returns (message: Incoming)
      requires Valid() && position < |incoming|
      modifies this`position, this`total, this`over
      ensures Valid() && position == old(position) + 1 && message == incoming[old(position)]
      ensures over <==> old(over) || (message.Part? && total > MAX_BODY_BYTES)
    {
      message := incoming[position];
      SizeNext(incoming, position);
      position := position + 1;
      if message.Part? {
        total := total + |message.body|;
        if total > MAX_BODY_BYTES {
          over := true;
        }
      }
    }

    // The application's receive: the first message once more, then the rest.
    method ReplayReceive(first: Incoming) returns (message: Incoming)
      requires Valid() && 0 < position <= |incoming| && first == incoming[0]
      requires replayed ==> position < |incoming|
      modifies this
      ensures Valid() && replayed && message == incoming[if old(replayed) then old(position) else 0]
      ensures position == if old(replayed) then old(position) + 1 else old(position)
    {
      if !replayed {
        replayed := true;
        return first;
      }
      message := CountingReceive();
    }

    // The application's receive, when the middleware steps aside.
    method PlainReceive() returns (message: Incoming)
      requires position < |incoming|
      modifies this`position
      ensures position == old(position) + 1 && message == incoming[old(position)]
    {
      message := incoming[position];
      position := position + 1;
    }

    // The whole middleware: only requests that carry a body are looked at.
    method Handle<R>(scope: Scope, app: App<R>) returns (reply: Reply<R>)
      requires Valid() && position == 0 && !over && !replayed
      modifies this
      ensures reply == if scope.CarriesBody() then Capped(app, incoming) else Bare(app, incoming)
    {
      if scope.CarriesBody() {
        reply := Call(app);
        return;
      }
      var received: seq<Incoming> := [];
      while app.wants(received) && position < |incoming|
        invariant position == |received| <= |incoming| && received == incoming[..position]
        invariant Taken(app, incoming, 0) == Taken(app, incoming, position)
        decreases |incoming| - position
      {
        var message := PlainReceive();
        received := received + [message];
      }
      return if app.wants(received) then Waiting else Answer(app.answer(received));
    }

    // A request with a body, from its first message to the end of the exchange.
    method Call<R>(app: App<R>) returns (reply: Reply<R>)
      requires Valid() && position == 0 && !over && !replayed
      modifies this
      ensures incoming == [] ==> reply == Waiting
      ensures incoming != [] && SizeOf(incoming[0]) > MAX_BODY_BYTES ==>
        && reply == TooLarge && !replayed
        && position == Drained(incoming, 0)
      ensures incoming != [] && SizeOf(incoming[0]) <= MAX_BODY_BYTES ==>
        && reply == Bare(app, incoming)
        && position == Max(1, Taken(app, incoming, 0))
    {
      if |incoming| == 0 {
        return Waiting;
      }
      var first := CountingReceive();
      assert total == SizeOf(first) by { SizeNext(incoming, 0); assert incoming[..1][1..] == []; }
      if over {
        reply := TooLarge;
        var more := More(first);
        while more && position < |incoming|
          invariant 0 < position <= |incoming| && !replayed
          invariant more <==> More(incoming[position - 1])
          invariant Drained(incoming, 0) == Drained(incoming, position - 1)
          decreases |incoming| - position
        {
          var message := incoming[position];
          position := position + 1;
          more := More(message);
        }
        return;
      }
      var received: seq<Incoming> := [];
      while app.wants(received) && (!replayed || position < |incoming|)
        invariant Valid() && position == Max(1, |received|) && (replayed <==> received != [])
        invariant received == incoming[..|received|]
        invariant Taken(app, incoming, 0) == Taken(app, incoming, |received|)
        decreases |incoming| - |received|
      {
        var message := ReplayReceive(first);
        received := received + [message];
      }
      return if app.wants(received) then Waiting else Answer(app.answer(received));
    }
  }

  // Where a drain of the rest of the body stops, the message at k being read.
  function Drained(incoming: seq<Incoming>, k: nat): (n: nat)
    requires k < |incoming|
    ensures k < n <= |incoming|
    ensures More(incoming[n - 1]) ==> n == |incoming|
    ensures forall i :: k <= i < n - 1 ==> More(incoming[i])
    decreases |incoming| - k
  {
    if More(incoming[k]) && k + 1 < |incoming| then Drained(incoming, k + 1) else k + 1
  }

  lemma {:induction false} SizeAppend(a: seq<Incoming>, b: seq<Incoming>)
    ensures TotalSize(a + b) == TotalSize(a) + TotalSize(b)
  {
    if a == [] {
      assert a + b == b;
    } else {
      assert (a + b)[1..] == a[1..] + b;
      SizeAppend(a[1..], b);
    }
  }

  lemma SizeNext(ms: seq<Incoming>, k: nat)
    requires k < |ms|
    ensures TotalSize(ms[..k + 1]) == TotalSize(ms[..k]) + SizeOf(ms[k])
  {
    assert ms[..k + 1] == ms[..k] + [ms[k]];
    SizeAppend(ms[..k], [ms[k]]);
    assert TotalSize([ms[k]]) == SizeOf(ms[k]) + TotalSize([ms[k]][1..]);
  }

  // The outcome, without the state.
  function Capped<R>(app: App<R>, incoming: seq<Incoming>): Reply<R> {
    if incoming == [] then Waiting
    else if SizeOf(incoming[0]) > MAX_BODY_BYTES then TooLarge
    else Bare(app, incoming)
  }

  // A body is complete when some message is not followed by more.
  predicate Complete(incoming: seq<Incoming>) {
    exists i :: 0 <= i < |incoming| && !More(incoming[i])
  }

  // On a complete body the drain stops at the first message with nothing after it.
  lemma DrainEnds(incoming: seq<Incoming>)
    requires Complete(incoming)
    ensures
      var n := Drained(incoming, 0);
      !More(incoming[n - 1]) && forall i :: 0 <= i < n - 1 ==> More(incoming[i])
  {
    var i :| 0 <= i < |incoming| && !More(incoming[i]);
  }

  // What the class comment promises is a refusal whenever the whole body is over
  // the cap. That is what happens exactly when the first message alone is over
  // it or the whole body is not.
  lemma PromiseKept<R>(app: App<R>, incoming: seq<Incoming>)
    requires incoming != []
    ensures (Capped(app, incoming) == TooLarge <==> TotalSize(incoming) > MAX_BODY_BYTES)
      <==> (SizeOf(incoming[0]) > MAX_BODY_BYTES || TotalSize(incoming) <= MAX_BODY_BYTES)
  {
  }

  // An oversized body in two parts is answered as if there were no cap.
  lemma LateChunkPasses<R>(app: App<R>)
    ensures
      var incoming := [Part([0], true), Part(seq(MAX_BODY_BYTES, _ => 0), false)];
      TotalSize(incoming) > MAX_BODY_BYTES && Capped(app, incoming) == Bare(app, incoming)
  {
    var big := Part(seq(MAX_BODY_BYTES, _ => 0), false);
    var incoming := [Part([0], true), big];
    SizeNext(incoming, 0);
    SizeNext(incoming, 1);
    assert incoming[..2] == incoming;
    assert SizeOf(incoming[0]) == 1 && SizeOf(incoming[1]) == MAX_BODY_BYTES;
  }
}
