// services/api/app/models.py and the payload of services/api/app/inference.py:
// what a validated request is, and what it makes the server send upstream.
module Requests {
  import opened Text
  import opened Sessions
  import Retention

  const MAX_MESSAGES := 20
  const MAX_CHARS_PER_MESSAGE := 8000
  const MAX_TOTAL_CHARS := 24000
  const MAX_OUTPUT_TOKENS_CEILING := 512
  const MIN_OUTPUT_TOKENS := 1
  const MAX_ID_LENGTH := 128

  // A request body of the right shape; a role outside the two accepted is Other.
  datatype ChatRequest = ChatRequest(
    messages: seq<Message>, temperature: real, maxOutputTokens: int, stream: bool, session: Option<PyString>)

  function TotalChars(messages: seq<Message>): nat {
    if messages == [] then 0 else |messages[0].content| + TotalChars(messages[1..])
  }

  // ----- Session ids -----

  predicate IdChar(c: CodePoint) {
    || 'A' as int <= c <= 'Z' as int || 'a' as int <= c <= 'z' as int || '0' as int <= c <= '9' as int
    || c == '_' as int || c == '-' as int
  }

  // The edges of the alphabet.
  lemma IdCharEdges()
    ensures forall c :: c in Ascii("AZaz09_-") ==> IdChar(c)
    ensures forall c :: c in Ascii("@[`{/:.") ==> !IdChar(c)
  {
  }

  predicate IdChars(s: PyString) { forall i :: 0 <= i < |s| ==> IdChar(s[i]) }

  // re.match of ^[A-Za-z0-9_-]{1,128}$, whose $ also matches before a final
  // line feed.
  predicate PatternMatches(s: PyString) {
    exists k: nat :: 1 <= k <= MAX_ID_LENGTH && k <= |s| && IdChars(s[..k]) && AtEnd(s, k)
  }

  predicate AtEnd(s: PyString, k: nat) { k == |s| || (k == |s| - 1 && s[k] == LF) }

  predicate AcceptedId(s: PyString) { |s| <= MAX_ID_LENGTH && PatternMatches(s) }

  // What the error message says an id must be.
  predicate PromisedId(s: PyString) { 1 <= |s| <= MAX_ID_LENGTH && IdChars(s) }

  // An accepted id is a promised one exactly when it does not end in a line feed.
  lemma AcceptedIdIsPromised(s: PyString)
    requires AcceptedId(s)
    ensures PromisedId(s) <==> s[|s| - 1] != LF
  {
    var k: nat :| 1 <= k <= MAX_ID_LENGTH && k <= |s| && IdChars(s[..k]) && AtEnd(s, k);
    if k == |s| {
      assert s[..k] == s && IdChar(s[|s| - 1]);
    } else {
      assert !IdChar(s[|s| - 1]);
    }
  }

  lemma PromisedIdIsAccepted(s: PyString)
    requires PromisedId(s)
    ensures AcceptedId(s)
  {
    assert s[..|s|] == s && AtEnd(s, |s|);
  }

  lemma NewlineAccepted()
    ensures AcceptedId(Ascii("a") + [LF]) && !PromisedId(Ascii("a") + [LF])
  {
    var s := Ascii("a") + [LF];
    assert IdChars(s[..1]) && AtEnd(s, 1);
    assert !IdChar(s[1]);
  }

  predicate HexDigit(c: CodePoint) {
    '0' as int <= c <= '9' as int || 'a' as int <= c <= 'f' as int
  }

  // The form crypto.randomUUID gives: 8-4-4-4-12 hexadecimal digits.
  predicate Uuid(s: PyString) {
    && |s| == 36
    && forall i :: 0 <= i < 36 ==> if i in {8, 13, 18, 23} then s[i] == '-' as int else HexDigit(s[i])
  }

  // Every id the browser makes is accepted.
  lemma UuidAccepted(s: PyString)
    requires Uuid(s)
    ensures AcceptedId(s)
  {
    forall i | 0 <= i < |s|
      ensures IdChar(s[i])
    {
      assert if i in {8, 13, 18, 23} then s[i] == '-' as int else HexDigit(s[i]);
    }
    PromisedIdIsAccepted(s);
  }

  // ----- Validation -----

  predicate Accepted(r: ChatRequest) {
    && 1 <= |r.messages| <= MAX_MESSAGES
    && (forall i :: 0 <= i < |r.messages| ==>
          r.messages[i].role != Other && 1 <= |r.messages[i].content| <= MAX_CHARS_PER_MESSAGE)
    && 0.0 <= r.temperature <= 1.5
    && MIN_OUTPUT_TOKENS <= r.maxOutputTokens <= MAX_OUTPUT_TOKENS_CEILING
    && TotalChars(r.messages) <= MAX_TOTAL_CHARS
    && (r.session.Some? ==> AcceptedId(r.session.value))
    && r.messages[|r.messages| - 1].role == User
  }

  // Beyond any of the limits a request is refused.
  lemma RefusedBeyond(r: ChatRequest)
    ensures |r.messages| == 0 || |r.messages| > 20 ==> !Accepted(r)
    ensures
      (exists i :: 0 <= i < |r.messages| && (|r.messages[i].content| == 0 || |r.messages[i].content| > 8000)) ==>
        !Accepted(r)
    ensures (exists i :: 0 <= i < |r.messages| && r.messages[i].role == Other) ==> !Accepted(r)
    ensures TotalChars(r.messages) > 24000 ==> !Accepted(r)
    ensures r.messages != [] && r.messages[|r.messages| - 1].role == Assistant ==> !Accepted(r)
    ensures r.maxOutputTokens < 1 || r.maxOutputTokens > 512 ==> !Accepted(r)
    ensures r.temperature < 0.0 || r.temperature > 1.5 ==> !Accepted(r)
    ensures r.session.Some? && !AcceptedId(r.session.value) ==> !Accepted(r)
  {
  }

  lemma {:induction false} CharsAtMost(messages: seq<Message>, n: nat)
    requires forall i :: 0 <= i < |messages| ==> |messages[i].content| <= n
    ensures TotalChars(messages) <= |messages| * n
  {
    if messages != [] {
      CharsAtMost(messages[1..], n);
    }
  }

  // Up to twenty messages of up to 1200 characters, or three of up to 8000, the
  // last from the user, are accepted whatever they hold.
  lemma AcceptedWithin(r: ChatRequest, n: nat)
    requires 1 <= |r.messages| <= 20 && n <= 8000 && |r.messages| * n <= 24000
    requires forall i :: 0 <= i < |r.messages| ==>
      r.messages[i].role in {User, Assistant} && 1 <= |r.messages[i].content| <= n
    requires r.messages[|r.messages| - 1].role == User
    requires 0.0 <= r.temperature <= 1.5 && 1 <= r.maxOutputTokens <= 512
    requires r.session.Some? ==> AcceptedId(r.session.value)
    ensures Accepted(r)
  {
    hide AcceptedId;
    CharsAtMost(r.messages, n);
  }

  function ClampedMaxTokens(r: ChatRequest, ceiling: int): int {
    Max(MIN_OUTPUT_TOKENS, if r.maxOutputTokens < ceiling then r.maxOutputTokens else ceiling)
  }

  // The clamp in full: the request, unless the ceiling is lower, and never below one.
  lemma ClampExact(r: ChatRequest, ceiling: int)
    requires 1 <= r.maxOutputTokens <= MAX_OUTPUT_TOKENS_CEILING
    ensures
      var n := ClampedMaxTokens(r, ceiling);
      && (r.maxOutputTokens <= ceiling ==> n == r.maxOutputTokens)
      && (1 <= ceiling <= r.maxOutputTokens ==> n == ceiling)
      && (ceiling < 1 ==> n == 1)
      && 1 <= n <= Max(1, ceiling) && n <= r.maxOutputTokens
  {
  }

  // ----- The payload -----

  datatype Line = System(prompt: PyString) | Turn(message: Message)

  datatype Payload = Payload(messages: seq<Line>, temperature: real, maxTokens: int, stream: bool)

  datatype Settings = Settings(systemPrompt: PyString, maxOutputTokens: int)

  function Turns(messages: seq<Message>): seq<Line> {
    seq(|messages|, i requires 0 <= i < |messages| => Turn(messages[i]))
  }

  function BuildPayload(conversation: seq<Message>, r: ChatRequest, settings: Settings): Payload {
    Payload([System(settings.systemPrompt)] + Turns(conversation), r.temperature,
      ClampedMaxTokens(r, settings.maxOutputTokens), r.stream)
  }

  // The conversation the route answers: with a session id what sync returns,
  // otherwise the request's own messages.
  function Conversation(l: Limits, session: Option<SessionId>, transcript: seq<Message>): seq<Message> {
    if session.Some? then Window(Cleaned(transcript), l.maxMessages) else transcript
  }

  // Conversation content, in code points.
  function PayloadChars(lines: seq<Line>): nat {
    if lines == [] then 0
    else (if lines[0].Turn? then |lines[0].message.content| else 0) + PayloadChars(lines[1..])
  }

  lemma {:induction false} CleanedAll(messages: seq<Message>)
    ensures Cleaned(messages) == messages <==> forall i :: 0 <= i < |messages| ==> Retained(messages[i])
    ensures |Cleaned(messages)| <= |messages|
  {
    if messages != [] {
      CleanedAll(messages[1..]);
      if Retained(messages[0]) {
        assert Cleaned(messages)[1..] == Cleaned(messages[1..]);
        assert forall i :: 0 < i < |messages| ==> messages[i] == messages[1..][i - 1];
      } else {
        assert |Cleaned(messages)| < |messages|;
      }
    }
  }

  lemma {:induction false} SuffixChars(messages: seq<Message>, k: nat)
    requires k <= |messages|
    ensures TotalChars(messages[k..]) <= TotalChars(messages)
  {
    if k == 0 {
      assert messages[0..] == messages;
    } else {
      assert messages[k..] == messages[1..][k - 1..];
      SuffixChars(messages[1..], k - 1);
    }
  }

  lemma {:induction false} TurnsChars(messages: seq<Message>)
    ensures PayloadChars(Turns(messages)) == TotalChars(messages)
  {
    if messages != [] {
      assert Turns(messages)[1..] == Turns(messages[1..]);
      TurnsChars(messages[1..]);
    }
  }

  // Where the conversation of an accepted request starts in its transcript.
  function Start(l: Limits, r: ChatRequest): (k: nat)
    ensures r.messages != [] && l.Valid() ==> k < |r.messages|
  {
    if r.session.Some? && |r.messages| > l.maxMessages then |r.messages| - l.maxMessages else 0
  }

  lemma ConversationIsSuffix(l: Limits, r: ChatRequest)
    requires l.Valid() && Accepted(r)
    ensures Conversation(l, r.session, r.messages) == r.messages[Start(l, r)..]
  {
    assert forall i :: 0 <= i < |r.messages| ==> Retained(r.messages[i]);
    CleanedAll(r.messages);
  }

  // Every accepted request makes a payload of one system message and a nonempty
  // end of the transcript with its final user message, within all limits.
  lemma PayloadWellFormed(l: Limits, r: ChatRequest, settings: Settings)
    requires l.Valid() && Accepted(r)
    ensures
      var p := BuildPayload(Conversation(l, r.session, r.messages), r, settings);
      var k := Start(l, r);
      && p.messages == [System(settings.systemPrompt)] + Turns(r.messages[k..]) && k < |r.messages|
      && p.messages[|p.messages| - 1].message == r.messages[|r.messages| - 1]
      && p.messages[|p.messages| - 1].message.role == User
      && 2 <= |p.messages| <= 1 + MAX_MESSAGES
      && (r.session.Some? ==> |p.messages| <= 1 + l.maxMessages)
      && PayloadChars(p.messages) <= MAX_TOTAL_CHARS
      && 1 <= p.maxTokens <= MAX_OUTPUT_TOKENS_CEILING
      && p.maxTokens <= Max(1, settings.maxOutputTokens) && p.maxTokens <= r.maxOutputTokens
      && (r.maxOutputTokens <= settings.maxOutputTokens ==> p.maxTokens == r.maxOutputTokens)
      && (1 <= settings.maxOutputTokens <= r.maxOutputTokens ==> p.maxTokens == settings.maxOutputTokens)
      && (settings.maxOutputTokens < 1 ==> p.maxTokens == 1)
      && p.temperature == r.temperature && p.stream == r.stream
  {
    hide Window, Cleaned, TotalChars, AcceptedId, ClampedMaxTokens;
    var k := Start(l, r);
    ClampExact(r, settings.maxOutputTokens);
    ConversationIsSuffix(l, r);
    hide Conversation;
    SuffixChars(r.messages, k);
    TurnsChars(r.messages[k..]);
    var tail := Turns(r.messages[k..]);
    var all := [System(settings.systemPrompt)] + tail;
    assert all[1..] == tail && !all[0].Turn?;
    assert PayloadChars(all) == PayloadChars(tail);
    hide PayloadChars;
    assert |tail| == |r.messages| - k > 0;
    assert all[|all| - 1] == tail[|tail| - 1] == Turn(r.messages[|r.messages| - 1]);
  }

  // Whatever this replica remembered before, or nothing at all, an accepted
  // request with a session id is answered from the end of its own transcript,
  // which is all of it when it fits the window.
  lemma ColdReplica(l: Limits, ops: seq<Retention.Op>, r: ChatRequest, now: real)
    requires l.Valid() && Accepted(r) && r.session.Some?
    requires Retention.Monotone(ops + [Retention.Sync(r.session.value, r.messages, now)])
    ensures
      var id := r.session.value;
      var st := SyncStep(l, Retention.Replay(l, ops), id, r.messages, now);
      && ContextOf(l, st, id, now) == Window(r.messages, l.maxMessages)
      && (ContextOf(l, st, id, now) == Conversation(l, None, r.messages) <==> |r.messages| <= l.maxMessages)
  {
    hide SyncStep, ContextOf, Retention.Monotone;
    Retention.SyncPost(l, ops, r.session.value, r.messages, now);
    assert forall i :: 0 <= i < |r.messages| ==> Retained(r.messages[i]);
    CleanedAll(r.messages);
  }

  // With the default twelve turns every accepted transcript fits.
  lemma DefaultWindowFits(r: ChatRequest, ttl: int, cap: int)
    requires Accepted(r)
    ensures |r.messages| <= MakeLimits(12, ttl, cap).maxMessages
  {
  }
}
