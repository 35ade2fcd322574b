// spa/src/auth/cognito.ts: login, callback, refresh and logout over
// sessionStorage. What runs between two awaits is one step.
module Cognito {
  import opened Text

  const EXPIRY_SKEW_SECONDS := 60

  datatype StoredTokens = StoredTokens(
    accessToken: Text, idToken: Text, refreshToken: Option<Text>, expiresAt: int, tokenType: Text)

  datatype TokenResponse = TokenResponse(
    accessToken: Text, idToken: Text, refreshToken: Option<Text>, expiresIn: int, tokenType: Option<Text>)

  // The three keys of sessionStorage.
  datatype Storage = Storage(verifier: Option<Text>, state: Option<Text>, tokens: Option<StoredTokens>)

  const Cleared: Storage := Storage(None, None, None)

  // JavaScript's truthiness of a string or null.
  predicate Truthy(t: Option<Text>) { t.Some? && t.value != [] }

  function ToStoredTokens(res: TokenResponse, previousRefresh: Option<Text>, now: int): StoredTokens {
    StoredTokens(
      res.accessToken, res.idToken,
      if res.refreshToken.Some? then res.refreshToken else previousRefresh,
      now + res.expiresIn * 1000,
      if Truthy(res.tokenType) then res.tokenType.value else Ascii("Bearer"))
  }

  predicate IsExpiringSoon(t: StoredTokens, now: int) {
    now >= t.expiresAt - EXPIRY_SKEW_SECONDS * 1000
  }

  // ----- The steps -----

  datatype CallbackUrl = CallbackUrl(code: Option<Text>, state: Option<Text>, error: Option<Text>)

  datatype CallbackStart =
    | LoginFailed | NoCode | StateMismatch | MissingVerifier
    | Exchange(code: Text, verifier: Text)

  // handleRedirectCallback up to the exchange request.
  function StartCallback(s: Storage, url: CallbackUrl): CallbackStart {
    if Truthy(url.error) then LoginFailed
    else if !Truthy(url.code) then NoCode
    else if !Truthy(s.state) || url.state != s.state then StateMismatch
    else if !Truthy(s.verifier) then MissingVerifier
    else Exchange(url.code.value, s.verifier.value)
  }

  // The answer to an exchange: the one-time material goes with its success only.
  function EndCallback(s: Storage, response: Option<TokenResponse>, now: int): Storage {
    if response.Some? then Storage(None, None, Some(ToStoredTokens(response.value, None, now))) else s
  }

  datatype AccessStart =
    | NoSession | Valid(token: Text) | Unrefreshable | Refresh(used: StoredTokens)

  // getValidAccessToken up to the refresh request.
  function StartAccess(s: Storage, now: int): AccessStart {
    if s.tokens.None? then NoSession
    else if !IsExpiringSoon(s.tokens.value, now) then Valid(s.tokens.value.accessToken)
    else if !Truthy(s.tokens.value.refreshToken) then Unrefreshable
    else Refresh(s.tokens.value)
  }

  // The answer to a refresh: a failure logs out.
  function EndAccess(s: Storage, used: StoredTokens, response: Option<TokenResponse>, now: int): Storage {
    if response.Some? then s.(tokens := Some(ToStoredTokens(response.value, used.refreshToken, now))) else Cleared
  }

  // ----- sessionStorage in place -----

  class SessionStorage {
    var verifier: Option<Text>
    var state: Option<Text>
    var tokens: Option<StoredTokens>

    ghost function View(): Storage
      reads this
    {
      Storage(verifier, state, tokens)
    }

    constructor ()
      ensures View() == Cleared
    {
      verifier, state, tokens := None, None, None;
    }

    method LoginRedirect(newVerifier: Text, newState: Text)
      modifies this
      ensures View() == old(View()).(verifier := Some(newVerifier), state := Some(newState))
    {
      verifier := Some(newVerifier);
      state := Some(newState);
    }

    method BeginCallback(url: CallbackUrl) returns (start: CallbackStart)
      ensures start == StartCallback(View(), url)
    {
      if Truthy(url.error) {
        return LoginFailed;
      }
      if !Truthy(url.code) {
        return NoCode;
      }
      if !Truthy(state) || url.state != state {
        return StateMismatch;
      }
      if !Truthy(verifier) {
        return MissingVerifier;
      }
      return Exchange(url.code.value, verifier.value);
    }

    method FinishCallback(response: Option<TokenResponse>, now: int) returns (result: Option<StoredTokens>)
      modifies this
      ensures View() == EndCallback(old(View()), response, now)
      ensures result == if response.Some? then tokens else None
    {
      if response.None? {
        return None;
      }
      tokens := Some(ToStoredTokens(response.value, None, now));
      verifier := None;
      state := None;
      return tokens;
    }

    method BeginAccess(now: int) returns (start: AccessStart)
      ensures start == StartAccess(View(), now)
    {
      if tokens.None? {
        return NoSession;
      }
      if !IsExpiringSoon(tokens.value, now) {
        return Valid(tokens.value.accessToken);
      }
      return if Truthy(tokens.value.refreshToken) then Refresh(tokens.value) else Unrefreshable;
    }

    method FinishAccess(used: StoredTokens, response: Option<TokenResponse>, now: int) returns (token: Option<Text>)
      modifies this
      ensures View() == EndAccess(old(View()), used, response, now)
      ensures token == if response.Some? then Some(response.value.accessToken) else None
    {
      if response.None? {
        ClearTokens();
        return None;
      }
      tokens := Some(ToStoredTokens(response.value, used.refreshToken, now));
      return Some(tokens.value.accessToken);
    }

    method ClearTokens()
      modifies this
      ensures View() == Cleared
    {
      tokens := None;
      verifier := None;
      state := None;
    }
  }

  // ----- Runs -----

  datatype Login = Login(verifier: Text, state: Text)

  datatype Status = Pending | Failed | Succeeded

  // An exchange under way or over, with the number of the latest login when it
  // was sent and the state the callback came back with.
  datatype Sent = Sent(login: int, code: Text, verifier: Text, returned: Text, status: Status)

  datatype Refreshing = Refreshing(used: StoredTokens, status: Status)

  // A response of the token endpoint, when it was stored and over which refresh
  // token.
  datatype Issue = Issue(response: TokenResponse, previous: Option<Text>, at: int)
  {
    function Tokens(): StoredTokens { ToStoredTokens(response, previous, at) }
  }

  datatype World = World(
    storage: Storage, logins: seq<Login>, exchanges: seq<Sent>, refreshes: seq<Refreshing>, issues: seq<Issue>)

  const Fresh: World := World(Cleared, [], [], [], [])

  datatype Event =
    | LogsIn(login: Login)
    | CallbackBegins(url: CallbackUrl)
    | CallbackEnds(i: nat, response: Option<TokenResponse>, now: int)
    | AccessBegins(now: int)
    | AccessEnds(i: nat, response: Option<TokenResponse>, now: int)
    | Clears

  predicate Enabled(w: World, e: Event) {
    match e
    case CallbackEnds(i, _, _) => i < |w.exchanges| && w.exchanges[i].status == Pending
    case AccessEnds(i, _, _) => i < |w.refreshes| && w.refreshes[i].status == Pending
    case _ => true
  }

  function StatusOf(response: Option<TokenResponse>): Status { if response.Some? then Succeeded else Failed }

  function Issued(w: World, response: Option<TokenResponse>, previous: Option<Text>, now: int): seq<Issue> {
    if response.Some? then w.issues + [Issue(response.value, previous, now)] else w.issues
  }

  function Next(w: World, e: Event): World
    requires Enabled(w, e)
  {
    match e
    case LogsIn(login) =>
      w.(storage := w.storage.(verifier := Some(login.verifier), state := Some(login.state)),
         logins := w.logins + [login])
    case CallbackBegins(url) =>
      var start := StartCallback(w.storage, url);
      if start.Exchange? then
        w.(exchanges := w.exchanges + [Sent(|w.logins| - 1, start.code, start.verifier, url.state.value, Pending)])
      else w
    case CallbackEnds(i, response, now) =>
      w.(storage := EndCallback(w.storage, response, now),
         exchanges := w.exchanges[i := w.exchanges[i].(status := StatusOf(response))],
         issues := Issued(w, response, None, now))
    case AccessBegins(now) =>
      var start := StartAccess(w.storage, now);
      if start.Refresh? then w.(refreshes := w.refreshes + [Refreshing(start.used, Pending)]) else w
    case AccessEnds(i, response, now) =>
      var used := w.refreshes[i].used;
      w.(storage := EndAccess(w.storage, used, response, now),
         refreshes := w.refreshes[i := w.refreshes[i].(status := StatusOf(response))],
         issues := Issued(w, response, used.refreshToken, now))
    case Clears => w.(storage := Cleared)
  }

  ghost predicate Happens(w: World, events: seq<Event>)
    decreases |events|
  {
    events == [] || (Enabled(w, events[0]) && Happens(Next(w, events[0]), events[1..]))
  }

  ghost function After(w: World, events: seq<Event>): World
    requires Happens(w, events)
    decreases |events|
  {
    if events == [] then w else After(Next(w, events[0]), events[1..])
  }

  // ----- What every step keeps -----

  // The stored verifier and state come together, from the latest login.
  predicate PairAgrees(w: World) {
    && (w.storage.verifier.Some? <==> w.storage.state.Some?)
    && (w.storage.verifier.Some? ==>
          w.logins != [] &&
          w.logins[|w.logins| - 1] == Login(w.storage.verifier.value, w.storage.state.value))
  }

  // An exchange carries the verifier of the very login whose state came back.
  predicate Bound(w: World, x: Sent) {
    && 0 <= x.login < |w.logins|
    && w.logins[x.login] == Login(x.verifier, x.returned)
    && x.verifier != [] && x.returned != []
  }

  // The material of a login is gone once one of its exchanges has succeeded.
  predicate Spent(w: World, x: Sent) {
    x.status == Succeeded && x.login == |w.logins| - 1 ==> w.storage.verifier.None?
  }

  // The stored tokens are those of the latest response.
  predicate TokensAgree(w: World) {
    && (w.storage.tokens.Some? ==> w.issues != [] && w.storage.tokens.value == w.issues[|w.issues| - 1].Tokens())
    && forall i :: 0 <= i < |w.refreshes| ==> WasStored(w.issues, w.refreshes[i].used)
  }

  predicate WasStored(issues: seq<Issue>, t: StoredTokens) {
    exists k :: 0 <= k < |issues| && issues[k].Tokens() == t
  }

  ghost predicate Good(w: World) {
    && PairAgrees(w)
    && (forall i :: 0 <= i < |w.exchanges| ==> Bound(w, w.exchanges[i]) && Spent(w, w.exchanges[i]))
    && TokensAgree(w)
  }

  lemma PairStep(w: World, e: Event)
    requires PairAgrees(w) && Enabled(w, e)
    ensures PairAgrees(Next(w, e))
  {
  }

  lemma ExchangesStep(w: World, e: Event)
    requires PairAgrees(w) && Enabled(w, e)
    requires forall i :: 0 <= i < |w.exchanges| ==> Bound(w, w.exchanges[i]) && Spent(w, w.exchanges[i])
    ensures
      var w' := Next(w, e);
      forall i :: 0 <= i < |w'.exchanges| ==> Bound(w', w'.exchanges[i]) && Spent(w', w'.exchanges[i])
  {
    hide ToStoredTokens;
    var w' := Next(w, e);
    forall i | 0 <= i < |w'.exchanges|
      ensures Bound(w', w'.exchanges[i]) && Spent(w', w'.exchanges[i])
    {
      if i < |w.exchanges| {
        assert Bound(w, w.exchanges[i]) && Spent(w, w.exchanges[i]);
      }
    }
  }

  lemma StoredStays(issues: seq<Issue>, more: seq<Issue>, t: StoredTokens)
    requires WasStored(issues, t)
    ensures WasStored(issues + more, t)
  {
    var k :| 0 <= k < |issues| && issues[k].Tokens() == t;
    assert (issues + more)[k] == issues[k];
  }

  lemma TokensStep(w: World, e: Event)
    requires TokensAgree(w) && Enabled(w, e)
    ensures TokensAgree(Next(w, e))
  {
    hide ToStoredTokens;
    var w' := Next(w, e);
    forall i | 0 <= i < |w'.refreshes|
      ensures WasStored(w'.issues, w'.refreshes[i].used)
    {
      if i < |w.refreshes| {
        assert WasStored(w.issues, w.refreshes[i].used);
        StoredStays(w.issues, w'.issues[|w.issues|..], w.refreshes[i].used);
        assert w'.issues == w.issues + w'.issues[|w.issues|..];
      } else {
        assert w.issues[|w.issues| - 1].Tokens() == w'.refreshes[i].used;
      }
    }
  }

  lemma {:induction false} GoodRun(w: World, events: seq<Event>)
    requires Good(w) && Happens(w, events)
    ensures Good(After(w, events))
    decreases |events|
  {
    if events != [] {
      hide Next, Enabled, PairAgrees, TokensAgree, Bound, Spent;
      PairStep(w, events[0]);
      ExchangesStep(w, events[0]);
      TokensStep(w, events[0]);
      GoodRun(Next(w, events[0]), events[1..]);
    }
  }

  // ----- Main results -----

  // Over every interleaving of logins, callbacks, refreshes and logouts, each
  // exchange ever sent carried the verifier stored by the same login whose state
  // the callback returned.
  lemma ExchangesAreBound(events: seq<Event>, i: nat)
    requires Happens(Fresh, events) && i < |After(Fresh, events).exchanges|
    ensures
      var w := After(Fresh, events);
      var x := w.exchanges[i];
      0 <= x.login < |w.logins| && x.verifier == w.logins[x.login].verifier && x.returned == w.logins[x.login].state
  {
    GoodRun(Fresh, events);
    var w := After(Fresh, events);
    hide After, Happens, PairAgrees, TokensAgree, Spent;
    assert Bound(w, w.exchanges[i]);
  }

  // What a successful exchange and a failed refresh leave, field by field.
  lemma ExchangeStores(w: World, i: nat, r: TokenResponse, now: int)
    requires i < |w.exchanges| && w.exchanges[i].status == Pending
    ensures
      var s := Next(w, CallbackEnds(i, Some(r), now)).storage;
      && s.verifier == None && s.state == None && s.tokens.Some?
      && (var t := s.tokens.value;
          && t.accessToken == r.accessToken && t.idToken == r.idToken && t.refreshToken == r.refreshToken
          && t.expiresAt == now + 1000 * r.expiresIn)
    ensures Next(w, CallbackEnds(i, None, now)).storage == w.storage
  {
  }

  lemma FailedRefreshClears(w: World, i: nat, now: int)
    requires i < |w.refreshes| && w.refreshes[i].status == Pending
    ensures
      var s := Next(w, AccessEnds(i, None, now)).storage;
      s.tokens == None && s.verifier == None && s.state == None
  {
  }

  // Which URL and storage lead to which refusal, and to which exchange.
  lemma CallbackCases(s: Storage, url: CallbackUrl, code: Text, verifier: Text)
    ensures
      var start := StartCallback(s, url);
      var failed := url.error.Some? && url.error.value != [];
      var coded := url.code.Some? && url.code.value != [];
      var matched := s.state.Some? && s.state.value != [] && url.state == s.state;
      && (start == LoginFailed <==> failed)
      && (start == NoCode <==> !failed && !coded)
      && (start == StateMismatch <==> !failed && coded && !matched)
      && (start == MissingVerifier <==> !failed && coded && matched && (s.verifier == None || s.verifier == Some([])))
      && (start == Exchange(code, verifier) <==>
            !failed && matched && url.code == Some(code) && code != [] && s.verifier == Some(verifier) && verifier != [])
  {
  }

  // The code an exchange is sent with and the state it was checked by are those of
  // one callback URL of the run.
  lemma {:induction false} CodesComeFromUrls(w: World, events: seq<Event>, i: nat)
    requires Happens(w, events) && i < |After(w, events).exchanges|
    ensures
      var x := After(w, events).exchanges[i];
      if i < |w.exchanges| then x.code == w.exchanges[i].code && x.returned == w.exchanges[i].returned
      else
        exists k :: 0 <= k < |events| && events[k].CallbackBegins?
          && events[k].url.code == Some(x.code) && events[k].url.state == Some(x.returned) && x.code != []
    decreases |events|
  {
    hide ToStoredTokens;
    if events != [] {
      var w1 := Next(w, events[0]);
      CodesNext(w, events[0]);
      hide Next, Enabled;
      CodesComeFromUrls(w1, events[1..], i);
      var x := After(w, events).exchanges[i];
      if i >= |w1.exchanges| {
        var k :| 0 <= k < |events[1..]| && events[1..][k].CallbackBegins?
          && events[1..][k].url.code == Some(x.code) && events[1..][k].url.state == Some(x.returned) && x.code != [];
        assert events[k + 1] == events[1..][k];
      }
    }
  }

  lemma CodesNext(w: World, e: Event)
    requires Enabled(w, e)
    ensures
      var w' := Next(w, e);
      && |w.exchanges| <= |w'.exchanges|
      && (forall j :: 0 <= j < |w.exchanges| ==>
            w'.exchanges[j].code == w.exchanges[j].code && w'.exchanges[j].returned == w.exchanges[j].returned)
      && (forall j :: |w.exchanges| <= j < |w'.exchanges| ==>
            && e.CallbackBegins? && e.url.code == Some(w'.exchanges[j].code)
            && e.url.state == Some(w'.exchanges[j].returned) && w'.exchanges[j].code != [])
  {
    hide ToStoredTokens;
  }

  // ----- What is stored, from the events -----

  // The events that store tokens, drop them, and use up or drop the login material.
  predicate StoresTokens(e: Event) { (e.CallbackEnds? || e.AccessEnds?) && e.response.Some? }
  predicate DropsTokens(e: Event) { e.Clears? || (e.AccessEnds? && e.response.None?) }
  predicate DropsPair(e: Event) { DropsTokens(e) || (e.CallbackEnds? && e.response.Some?) }

  // Tokens are stored exactly when some response came in and neither a logout nor
  // a failed refresh came after it; a failed exchange changes nothing.
  lemma {:induction false} TokensStoredExactly(w: World, events: seq<Event>)
    requires Happens(w, events)
    ensures After(w, events).storage.tokens.Some? <==>
      || (exists k :: 0 <= k < |events| && StoresTokens(events[k]) && forall j :: k < j < |events| ==> !DropsTokens(events[j]))
      || (w.storage.tokens.Some? && forall j :: 0 <= j < |events| ==> !DropsTokens(events[j]))
    decreases |events|
  {
    if events != [] {
      var (e, later) := (events[0], events[1..]);
      var w1 := Next(w, e);
      assert w1.storage.tokens.Some? <==> StoresTokens(e) || (w.storage.tokens.Some? && !DropsTokens(e)) by {
        hide ToStoredTokens;
      }
      hide Next, Enabled, StoresTokens, DropsTokens;
      TokensStoredExactly(w1, later);
      assert forall j :: 0 <= j < |later| ==> later[j] == events[j + 1];
      assert forall j :: 1 <= j < |events| ==> events[j] == later[j - 1];
      if k :| 0 <= k < |later| && StoresTokens(later[k]) && forall j :: k < j < |later| ==> !DropsTokens(later[j]) {
        assert StoresTokens(events[k + 1]);
        assert forall j :: k + 1 < j < |events| ==> events[j] == later[j - 1];
      }
      if k :| 0 <= k < |events| && StoresTokens(events[k]) && forall j :: k < j < |events| ==> !DropsTokens(events[j]) {
        if k > 0 {
          assert StoresTokens(later[k - 1]);
          assert forall j :: k - 1 < j < |later| ==> later[j] == events[j + 1];
        }
      }
    }
  }

  // The one-time material is stored exactly when it is that of the last login and
  // nothing has used it up or cleared it since.
  lemma {:induction false} PairStoredExactly(w: World, events: seq<Event>, login: Login)
    requires Happens(w, events) && PairAgrees(w)
    ensures After(w, events).storage.verifier == Some(login.verifier) && After(w, events).storage.state == Some(login.state) <==>
      || (exists k :: 0 <= k < |events| && events[k] == LogsIn(login) && Untouched(events[k + 1..]))
      || (w.storage.verifier == Some(login.verifier) && w.storage.state == Some(login.state) && Untouched(events))
    decreases |events|
  {
    if events != [] {
      var (e, later) := (events[0], events[1..]);
      PairStep(w, e);
      var w1 := Next(w, e);
      assert w1.storage.verifier == Some(login.verifier) && w1.storage.state == Some(login.state) <==>
        e == LogsIn(login) || (w.storage.verifier == Some(login.verifier) && w.storage.state == Some(login.state) && Keeps(e))
        by { hide ToStoredTokens; }
      UntouchedFirst(events);
      hide Next, Enabled, PairAgrees, Untouched, Keeps;
      PairStoredExactly(w1, later, login);
      assert forall k :: 0 <= k < |later| ==> later[k] == events[k + 1] && later[k + 1..] == events[k + 2..];
      if k :| 0 <= k < |later| && later[k] == LogsIn(login) && Untouched(later[k + 1..]) {
        assert events[k + 1] == LogsIn(login) && Untouched(events[k + 2..]);
      }
      if k :| 0 <= k < |events| && events[k] == LogsIn(login) && Untouched(events[k + 1..]) {
        if k > 0 {
          assert later[k - 1] == LogsIn(login) && Untouched(later[k..]);
        }
      }
    }
  }

  predicate Keeps(e: Event) { !e.LogsIn? && !DropsPair(e) }

  predicate Untouched(events: seq<Event>) {
    forall j :: 0 <= j < |events| ==> Keeps(events[j])
  }

  lemma UntouchedFirst(events: seq<Event>)
    requires events != []
    ensures Untouched(events) <==> Keeps(events[0]) && Untouched(events[1..])
  {
    hide Keeps;
    assert forall j :: 1 <= j < |events| ==> events[j] == events[1..][j - 1];
  }

  // What an access does at any time, from the storage alone.
  lemma AccessCases(s: Storage, now: int, token: Text, used: StoredTokens)
    ensures
      var start := StartAccess(s, now);
      var expiring := s.tokens.Some? && s.tokens.value.expiresAt - now <= 60000;
      var refreshable := s.tokens.Some? && s.tokens.value.refreshToken.Some? && s.tokens.value.refreshToken.value != [];
      && (start == NoSession <==> s.tokens.None?)
      && (start == Valid(token) <==> s.tokens.Some? && !expiring && token == s.tokens.value.accessToken)
      && (start == Unrefreshable <==> expiring && !refreshable)
      && (start == Refresh(used) <==> expiring && refreshable && s.tokens == Some(used))
  {
  }

  // A token handed out without a refresh is the one of the latest response, with
  // more than the skew left of its lifetime; and exactly then.
  lemma HandedOutIsValid(events: seq<Event>, now: int)
    requires Happens(Fresh, events)
    ensures
      var w := After(Fresh, events);
      var start := StartAccess(w.storage, now);
      && (start.Valid? <==>
            w.storage.tokens.Some? && w.issues != [] &&
            (var last := w.issues[|w.issues| - 1];
             now + EXPIRY_SKEW_SECONDS * 1000 < last.at + last.response.expiresIn * 1000))
      && (start.Valid? ==> start.token == w.issues[|w.issues| - 1].response.accessToken)
  {
    GoodRun(Fresh, events);
    hide After, Happens, PairAgrees, Bound, Spent;
  }

  // What is stored is the latest response, field by field.
  lemma StoredAreLatest(events: seq<Event>)
    requires Happens(Fresh, events) && After(Fresh, events).storage.tokens.Some?
    ensures
      var w := After(Fresh, events);
      && w.issues != []
      && (var (t, last) := (w.storage.tokens.value, w.issues[|w.issues| - 1]);
          && t.accessToken == last.response.accessToken && t.idToken == last.response.idToken
          && t.expiresAt == last.at + 1000 * last.response.expiresIn
          && (if Truthy(last.response.tokenType) then Some(t.tokenType) == last.response.tokenType
              else t.tokenType == Ascii("Bearer"))
          && (last.response.refreshToken.Some? ==> t.refreshToken == last.response.refreshToken))
  {
    GoodRun(Fresh, events);
    hide After, Happens, PairAgrees, Bound, Spent;
  }

  // ----- One success for each login -----

  // Once an exchange of a login has succeeded, no further exchange of that login
  // is ever sent.
  lemma {:induction false} NothingNewAfterSuccess(w: World, events: seq<Event>, i: nat)
    requires Good(w) && Happens(w, events) && i < |w.exchanges| && w.exchanges[i].status == Succeeded
    ensures
      var w' := After(w, events);
      && |w.exchanges| <= |w'.exchanges|
      && (forall j :: 0 <= j < |w.exchanges| ==> w'.exchanges[j].login == w.exchanges[j].login)
      && (forall j :: |w.exchanges| <= j < |w'.exchanges| ==> w'.exchanges[j].login != w.exchanges[i].login)
      && (forall j :: 0 <= j < |w.exchanges| && w.exchanges[j].status != Pending ==> w'.exchanges[j] == w.exchanges[j])
    decreases |events|
  {
    hide ToStoredTokens, TokensAgree;
    if events != [] {
      var w1 := Next(w, events[0]);
      PairStep(w, events[0]);
      ExchangesStep(w, events[0]);
      TokensStep(w, events[0]);
      NextExchanges(w, events[0], i);
      hide Next, Enabled, PairAgrees, Bound, Spent;
      NothingNewAfterSuccess(w1, events[1..], i);
    }
  }

  lemma NextExchanges(w: World, e: Event, i: nat)
    requires Good(w) && Enabled(w, e) && i < |w.exchanges| && w.exchanges[i].status == Succeeded
    ensures
      var w' := Next(w, e);
      && |w.exchanges| <= |w'.exchanges|
      && (forall j :: 0 <= j < |w.exchanges| && w.exchanges[j].status != Pending ==> w'.exchanges[j] == w.exchanges[j])
      && (forall j :: 0 <= j < |w.exchanges| ==> w'.exchanges[j].login == w.exchanges[j].login)
      && (forall j :: |w.exchanges| <= j < |w'.exchanges| ==> w'.exchanges[j].login != w.exchanges[i].login)
  {
    hide ToStoredTokens, TokensAgree;
    assert Spent(w, w.exchanges[i]);
  }

  // Another exchange of the login of exchange i succeeds between two worlds.
  predicate SucceedsAgain(w: World, w': World, i: nat)
    requires i < |w.exchanges| <= |w'.exchanges|
  {
    exists j ::
      0 <= j < |w'.exchanges| && w'.exchanges[j].status == Succeeded &&
      w'.exchanges[j].login == w.exchanges[i].login && (j < |w.exchanges| ==> w.exchanges[j].status == Pending)
  }

  ghost predicate CanSucceedAgain(w: World, i: nat)
    requires i < |w.exchanges|
  {
    exists events ::
      && Happens(w, events) && |w.exchanges| <= |After(w, events).exchanges|
      && SucceedsAgain(w, After(w, events), i)
  }

  // After one success a login can succeed again exactly when another of its
  // exchanges is still pending.
  lemma SecondSuccess(w: World, i: nat, response: TokenResponse)
    requires Good(w) && i < |w.exchanges| && w.exchanges[i].status == Succeeded
    ensures CanSucceedAgain(w, i) <==>
      exists j :: 0 <= j < |w.exchanges| && w.exchanges[j].status == Pending && w.exchanges[j].login == w.exchanges[i].login
  {
    hide ToStoredTokens, TokensAgree, PairAgrees;
    if CanSucceedAgain(w, i) {
      var events :| Happens(w, events) && |w.exchanges| <= |After(w, events).exchanges| && SucceedsAgain(w, After(w, events), i);
      NothingNewAfterSuccess(w, events, i);
    }
    if j :| 0 <= j < |w.exchanges| && w.exchanges[j].status == Pending && w.exchanges[j].login == w.exchanges[i].login {
      var e := CallbackEnds(j, Some(response), 0);
      OneEvent(w, e);
      assert After(w, [e]).exchanges[j].status == Succeeded;
    }
  }

  lemma OneEvent(w: World, e: Event)
    requires Enabled(w, e)
    ensures Happens(w, [e]) && After(w, [e]) == Next(w, e)
  {
    hide Next, Enabled;
    var none: seq<Event> := [];
    assert [e][0] == e && [e][1..] == none;
    assert Happens(Next(w, e), none) && After(Next(w, e), none) == Next(w, e);
  }

  // A caller that starts no callback while an exchange is pending, as the
  // bootstrap guard of the application does.
  ghost predicate OneAtATime(w: World, events: seq<Event>)
    requires Happens(w, events)
    decreases |events|
  {
    events == [] ||
    (&& (events[0].CallbackBegins? ==> NonePending(w))
     && OneAtATime(Next(w, events[0]), events[1..]))
  }

  predicate NonePending(w: World) {
    forall i :: 0 <= i < |w.exchanges| ==> w.exchanges[i].status != Pending
  }

  // No two exchanges of one login that both succeeded, or of which one succeeded
  // and the other still can.
  predicate Single(w: World) {
    forall i, j ::
      0 <= i < |w.exchanges| && 0 <= j < |w.exchanges| && i != j &&
      w.exchanges[i].status == Succeeded && w.exchanges[i].login == w.exchanges[j].login ==>
        w.exchanges[j].status == Failed
  }

  predicate OnePending(w: World) {
    forall i, j ::
      0 <= i < |w.exchanges| && 0 <= j < |w.exchanges| && i != j &&
      w.exchanges[i].status == Pending ==>
        w.exchanges[j].status != Pending
  }

  lemma SingleStep(w: World, e: Event)
    requires Good(w) && Enabled(w, e) && Single(w) && OnePending(w)
    requires e.CallbackBegins? ==> NonePending(w)
    ensures Single(Next(w, e)) && OnePending(Next(w, e))
  {
    hide ToStoredTokens, TokensAgree;
    assert forall i :: 0 <= i < |w.exchanges| ==> Bound(w, w.exchanges[i]) && Spent(w, w.exchanges[i]);
  }

  // Then each login is good for at most one successful exchange.
  lemma {:induction false} AtMostOneSuccess(w: World, events: seq<Event>)
    requires Good(w) && Single(w) && OnePending(w) && Happens(w, events) && OneAtATime(w, events)
    ensures Single(After(w, events))
    decreases |events|
  {
    if events != [] {
      SingleStep(w, events[0]);
      PairStep(w, events[0]);
      ExchangesStep(w, events[0]);
      TokensStep(w, events[0]);
      hide Next, Enabled, PairAgrees, TokensAgree, Bound, Spent, Single, OnePending, NonePending;
      AtMostOneSuccess(Next(w, events[0]), events[1..]);
    }
  }

  // Without that guard it is not: two callbacks begun together both succeed.
  lemma OverlapSucceedsTwice(login: Login, code: Text, a: TokenResponse, b: TokenResponse, now: int)
    requires login.verifier != [] && login.state != [] && code != []
    ensures
      var url := CallbackUrl(Some(code), Some(login.state), None);
      var w1 := Next(Fresh, LogsIn(login));
      var w2 := Next(Next(w1, CallbackBegins(url)), CallbackBegins(url));
      && |w2.exchanges| == 2 && Enabled(w2, CallbackEnds(0, Some(a), now))
      && (var w3 := Next(w2, CallbackEnds(0, Some(a), now));
          && Enabled(w3, CallbackEnds(1, Some(b), now))
          && !Single(Next(w3, CallbackEnds(1, Some(b), now))))
  {
    hide ToStoredTokens;
    var url := CallbackUrl(Some(code), Some(login.state), None);
    var w2 := Next(Next(Next(Fresh, LogsIn(login)), CallbackBegins(url)), CallbackBegins(url));
    var w3 := Next(w2, CallbackEnds(0, Some(a), now));
    var w4 := Next(w3, CallbackEnds(1, Some(b), now));
    assert w4.exchanges[0].status == Succeeded && w4.exchanges[1].status == Succeeded;
  }

  // ----- The refresh token -----

  // The tokens after some refreshes in a row, each over the tokens of the last.
  function Refreshed(t: StoredTokens, answers: seq<(TokenResponse, int)>): StoredTokens
    decreases |answers|
  {
    if answers == [] then t
    else Refreshed(ToStoredTokens(answers[0].0, t.refreshToken, answers[0].1), answers[1..])
  }

  // The last refresh token among some responses, if any has one.
  function LastGiven(answers: seq<(TokenResponse, int)>): Option<Text> {
    if answers == [] then None
    else if LastGiven(answers[1..]).Some? then LastGiven(answers[1..])
    else answers[0].0.refreshToken
  }

  // The refresh token survives any number of refreshes that return none, and the
  // last one returned replaces it.
  lemma {:induction false} RefreshTokenSurvives(t: StoredTokens, answers: seq<(TokenResponse, int)>)
    ensures Refreshed(t, answers).refreshToken ==
      if LastGiven(answers).Some? then LastGiven(answers) else t.refreshToken
    decreases |answers|
  {
    if answers != [] {
      RefreshTokenSurvives(ToStoredTokens(answers[0].0, t.refreshToken, answers[0].1), answers[1..]);
    }
  }

  // The refresh token stored and the ones that refreshes under way were sent with.
  predicate HasRefreshToken(w: World, token: Text) {
    && w.storage.tokens.Some? && w.storage.tokens.value.refreshToken == Some(token)
    && forall i :: 0 <= i < |w.refreshes| && w.refreshes[i].status == Pending ==>
         w.refreshes[i].used.refreshToken == Some(token)
  }

  // No logout, no new login completed, and refreshes that return no refresh token.
  predicate Omits(e: Event) {
    match e
    case CallbackEnds(_, response, _) => response.None?
    case AccessEnds(_, response, _) => response.Some? && response.value.refreshToken.None?
    case Clears => false
    case _ => true
  }

  // Over any such run, overlapping refreshes included, it stays the same.
  lemma {:induction false} RefreshTokenStays(w: World, events: seq<Event>, token: Text)
    requires HasRefreshToken(w, token) && Happens(w, events)
    requires forall i :: 0 <= i < |events| ==> Omits(events[i])
    ensures HasRefreshToken(After(w, events), token)
    decreases |events|
  {
    if events != [] {
      assert Omits(events[0]);
      OmitStep(w, events[0], token);
      hide Next, Enabled, HasRefreshToken;
      RefreshTokenStays(Next(w, events[0]), events[1..], token);
    }
  }

  lemma OmitStep(w: World, e: Event, token: Text)
    requires HasRefreshToken(w, token) && Enabled(w, e) && Omits(e)
    ensures HasRefreshToken(Next(w, e), token)
  {
  }

  // ----- Logout -----

  // Something that was sent and has no answer yet.
  predicate UnderWay(w: World) {
    || (exists i :: 0 <= i < |w.exchanges| && w.exchanges[i].status == Pending)
    || (exists i :: 0 <= i < |w.refreshes| && w.refreshes[i].status == Pending)
  }

  // Some way of going on, without logging in again, that leaves tokens stored.
  ghost predicate CanRestore(w: World) {
    exists events :: Happens(w, events) && NoLogin(events) && After(w, events).storage.tokens.Some?
  }

  predicate NoLogin(events: seq<Event>) {
    forall i :: 0 <= i < |events| ==> !events[i].LogsIn?
  }

  lemma {:induction false} ClearedStays(w: World, events: seq<Event>)
    requires w.storage == Cleared && !UnderWay(w) && Happens(w, events) && NoLogin(events)
    ensures After(w, events).storage == Cleared
    decreases |events|
  {
    if events != [] {
      ClearedStep(w, events[0]);
      hide Next, Enabled, UnderWay;
      ClearedStays(Next(w, events[0]), events[1..]);
    }
  }

  lemma ClearedStep(w: World, e: Event)
    requires w.storage == Cleared && !UnderWay(w) && Enabled(w, e) && !e.LogsIn?
    ensures Next(w, e).storage == Cleared && !UnderWay(Next(w, e))
  {
    hide ToStoredTokens;
  }

  // After a logout, tokens can come back without a new login exactly when an
  // exchange or a refresh was under way.
  lemma LogoutHolds(w: World, response: TokenResponse)
    ensures CanRestore(Next(w, Clears)) <==> UnderWay(w)
  {
    var out := Next(w, Clears);
    assert UnderWay(out) <==> UnderWay(w);
    if CanRestore(out) && !UnderWay(out) {
      var events :| Happens(out, events) && NoLogin(events) && After(out, events).storage.tokens.Some?;
      ClearedStays(out, events);
      assert false;
    }
    if UnderWay(out) {
      hide After, Happens, ToStoredTokens;
      var e :=
        if exists i :: 0 <= i < |out.exchanges| && out.exchanges[i].status == Pending then
          (var i :| 0 <= i < |out.exchanges| && out.exchanges[i].status == Pending; CallbackEnds(i, Some(response), 0))
        else
          (var i :| 0 <= i < |out.refreshes| && out.refreshes[i].status == Pending; AccessEnds(i, Some(response), 0));
      OneEvent(out, e);
      assert NoLogin([e]) && After(out, [e]).storage.tokens.Some?;
    }
  }

  lemma {:induction false} AfterAppend(w: World, events: seq<Event>, e: Event)
    requires Happens(w, events) && Enabled(After(w, events), e)
    ensures Happens(w, events + [e]) && After(w, events + [e]) == Next(After(w, events), e)
    decreases |events|
  {
    hide Next, Enabled;
    var all := events + [e];
    if events == [] {
      assert all == [e];
      OneEvent(w, e);
    } else {
      assert all[1..] == events[1..] + [e] && all[0] == events[0];
      AfterAppend(Next(w, events[0]), events[1..], e);
    }
  }

  // From the first login on: one callback, a refresh begun when the first tokens
  // are about to expire, a logout, and the late answer stores tokens again.
  lemma LateRefreshRestores(login: Login, code: Text, a: TokenResponse, b: TokenResponse)
    requires login.verifier != [] && login.state != [] && code != []
    requires Truthy(a.refreshToken)
    ensures
      var url := CallbackUrl(Some(code), Some(login.state), None);
      var late := a.expiresIn * 1000;
      var events := [LogsIn(login), CallbackBegins(url), CallbackEnds(0, Some(a), 0), AccessBegins(late), Clears];
      && Happens(Fresh, events) && After(Fresh, events).storage == Cleared
      && Happens(Fresh, events + [AccessEnds(0, Some(b), late)])
      && After(Fresh, events + [AccessEnds(0, Some(b), late)]).storage.tokens == Some(ToStoredTokens(b, a.refreshToken, late))
  {
    hide After, Happens;
    var url := CallbackUrl(Some(code), Some(login.state), None);
    var late := a.expiresIn * 1000;
    var (e1, e2, e3, e4, e5) :=
      (LogsIn(login), CallbackBegins(url), CallbackEnds(0, Some(a), 0), AccessBegins(late), Clears);
    assert [e1] + [e2] == [e1, e2] && [e1, e2] + [e3] == [e1, e2, e3];
    assert [e1, e2, e3] + [e4] == [e1, e2, e3, e4] && [e1, e2, e3, e4] + [e5] == [e1, e2, e3, e4, e5];
    OneEvent(Fresh, e1);
    AfterAppend(Fresh, [e1], e2);
    AfterAppend(Fresh, [e1, e2], e3);
    AfterAppend(Fresh, [e1, e2, e3], e4);
    AfterAppend(Fresh, [e1, e2, e3, e4], e5);
    AfterAppend(Fresh, [e1, e2, e3, e4, e5], AccessEnds(0, Some(b), late));
  }

  // The same with the exchange itself still under way at the logout.
  lemma LateCallbackRestores(login: Login, code: Text, a: TokenResponse)
    requires login.verifier != [] && login.state != [] && code != []
    ensures
      var url := CallbackUrl(Some(code), Some(login.state), None);
      var events := [LogsIn(login), CallbackBegins(url), Clears];
      && Happens(Fresh, events) && After(Fresh, events).storage == Cleared
      && Happens(Fresh, events + [CallbackEnds(0, Some(a), 0)])
      && After(Fresh, events + [CallbackEnds(0, Some(a), 0)]).storage.tokens == Some(ToStoredTokens(a, None, 0))
  {
    hide After, Happens, ToStoredTokens;
    var (e1, e2) := (LogsIn(login), CallbackBegins(CallbackUrl(Some(code), Some(login.state), None)));
    assert [e1] + [e2] == [e1, e2] && [e1, e2] + [Clears] == [e1, e2, Clears];
    OneEvent(Fresh, e1);
    AfterAppend(Fresh, [e1], e2);
    AfterAppend(Fresh, [e1, e2], Clears);
    AfterAppend(Fresh, [e1, e2, Clears], CallbackEnds(0, Some(a), 0));
  }
}
