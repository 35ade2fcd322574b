// services/api/app/sessions.py: bounded conversation memory with an LRU cap, an
// idle limit and a sliding window.
module Sessions {
  import opened Text

  datatype Role = User | Assistant | Other
  datatype Message = Message(role: Role, content: PyString)

  type SessionId = PyString

  datatype Session = Session(messages: seq<Message>, lastSeen: real, created: real, turns: nat)

  // The effective limits, after the constructor's clamping.
  datatype Limits = Limits(maxMessages: nat, ttl: int, maxSessions: nat)
  {
    predicate Valid() { maxMessages >= 2 && ttl >= 1 && maxSessions >= 1 }
  }

  function MakeLimits(maxTurns: int, ttlSeconds: int, maxSessions: int): (l: Limits)
    ensures l.Valid()
    ensures l.maxMessages == if maxTurns >= 1 then 2 * maxTurns else 2
    ensures l.ttl == if ttlSeconds >= 1 then ttlSeconds else 1
    ensures l.maxSessions == if maxSessions >= 1 then maxSessions else 1
  {
    Limits(Max(2, maxTurns * 2), Max(1, ttlSeconds), Max(1, maxSessions))
  }

  function Window(messages: seq<Message>, limit: nat): seq<Message> {
    if |messages| > limit then messages[|messages| - limit..] else messages
  }

  predicate Retained(m: Message) { m.role != Other && m.content != [] }

  function Cleaned(transcript: seq<Message>): seq<Message> {
    if transcript == [] then []
    else if Retained(transcript[0]) then [transcript[0]] + Cleaned(transcript[1..])
    else Cleaned(transcript[1..])
  }

  // Cleaning keeps, in order, exactly the user and assistant messages with text.
  lemma {:induction false} CleanedAppend(a: seq<Message>, b: seq<Message>)
    ensures Cleaned(a + b) == Cleaned(a) + Cleaned(b)
  {
    if a == [] {
      assert a + b == b;
    } else {
      assert (a + b)[1..] == a[1..] + b;
      CleanedAppend(a[1..], b);
    }
  }

  lemma CleanedOne(m: Message)
    ensures Cleaned([m]) == if (m.role == User || m.role == Assistant) && |m.content| > 0 then [m] else []
  {
    var none: seq<Message> := [];
    assert [m][1..] == none;
  }

  // The window is the last messages, all of them when there are no more.
  lemma WindowIsSuffix(messages: seq<Message>, limit: nat)
    ensures
      var w := Window(messages, limit);
      |w| == (if |messages| < limit then |messages| else limit) && messages == messages[..|messages| - |w|] + w
  {
  }

  // ----- The store as a value -----

  // An OrderedDict: the ids from least to most recently used, and their sessions.
  datatype Store = Store(order: seq<SessionId>, table: map<SessionId, Session>)

  const EmptyStore: Store := Store([], map[])

  function Ids(order: seq<SessionId>): set<SessionId> { set x | x in order }

  function Without(order: seq<SessionId>, gone: set<SessionId>): (r: seq<SessionId>)
    ensures forall x :: x in r <==> x in order && x !in gone
  {
    if order == [] then []
    else if order[0] in gone then Without(order[1..], gone)
    else [order[0]] + Without(order[1..], gone)
  }

  function Minus(st: Store, gone: set<SessionId>): Store {
    Store(Without(st.order, gone), st.table - gone)
  }

  predicate Expired(s: Session, now: real, ttl: int) { now - s.lastSeen > ttl as real }

  function ExpiredIds(st: Store, now: real, ttl: int): set<SessionId> {
    set id | id in st.table && Expired(st.table[id], now, ttl)
  }

  // Evict from the least recently used end down to the cap.
  function Evict(st: Store, cap: nat): Store {
    if |st.order| > cap then Minus(st, Ids(st.order[..|st.order| - cap])) else st
  }

  function Sweep(l: Limits, st: Store, now: real): Store {
    Evict(Minus(st, ExpiredIds(st, now, l.ttl)), l.maxSessions)
  }

  // Store a session at the most recently used end.
  function Touch(st: Store, id: SessionId, s: Session): Store {
    Store(Without(st.order, {id}) + [id], st.table[id := s])
  }

  // The session a sync writes: a new one unless the id is already stored.
  function SyncedSession(l: Limits, st: Store, id: SessionId, transcript: seq<Message>, now: real): Session {
    var (created, turns) := if id in st.table then (st.table[id].created, st.table[id].turns) else (now, 0);
    Session(Window(Cleaned(transcript), l.maxMessages), now, created, turns + 1)
  }

  function SyncStep(l: Limits, st: Store, id: SessionId, transcript: seq<Message>, now: real): Store {
    var swept := Sweep(l, st, now);
    Sweep(l, Touch(swept, id, SyncedSession(l, swept, id, transcript, now)), now)
  }

  function AppendStep(l: Limits, st: Store, id: SessionId, content: PyString, now: real): Store {
    if content == [] || id !in st.table then st
    else
      var s := st.table[id];
      var messages := Window(s.messages + [Message(Assistant, content)], l.maxMessages);
      Touch(st, id, s.(messages := messages, lastSeen := now))
  }

  function ContextOf(l: Limits, st: Store, id: SessionId, now: real): seq<Message> {
    if id !in st.table || Expired(st.table[id], now, l.ttl) then [] else st.table[id].messages
  }

  // ----- What a store keeps -----

  predicate Distinct(order: seq<SessionId>) {
    forall i, j :: 0 <= i < j < |order| ==> order[i] != order[j]
  }

  // The order lists exactly the stored ids, once each.
  ghost predicate Rep(st: Store) {
    Distinct(st.order) && forall id :: id in st.order <==> id in st.table
  }

  ghost predicate Ordered(st: Store)
    requires Rep(st)
  {
    forall i, j :: 0 <= i < j < |st.order| ==> st.table[st.order[i]].lastSeen <= st.table[st.order[j]].lastSeen
  }

  ghost predicate Sound(l: Limits, st: Store, now: real) {
    && Rep(st) && Ordered(st)
    && forall id :: id in st.table ==> st.table[id].lastSeen <= now && |st.table[id].messages| <= l.maxMessages
  }

  // The invariant of every reachable store, `now` being the latest time seen.
  ghost predicate Inv(l: Limits, st: Store, now: real) {
    Sound(l, st, now) && |st.order| <= l.maxSessions
  }

  // ----- Facts about orders -----

  lemma {:induction false} WithoutTwice(order: seq<SessionId>, a: set<SessionId>, b: set<SessionId>)
    ensures Without(Without(order, a), b) == Without(order, a + b)
  {
    if order != [] {
      WithoutTwice(order[1..], a, b);
      if order[0] !in a {
        var w := Without(order[1..], a);
        assert ([order[0]] + w)[1..] == w;
      }
    }
  }

  lemma MinusTwice(st: Store, a: set<SessionId>, b: set<SessionId>)
    ensures Minus(Minus(st, a), b) == Minus(st, a + b)
  {
    WithoutTwice(st.order, a, b);
  }

  lemma {:induction false} WithoutNone(order: seq<SessionId>, gone: set<SessionId>)
    requires forall x :: x in order ==> x !in gone
    ensures Without(order, gone) == order
  {
    if order != [] {
      WithoutNone(order[1..], gone);
    }
  }

  lemma {:induction false} WithoutAppend(a: seq<SessionId>, b: seq<SessionId>, gone: set<SessionId>)
    ensures Without(a + b, gone) == Without(a, gone) + Without(b, gone)
  {
    if a == [] {
      assert a + b == b;
    } else {
      assert (a + b)[1..] == a[1..] + b;
      WithoutAppend(a[1..], b, gone);
    }
  }

  lemma {:induction false} WithoutAll(order: seq<SessionId>, gone: set<SessionId>)
    requires forall x :: x in order ==> x in gone
    ensures Without(order, gone) == []
  {
    if order != [] {
      WithoutAll(order[1..], gone);
    }
  }

  lemma {:induction false} WithoutDistinct(order: seq<SessionId>, gone: set<SessionId>)
    requires Distinct(order)
    ensures Distinct(Without(order, gone))
  {
    if order != [] {
      WithoutDistinct(order[1..], gone);
    }
  }

  lemma MinusDistinct(st: Store, gone: set<SessionId>)
    requires Distinct(st.order)
    ensures Distinct(Minus(st, gone).order)
  {
    WithoutDistinct(st.order, gone);
  }

  lemma TailIsNew(order: seq<SessionId>, k: nat, x: SessionId)
    requires Distinct(order) && k <= |order| && x in order[k..]
    ensures x !in order[..k]
  {
    var j :| 0 <= j < |order[k..]| && order[k..][j] == x;
    assert order[k + j] == x;
  }

  // Removing the first k ids leaves the rest.
  lemma DropFront(order: seq<SessionId>, k: nat)
    requires Distinct(order) && k <= |order|
    ensures Without(order, Ids(order[..k])) == order[k..]
  {
    hide Distinct;
    var (a, b) := (order[..k], order[k..]);
    forall x | x in b
      ensures x !in a
    {
      TailIsNew(order, k, x);
    }
    assert order == a + b;
    WithoutAppend(a, b, Ids(a));
    WithoutAll(a, Ids(a));
    WithoutNone(b, Ids(a));
  }

  // Removing nothing changes nothing.
  lemma MinusNothing(st: Store)
    ensures Minus(st, {}) == st
  {
    WithoutNone(st.order, {});
    assert st.table - {} == st.table;
  }

  // Deleting ids one by one.
  lemma DeleteNext(st: Store, ids: seq<SessionId>, k: nat)
    requires k < |ids|
    ensures Minus(Minus(st, Ids(ids[..k])), {ids[k]}) == Minus(st, Ids(ids[..k + 1]))
  {
    MinusTwice(st, Ids(ids[..k]), {ids[k]});
    assert Ids(ids[..k + 1]) == Ids(ids[..k]) + {ids[k]};
  }

  // The store without its k least recently used sessions.
  lemma Popped(st: Store, k: nat)
    requires Distinct(st.order) && k <= |st.order|
    ensures Minus(st, Ids(st.order[..k])).order == st.order[k..]
    ensures k == 0 ==> Minus(st, Ids(st.order[..k])) == st
  {
    DropFront(st.order, k);
    if k == 0 {
      assert Ids(st.order[..0]) == {};
      MinusNothing(st);
    }
  }

  lemma MinusRep(st: Store, gone: set<SessionId>)
    requires Rep(st)
    ensures Rep(Minus(st, gone))
  {
    WithoutDistinct(st.order, gone);
  }

  lemma SweepRep(l: Limits, st: Store, now: real)
    requires Rep(st)
    ensures Rep(Sweep(l, st, now))
  {
    hide Rep, ExpiredIds;
    var kept := Minus(st, ExpiredIds(st, now, l.ttl));
    MinusRep(st, ExpiredIds(st, now, l.ttl));
    if |kept.order| > l.maxSessions {
      MinusRep(kept, Ids(kept.order[..|kept.order| - l.maxSessions]));
    }
  }

  lemma TouchOrder(order: seq<SessionId>, id: SessionId)
    ensures Without(order + [id], {id}) == Without(order, {id})
  {
    WithoutAppend(order, [id], {id});
    WithoutAll([id], {id});
  }

  lemma TouchRep(st: Store, id: SessionId, s: Session)
    requires Rep(st)
    ensures Rep(Touch(st, id, s))
  {
    WithoutDistinct(st.order, {id});
  }

  lemma {:induction false} DistinctSize(order: seq<SessionId>)
    requires Distinct(order)
    ensures |Ids(order)| == |order|
  {
    if order != [] {
      DistinctSize(order[1..]);
      assert Ids(order) == Ids(order[1..]) + {order[0]};
    }
  }

  lemma OrderSize(st: Store)
    requires Rep(st)
    ensures |st.table| == |st.order|
  {
    DistinctSize(st.order);
    assert Ids(st.order) == st.table.Keys;
  }

  // ----- The class -----

  datatype StoreStats = StoreStats(sessions: nat, maxSessions: nat, windowMessages: nat, ttlSeconds: int)

  class ConversationStore {
    const limits: Limits
    var order: seq<SessionId>
    var table: map<SessionId, Session>

    ghost function View(): Store
      reads this
    {
      Store(order, table)
    }

    constructor (maxTurns: int, ttlSeconds: int, maxSessions: int)
      ensures limits == MakeLimits(maxTurns, ttlSeconds, maxSessions)
      ensures View() == EmptyStore && Rep(View())
    {
      limits := MakeLimits(maxTurns, ttlSeconds, maxSessions);
      order := [];
      table := map[];
    }

    method Delete(id: SessionId)
      modifies this
      ensures View() == Minus(old(View()), {id})
    {
      order := Without(order, {id});
      table := table - {id};
    }

    // One pass over all sessions, then eviction from the front.
    method DoSweep(now: real)
      requires Rep(View())
      modifies this
      ensures View() == Sweep(limits, old(View()), now)
    {
      var stale: seq<SessionId> := [];
      for i := 0 to |order|
        invariant forall x :: x in stale <==> x in order[..i] && Expired(table[x], now, limits.ttl)
      {
        if Expired(table[order[i]], now, limits.ttl) {
          stale := stale + [order[i]];
        }
      }
      assert Ids(stale) == ExpiredIds(View(), now, limits.ttl);
      hide Expired, ExpiredIds, Minus, Distinct;
      ghost var before := View();
      MinusNothing(before);
      assert Ids(stale[..0]) == {};
      for i := 0 to |stale|
        invariant View() == Minus(before, Ids(stale[..i]))
      {
        Delete(stale[i]);
        DeleteNext(before, stale, i);
      }
      assert stale[..|stale|] == stale;
      ghost var kept := View();
      assert Distinct(kept.order) by { MinusDistinct(before, Ids(stale)); }
      ghost var k := 0;
      Popped(kept, 0);
      while |order| > limits.maxSessions
        invariant 0 <= k <= |kept.order| && (k > 0 ==> k <= |kept.order| - limits.maxSessions)
        invariant View() == Minus(kept, Ids(kept.order[..k]))
        invariant order == kept.order[k..]
      {
        Delete(order[0]);
        DeleteNext(kept, kept.order, k);
        k := k + 1;
        Popped(kept, k);
      }
    }

    // Returns the windowed context; what it stores does not depend on what the
    // store held before.
    method Sync(id: SessionId, transcript: seq<Message>, now: real) returns (context: seq<Message>)
      requires Rep(View())
      modifies this
      ensures View() == SyncStep(limits, old(View()), id, transcript, now) && Rep(View())
      ensures context == Window(Cleaned(transcript), limits.maxMessages)
    {
      hide Sweep, Rep, Window, Cleaned;
      var windowed := Window(Cleaned(transcript), limits.maxMessages);
      DoSweep(now);
      SweepRep(limits, old(View()), now);
      ghost var swept := View();
      var session := if id in table then table[id] else Session([], 0.0, now, 0);
      session := session.(messages := windowed, lastSeen := now, turns := session.turns + 1);
      table := table[id := session];
      if id !in order {
        order := order + [id];
      }
      order := Without(order, {id}) + [id];
      TouchOrder(swept.order, id);
      TouchRep(swept, id, session);
      DoSweep(now);
      SweepRep(limits, Touch(swept, id, session), now);
      return windowed;
    }

    method AppendAssistant(id: SessionId, content: PyString, now: real)
      requires Rep(View())
      modifies this
      ensures View() == AppendStep(limits, old(View()), id, content, now) && Rep(View())
    {
      if content == [] || id !in table {
        return;
      }
      var session := table[id];
      session := session.(messages := session.messages + [Message(Assistant, content)]);
      session := session.(messages := Window(session.messages, limits.maxMessages), lastSeen := now);
      table := table[id := session];
      order := Without(order, {id}) + [id];
      TouchRep(old(View()), id, session);
    }

    method Context(id: SessionId, now: real) returns (messages: seq<Message>)
      ensures messages == ContextOf(limits, View(), id, now)
    {
      if id !in table || Expired(table[id], now, limits.ttl) {
        return [];
      }
      return table[id].messages;
    }

    method Forget(id: SessionId) returns (removed: bool)
      requires Rep(View())
      modifies this
      ensures removed <==> id in old(table)
      ensures View() == Minus(old(View()), {id}) && Rep(View())
    {
      removed := id in table;
      Delete(id);
      MinusRep(old(View()), {id});
    }

    // The number of messages and turns and the whole seconds idle, if the
    // session is known and not expired.
    method Info(id: SessionId, now: real) returns (info: Option<(nat, nat, int)>)
      ensures info.Some? <==> id in table && now - table[id].lastSeen <= limits.ttl as real
      ensures info.Some? ==> info.value.0 == |table[id].messages| && info.value.1 == table[id].turns
      ensures info.Some? && table[id].lastSeen <= now ==>
        info.value.2 as real <= now - table[id].lastSeen < info.value.2 as real + 1.0
    {
      if id !in table || Expired(table[id], now, limits.ttl) {
        return None;
      }
      return Some((|table[id].messages|, table[id].turns, (now - table[id].lastSeen).Floor));
    }

    method Stats(now: real) returns (stats: StoreStats)
      requires Rep(View())
      modifies this
      ensures View() == Sweep(limits, old(View()), now) && Rep(View())
      ensures stats == StoreStats(|table|, limits.maxSessions, limits.maxMessages, limits.ttl)
    {
      DoSweep(now);
      SweepRep(limits, old(View()), now);
      OrderSize(View());
      return StoreStats(|order|, limits.maxSessions, limits.maxMessages, limits.ttl);
    }
  }
}
