// Which sessions the store still holds after any run of operations, and what it
// holds of them, told without the store.
module Retention {
  import opened Text
  import opened Sessions

  // ----- Least recently used first -----

  // Which part of the order an id is in.
  lemma InTail(order: seq<SessionId>, k: nat, i: nat)
    requires Distinct(order) && k <= |order| && i < |order|
    ensures order[i] in order[k..] <==> i >= k
    ensures order[i] in order[..k] <==> i < k
  {
    if i < k {
      assert order[..k][i] == order[i];
    } else {
      assert order[k..][i - k] == order[i];
    }
    if order[i] in order[k..] {
      TailIsNew(order, k, order[i]);
    }
  }

  // Both ways of removing sessions remove a front of the order.
  function DropOldest(st: Store, k: nat): Store
    requires k <= |st.order|
  {
    Minus(st, Ids(st.order[..k]))
  }

  // How many sessions at the front of the order are expired.
  function ExpiredFront(st: Store, now: real, ttl: int, k: nat): (n: nat)
    requires k <= |st.order| && forall id :: id in st.order ==> id in st.table
    ensures k <= n <= |st.order|
    ensures forall i :: k <= i < n ==> Expired(st.table[st.order[i]], now, ttl)
    ensures n < |st.order| ==> !Expired(st.table[st.order[n]], now, ttl)
    decreases |st.order| - k
  {
    if k < |st.order| && Expired(st.table[st.order[k]], now, ttl) then ExpiredFront(st, now, ttl, k + 1) else k
  }

  lemma ExpiredAt(st: Store, now: real, ttl: int, i: nat)
    requires Rep(st) && Ordered(st) && i < |st.order|
    ensures Expired(st.table[st.order[i]], now, ttl) <==> i < ExpiredFront(st, now, ttl, 0)
  {
    var n := ExpiredFront(st, now, ttl, 0);
    if n <= i {
      assert st.table[st.order[n]].lastSeen <= st.table[st.order[i]].lastSeen;
    }
  }

  // In an ordered store the expired sessions are the front of the order.
  lemma ExpiredArePrefix(st: Store, now: real, ttl: int)
    requires Rep(st) && Ordered(st)
    ensures ExpiredIds(st, now, ttl) == Ids(st.order[..ExpiredFront(st, now, ttl, 0)])
  {
    hide Expired, Ordered, Distinct, ExpiredFront;
    var n := ExpiredFront(st, now, ttl, 0);
    forall id | id in st.table
      ensures Expired(st.table[id], now, ttl) <==> id in st.order[..n]
    {
      assert id in st.order;
      var i :| 0 <= i < |st.order| && st.order[i] == id;
      ExpiredAt(st, now, ttl, i);
      InTail(st.order, n, i);
    }
  }

  lemma DropTwice(st: Store, n: nat, m: nat)
    requires Distinct(st.order) && n + m <= |st.order|
    ensures DropOldest(st, n).order == st.order[n..]
    ensures DropOldest(DropOldest(st, n), m) == DropOldest(st, n + m)
  {
    DropFront(st.order, n);
    var kept := DropOldest(st, n);
    MinusTwice(st, Ids(st.order[..n]), Ids(kept.order[..m]));
    assert st.order[..n + m] == st.order[..n] + kept.order[..m];
    assert Ids(st.order[..n + m]) == Ids(st.order[..n]) + Ids(kept.order[..m]);
  }

  // The full-pass sweep pops expired sessions from the front and then pops down
  // to the cap.
  lemma SweepFromFront(l: Limits, st: Store, now: real) returns (k: nat)
    requires Rep(st) && Ordered(st)
    ensures k == Max(ExpiredFront(st, now, l.ttl, 0), |st.order| - l.maxSessions)
    ensures k <= |st.order| && Sweep(l, st, now) == DropOldest(st, k)
    ensures Sweep(l, st, now).order == st.order[k..]
  {
    hide ExpiredFront, ExpiredIds, Expired, Ordered, Distinct, DropOldest, Minus, Ids;
    var n := ExpiredFront(st, now, l.ttl, 0);
    k := Max(n, |st.order| - l.maxSessions);
    ExpiredArePrefix(st, now, l.ttl);
    DropTwice(st, n, k - n);
    DropTwice(st, k, 0);
    DropTwice(st, n, 0);
    assert DropOldest(st, n) == Minus(st, ExpiredIds(st, now, l.ttl)) by { DropIsMinus(st, n); }
    if k > n {
      DropIsMinus(DropOldest(st, n), k - n);
    }
  }

  lemma DropIsMinus(st: Store, k: nat)
    requires k <= |st.order|
    ensures DropOldest(st, k) == Minus(st, Ids(st.order[..k]))
  {
  }

  // ----- The sessions used more recently than one -----

  function After(order: seq<SessionId>, id: SessionId): set<SessionId> {
    if order == [] then {}
    else if order[0] == id then Ids(order[1..])
    else After(order[1..], id)
  }

  lemma {:induction false} AfterSuffix(order: seq<SessionId>, k: nat, id: SessionId)
    requires Distinct(order) && k <= |order| && id in order[k..]
    ensures After(order[k..], id) == After(order, id)
  {
    if k == 0 {
      assert order[0..] == order;
    } else {
      TailIsNew(order, k, id);
      assert order[..k][0] == order[0];
      assert order[k..] == order[1..][k - 1..];
      AfterSuffix(order[1..], k - 1, id);
    }
  }

  // Removing other sessions and adding one at the end.
  lemma {:induction false} AfterMove(order: seq<SessionId>, gone: set<SessionId>, last: seq<SessionId>, id: SessionId)
    requires id in order && id !in gone
    ensures After(Without(order, gone) + last, id) == After(order, id) - gone + Ids(last)
  {
    if order[0] == id {
      var w := Without(order[1..], gone);
      assert (Without(order, gone) + last)[1..] == w + last;
      assert Ids(w + last) == Ids(order[1..]) - gone + Ids(last);
    } else {
      AfterMove(order[1..], gone, last, id);
      if order[0] !in gone {
        assert (Without(order, gone) + last)[1..] == Without(order[1..], gone) + last;
      }
    }
  }

  lemma {:induction false} AfterLast(order: seq<SessionId>, id: SessionId)
    requires id !in order
    ensures After(order + [id], id) == {}
  {
    if order != [] {
      assert (order + [id])[1..] == order[1..] + [id];
      AfterLast(order[1..], id);
    } else {
      assert (order + [id])[1..] == [];
    }
  }

  // Only the front of the order has all the others after it.
  lemma {:induction false} AfterSize(order: seq<SessionId>, id: SessionId)
    requires Distinct(order) && id in order
    ensures |After(order, id)| < |order|
    ensures |After(order, id)| == |order| - 1 <==> id == order[0]
  {
    DistinctSize(order[1..]);
    if order[0] != id {
      AfterSize(order[1..], id);
    }
  }

  // ----- Runs -----

  // An operation and the time at which it happens.
  datatype Op =
    | Sync(id: SessionId, transcript: seq<Message>, now: real)
    | Append(id: SessionId, content: PyString, now: real)
    | Forget(id: SessionId, now: real)
    | Stats(now: real)

  function Step(l: Limits, st: Store, op: Op): Store {
    match op
    case Sync(id, transcript, now) => SyncStep(l, st, id, transcript, now)
    case Append(id, content, now) => AppendStep(l, st, id, content, now)
    case Forget(id, _) => Minus(st, {id})
    case Stats(now) => Sweep(l, st, now)
  }

  function Replay(l: Limits, ops: seq<Op>): Store {
    if ops == [] then EmptyStore else Step(l, Replay(l, ops[..|ops| - 1]), ops[|ops| - 1])
  }

  // The clock never runs backwards.
  predicate Monotone(ops: seq<Op>) {
    forall i, j :: 0 <= i < j < |ops| ==> ops[i].now <= ops[j].now
  }

  // What is remembered of a session, the whole history included: when it was
  // last touched and created, how often it was synced since, and which other
  // sessions have been touched since and not forgotten.
  datatype Memory = Memory(
    history: seq<Message>, lastTouch: real, created: real, turns: nat, since: set<SessionId>)

  predicate Idle(m: Memory, now: real, ttl: int) { now - m.lastTouch > ttl as real }

  // The retention rule, session by session and without any bounded store.
  function Recall(l: Limits, ops: seq<Op>, id: SessionId): Option<Memory>
    decreases |ops|
  {
    if ops == [] then None
    else
      var (past, op) := (ops[..|ops| - 1], ops[|ops| - 1]);
      Next(l, Recall(l, past, id), op, id, op.Append? && Recall(l, past, op.id).Some?)
  }

  // What one operation does to the memory of a session; `known` says whether
  // the session that a reply is for is itself recalled.
  function Next(l: Limits, before: Option<Memory>, op: Op, id: SessionId, known: bool): Option<Memory> {
    match op
    case Sync(x, transcript, now) =>
      var kept := Waking(l, before, now);
      if x == id then Some(Synced(kept, transcript, now)) else Pressed(l, kept, x)
    case Append(x, content, now) =>
      if content == [] || before.None? then before
      else if x == id then Some(Replied(before.value, content, now))
      else if known then Some(Passed(before.value, x))
      else before
    case Forget(x, _) =>
      if before.None? || x == id then None
      else Some(before.value.(since := before.value.since - {x}))
    case Stats(now) => Waking(l, before, now)
  }

  lemma RecallNext(l: Limits, past: seq<Op>, op: Op, id: SessionId)
    ensures Recall(l, past + [op], id) ==
      Next(l, Recall(l, past, id), op, id, op.Append? && Recall(l, past, op.id).Some?)
  {
    assert (past + [op])[..|past|] == past;
  }

  // A sweep forgets what has been idle for longer than the limit.
  function Waking(l: Limits, m: Option<Memory>, now: real): Option<Memory> {
    if m.Some? && !Idle(m.value, now, l.ttl) then m else None
  }

  function Synced(kept: Option<Memory>, transcript: seq<Message>, now: real): Memory {
    var (created, turns) := if kept.Some? then (kept.value.created, kept.value.turns) else (now, 0);
    Memory(Cleaned(transcript), now, created, turns + 1, {})
  }

  function Replied(m: Memory, content: PyString, now: real): Memory {
    m.(history := m.history + [Message(Assistant, content)], lastTouch := now, since := {})
  }

  function Passed(m: Memory, x: SessionId): Memory {
    m.(since := m.since + {x})
  }

  // Another session was synced: this one goes once as many others as the cap
  // have been touched since.
  function Pressed(l: Limits, kept: Option<Memory>, x: SessionId): Option<Memory> {
    if kept.None? || |kept.value.since + {x}| >= l.maxSessions then None
    else Some(Passed(kept.value, x))
  }

  // The store holds a session exactly as it is recalled, windowed.
  ghost predicate Holds(l: Limits, st: Store, id: SessionId, m: Option<Memory>) {
    if m.None? then id !in st.table
    else
      && id in st.table
      && st.table[id] == Session(Window(m.value.history, l.maxMessages), m.value.lastTouch, m.value.created, m.value.turns)
      && After(st.order, id) == m.value.since
  }

  // ----- Windowing -----

  lemma WindowAbsorbs(a: seq<Message>, b: seq<Message>, limit: nat)
    ensures Window(Window(a, limit) + b, limit) == Window(a + b, limit)
    ensures |Window(a, limit)| <= limit
  {
  }

  // ----- One operation -----

  lemma DropHolds(l: Limits, st: Store, k: nat, id: SessionId)
    requires Rep(st) && k <= |st.order|
    ensures Rep(DropOldest(st, k)) && DropOldest(st, k).order == st.order[k..]
    ensures id in DropOldest(st, k).table <==> id in st.order[k..]
    ensures id in st.order[k..] ==>
      DropOldest(st, k).table[id] == st.table[id] && After(st.order[k..], id) == After(st.order, id)
  {
    DropFront(st.order, k);
    WithoutDistinct(st.order, Ids(st.order[..k]));
    if id in st.order[k..] {
      AfterSuffix(st.order, k, id);
      TailIsNew(st.order, k, id);
    } else if id in st.order {
      assert st.order == st.order[..k] + st.order[k..];
    }
  }

  lemma SweepHolds(l: Limits, st: Store, now: real, id: SessionId, m: Option<Memory>)
    requires Rep(st) && Ordered(st) && |st.order| <= l.maxSessions && Holds(l, st, id, m)
    ensures Holds(l, Sweep(l, st, now), id, Waking(l, m, now))
  {
    hide Ordered, Distinct, Sweep, DropOldest, ExpiredFront, After, Window;
    var k := SweepFromFront(l, st, now);
    DropHolds(l, st, k, id);
    if m.Some? {
      assert id in st.order;
      var i :| 0 <= i < |st.order| && st.order[i] == id;
      ExpiredAt(st, now, l.ttl, i);
      InTail(st.order, k, i);
    }
  }

  // ----- What every operation keeps -----

  lemma SweepKeeps(l: Limits, st: Store, now: real, id: SessionId)
    requires Rep(st) && Ordered(st) && id in Sweep(l, st, now).table
    ensures id in st.table && Sweep(l, st, now).table[id] == st.table[id] && !Expired(st.table[id], now, l.ttl)
  {
    hide Sweep, ExpiredFront, Ordered, Distinct, Expired, DropOldest;
    var k := SweepFromFront(l, st, now);
    DropHolds(l, st, k, id);
    var j :| 0 <= j < |st.order[k..]| && st.order[k..][j] == id;
    ExpiredAt(st, now, l.ttl, k + j);
  }

  lemma SweepSound(l: Limits, st: Store, now: real)
    requires Sound(l, st, now)
    ensures Inv(l, Sweep(l, st, now), now)
    ensures forall id :: id in Sweep(l, st, now).table ==>
      id in st.table && Sweep(l, st, now).table[id] == st.table[id] && !Expired(st.table[id], now, l.ttl)
  {
    hide Sweep, ExpiredFront, Expired, DropOldest, Distinct;
    var k := SweepFromFront(l, st, now);
    var swept := Sweep(l, st, now);
    forall id | id in swept.table
      ensures id in st.table && swept.table[id] == st.table[id] && !Expired(st.table[id], now, l.ttl)
    {
      SweepKeeps(l, st, now, id);
    }
    SweepRep(l, st, now);
    OrderedTail(st, swept, k);
    hide Rep, Ordered;
  }

  lemma OrderedTail(st: Store, tail: Store, k: nat)
    requires Rep(st) && Ordered(st) && Rep(tail)
    requires k <= |st.order| && tail.order == st.order[k..]
    requires forall id :: id in tail.table ==> id in st.table && tail.table[id] == st.table[id]
    ensures Ordered(tail)
  {
    hide Distinct;
    forall i, j | 0 <= i < j < |tail.order|
      ensures tail.table[tail.order[i]].lastSeen <= tail.table[tail.order[j]].lastSeen
    {
      assert tail.order[i] == st.order[k + i] && tail.order[j] == st.order[k + j];
    }
  }

  lemma TouchSound(l: Limits, st: Store, id: SessionId, s: Session)
    requires Sound(l, st, s.lastSeen) && |s.messages| <= l.maxMessages
    ensures Sound(l, Touch(st, id, s), s.lastSeen)
    ensures |Touch(st, id, s).order| <= |st.order| + 1
  {
    TouchRep(st, id, s);
    WithoutOrdered(st, {id});
    var (w, t) := (Without(st.order, {id}), Touch(st, id, s));
    forall i, j | 0 <= i < j < |t.order|
      ensures t.table[t.order[i]].lastSeen <= t.table[t.order[j]].lastSeen
    {
      assert t.order[i] == w[i] && w[i] in st.table;
      if j < |w| {
        assert t.order[j] == w[j];
      }
    }
  }

  lemma WithoutOrdered(st: Store, gone: set<SessionId>)
    requires Rep(st) && Ordered(st)
    ensures |Without(st.order, gone)| <= |st.order|
    ensures forall i :: 0 <= i < |Without(st.order, gone)| ==> Without(st.order, gone)[i] in st.table
    ensures forall i, j :: 0 <= i < j < |Without(st.order, gone)| ==>
      st.table[Without(st.order, gone)[i]].lastSeen <= st.table[Without(st.order, gone)[j]].lastSeen
  {
    Subsequence(st.order, gone, st.table);
  }

  lemma {:induction false} Subsequence(order: seq<SessionId>, gone: set<SessionId>, table: map<SessionId, Session>)
    requires forall x :: x in order ==> x in table
    requires forall i, j :: 0 <= i < j < |order| ==> table[order[i]].lastSeen <= table[order[j]].lastSeen
    ensures |Without(order, gone)| <= |order|
    ensures forall i, j :: 0 <= i < j < |Without(order, gone)| ==>
      table[Without(order, gone)[i]].lastSeen <= table[Without(order, gone)[j]].lastSeen
  {
    if order != [] {
      Subsequence(order[1..], gone, table);
      var w := Without(order[1..], gone);
      forall j | 0 <= j < |w|
        ensures table[order[0]].lastSeen <= table[w[j]].lastSeen
      {
        assert w[j] in order[1..];
        var k :| 0 <= k < |order[1..]| && order[1..][k] == w[j];
        assert order[k + 1] == w[j];
      }
    }
  }

  lemma MinusSound(l: Limits, st: Store, gone: set<SessionId>, now: real)
    requires Inv(l, st, now)
    ensures Inv(l, Minus(st, gone), now)
  {
    MinusRep(st, gone);
    WithoutOrdered(st, gone);
  }

  // Every operation at a time not before the last one keeps the invariant.
  lemma StepInv(l: Limits, st: Store, t: real, op: Op)
    requires l.Valid() && Inv(l, st, t) && t <= op.now
    ensures Inv(l, Step(l, st, op), op.now)
  {
    assert Sound(l, st, op.now);
    hide Sound, Touch, Sweep, Minus, Window;
    match op
    case Sync(id, transcript, now) => SyncInv(l, st, id, transcript, now);
    case Append(id, content, now) => AppendInv(l, st, id, content, now);
    case Forget(id, now) => MinusSound(l, st, {id}, now);
    case Stats(now) => SweepSound(l, st, now);
  }

  lemma SyncInv(l: Limits, st: Store, id: SessionId, transcript: seq<Message>, now: real)
    requires l.Valid() && Inv(l, st, now)
    ensures Inv(l, SyncStep(l, st, id, transcript, now), now)
  {
    hide Sweep, Touch, Sound, Window, Cleaned;
    SweepSound(l, st, now);
    var swept := Sweep(l, st, now);
    var s := SyncedSession(l, swept, id, transcript, now);
    WindowAbsorbs(Cleaned(transcript), [], l.maxMessages);
    TouchSound(l, swept, id, s);
    SweepSound(l, Touch(swept, id, s), now);
  }

  lemma AppendInv(l: Limits, st: Store, id: SessionId, content: PyString, now: real)
    requires l.Valid() && Inv(l, st, now)
    ensures Inv(l, AppendStep(l, st, id, content, now), now)
  {
    if content != [] && id in st.table {
      var s := st.table[id];
      var messages := Window(s.messages + [Message(Assistant, content)], l.maxMessages);
      WindowAbsorbs(s.messages + [Message(Assistant, content)], [], l.maxMessages);
      TouchSound(l, st, id, s.(messages := messages, lastSeen := now));
      TouchSize(st, id, s);
    }
  }

  // Touching a stored session adds none.
  lemma TouchSize(st: Store, id: SessionId, s: Session)
    requires Rep(st) && id in st.table
    ensures |Touch(st, id, s).order| == |st.order|
  {
    TouchRep(st, id, s);
    OrderSize(st);
    OrderSize(Touch(st, id, s));
    assert st.table[id := s].Keys == st.table.Keys;
  }

  // ----- Every operation does to the store what the rule says -----

  // After a sync the only thing left to sweep is one session over the cap.
  lemma ClosingSweep(l: Limits, st: Store, now: real)
    requires l.Valid() && Rep(st) && Ordered(st) && |st.order| <= l.maxSessions + 1
    requires forall id :: id in st.table ==> !Expired(st.table[id], now, l.ttl)
    ensures
      var k := if |st.order| > l.maxSessions then 1 else 0;
      Sweep(l, st, now) == DropOldest(st, k) && Sweep(l, st, now).order == st.order[k..]
  {
    hide Sweep, DropOldest, Expired, Ordered, Distinct;
    var k := SweepFromFront(l, st, now);
    if st.order != [] {
      assert st.order[0] in st.table;
    }
  }

  // Touching another session puts it after this one.
  lemma TouchHolds(st: Store, x: SessionId, s: Session, id: SessionId)
    requires Rep(st) && id in st.table && id != x
    ensures id in Touch(st, x, s).table && Touch(st, x, s).table[id] == st.table[id]
    ensures After(Touch(st, x, s).order, id) == After(st.order, id) + {x}
  {
    AfterMove(st.order, {x}, [x], id);
    assert After(st.order, id) - {x} + Ids([x]) == After(st.order, id) + {x};
  }

  // The touched session itself is the most recent one.
  lemma TouchedHolds(st: Store, id: SessionId, s: Session)
    ensures id in Touch(st, id, s).table && Touch(st, id, s).table[id] == s
    ensures After(Touch(st, id, s).order, id) == {}
    ensures Touch(st, id, s).order[|Touch(st, id, s).order| - 1] == id
  {
    AfterLast(Without(st.order, {id}), id);
  }

  // Which session a closing sweep evicts: the one with as many others after it
  // as the cap.
  lemma ClosingHolds(l: Limits, st: Store, now: real, id: SessionId)
    requires l.Valid() && Rep(st) && Ordered(st) && |st.order| <= l.maxSessions + 1
    requires forall x :: x in st.table ==> !Expired(st.table[x], now, l.ttl)
    requires id in st.table
    ensures id in Sweep(l, st, now).table <==> |After(st.order, id)| < l.maxSessions
    ensures id in Sweep(l, st, now).table ==>
      && Sweep(l, st, now).table[id] == st.table[id]
      && After(Sweep(l, st, now).order, id) == After(st.order, id)
  {
    hide Sweep, DropOldest, Expired, Ordered, Distinct, After;
    var k := if |st.order| > l.maxSessions then 1 else 0;
    ClosingSweep(l, st, now);
    DropHolds(l, st, k, id);
    AfterSize(st.order, id);
    var i :| 0 <= i < |st.order| && st.order[i] == id;
    InTail(st.order, k, i);
    assert id == st.order[0] <==> i == 0 by { InTail(st.order, 1, i); InTail(st.order, 1, 0); }
  }

  lemma SyncOtherHolds(l: Limits, st: Store, x: SessionId, transcript: seq<Message>, now: real, id: SessionId, m: Option<Memory>)
    requires l.Valid() && Inv(l, st, now) && Holds(l, st, id, m) && id != x
    ensures Holds(l, SyncStep(l, st, x, transcript, now), id, Pressed(l, Waking(l, m, now), x))
  {
    hide Sweep, Touch, Expired, Window, Cleaned, After, Ordered, Distinct;
    SweepHolds(l, st, now, id, m);
    SweepSound(l, st, now);
    var swept := Sweep(l, st, now);
    var s := SyncedSession(l, swept, x, transcript, now);
    WindowAbsorbs(Cleaned(transcript), [], l.maxMessages);
    TouchSound(l, swept, x, s);
    var touched := Touch(swept, x, s);
    TouchedFresh(l, swept, x, s);
    if id in swept.table {
      TouchHolds(swept, x, s, id);
      ClosingHolds(l, touched, now, id);
    } else {
      TouchAbsent(swept, x, s, id);
      if id in Sweep(l, touched, now).table {
        SweepKeeps(l, touched, now, id);
      }
    }
  }

  lemma TouchAbsent(st: Store, x: SessionId, s: Session, id: SessionId)
    requires id !in st.table && id != x
    ensures id !in Touch(st, x, s).table
  {
  }

  lemma TouchedFresh(l: Limits, st: Store, id: SessionId, s: Session)
    requires l.Valid() && forall x :: x in st.table ==> !Expired(st.table[x], s.lastSeen, l.ttl)
    ensures forall x :: x in Touch(st, id, s).table ==> !Expired(Touch(st, id, s).table[x], s.lastSeen, l.ttl)
  {
  }

  lemma SyncSameHolds(l: Limits, st: Store, id: SessionId, transcript: seq<Message>, now: real, m: Option<Memory>)
    requires l.Valid() && Inv(l, st, now) && Holds(l, st, id, m)
    ensures Holds(l, SyncStep(l, st, id, transcript, now), id, Some(Synced(Waking(l, m, now), transcript, now)))
  {
    hide Sweep, Touch, Expired, Window, Cleaned, After, Ordered, Distinct;
    SweepHolds(l, st, now, id, m);
    SweepSound(l, st, now);
    var swept := Sweep(l, st, now);
    var s := SyncedSession(l, swept, id, transcript, now);
    WindowAbsorbs(Cleaned(transcript), [], l.maxMessages);
    TouchSound(l, swept, id, s);
    TouchedFresh(l, swept, id, s);
    TouchedHolds(swept, id, s);
    ClosingHolds(l, Touch(swept, id, s), now, id);
  }

  // The synced session ends up most recently used.
  lemma SyncIsLast(l: Limits, st: Store, id: SessionId, transcript: seq<Message>, now: real)
    requires l.Valid() && Inv(l, st, now)
    ensures
      var order := SyncStep(l, st, id, transcript, now).order;
      order != [] && order[|order| - 1] == id
  {
    hide Sweep, Touch, Expired, Window, Cleaned, Ordered, Distinct;
    SweepSound(l, st, now);
    var swept := Sweep(l, st, now);
    var s := SyncedSession(l, swept, id, transcript, now);
    WindowAbsorbs(Cleaned(transcript), [], l.maxMessages);
    TouchSound(l, swept, id, s);
    TouchedFresh(l, swept, id, s);
    TouchedHolds(swept, id, s);
    ClosingSweep(l, Touch(swept, id, s), now);
  }

  lemma AppendHolds(l: Limits, st: Store, x: SessionId, content: PyString, now: real, id: SessionId, m: Option<Memory>)
    requires l.Valid() && Inv(l, st, now) && Holds(l, st, id, m)
    ensures Holds(l, AppendStep(l, st, x, content, now), id,
      if content == [] || m.None? then m
      else if x == id then Some(Replied(m.value, content, now))
      else if x in st.table then Some(Passed(m.value, x)) else m)
  {
    hide Touch, Expired, Window, After, Ordered, Distinct;
    if content != [] && x in st.table {
      var s := st.table[x];
      var reply := [Message(Assistant, content)];
      var s' := s.(messages := Window(s.messages + reply, l.maxMessages), lastSeen := now);
      if m.None? {
        TouchAbsent(st, x, s', id);
      } else if x == id {
        TouchedHolds(st, x, s');
        WindowAbsorbs(m.value.history, reply, l.maxMessages);
      } else {
        TouchHolds(st, x, s', id);
      }
    }
  }

  lemma ForgetHolds(l: Limits, st: Store, x: SessionId, id: SessionId, m: Option<Memory>)
    requires Rep(st) && Holds(l, st, id, m)
    ensures Holds(l, Minus(st, {x}), id,
      if m.None? || x == id then None else Some(m.value.(since := m.value.since - {x})))
  {
    hide Window;
    if m.Some? && x != id {
      AfterMove(st.order, {x}, [], id);
      assert Without(st.order, {x}) + [] == Without(st.order, {x});
    }
  }

  // In every reachable state the store is within its cap, in the order of last
  // use, and no session exceeds its window.
  lemma {:induction false} ReachableInv(l: Limits, ops: seq<Op>, now: real)
    requires l.Valid() && Monotone(ops) && forall i :: 0 <= i < |ops| ==> ops[i].now <= now
    ensures Inv(l, Replay(l, ops), now)
    decreases |ops|
  {
    if ops == [] {
      EmptyInv(l, now);
    } else {
      hide Step, Inv;
      var (past, op) := (ops[..|ops| - 1], ops[|ops| - 1]);
      ReachableInv(l, past, op.now);
      StepInv(l, Replay(l, past), op.now, op);
      InvLater(l, Replay(l, ops), op.now, now);
    }
  }

  // In every reachable state, every session is present exactly when the rule
  // recalls it, and holds the last messages of its recalled history, its times,
  // its turns and its place in the order.
  lemma {:induction false} StoreFollowsRule(l: Limits, ops: seq<Op>)
    requires l.Valid() && Monotone(ops)
    ensures forall id :: Holds(l, Replay(l, ops), id, Recall(l, ops, id))
    decreases |ops|
  {
    if ops != [] {
      hide Step, Inv, Holds, Recall;
      var (past, op) := (ops[..|ops| - 1], ops[|ops| - 1]);
      assert past + [op] == ops;
      BoundedByLast(ops);
      StoreFollowsRule(l, past);
      ReachableInv(l, past, op.now);
      forall id
        ensures Holds(l, Replay(l, ops), id, Recall(l, ops, id))
      {
        StepHolds(l, past, op, id);
      }
    }
  }

  lemma EmptyInv(l: Limits, t: real)
    ensures Inv(l, EmptyStore, t)
  {
  }

  lemma InvLater(l: Limits, st: Store, t: real, now: real)
    requires Inv(l, st, t) && t <= now
    ensures Inv(l, st, now)
  {
  }

  lemma StepHolds(l: Limits, past: seq<Op>, op: Op, id: SessionId)
    requires l.Valid() && Inv(l, Replay(l, past), op.now)
    requires forall x :: Holds(l, Replay(l, past), x, Recall(l, past, x))
    ensures Holds(l, Step(l, Replay(l, past), op), id, Recall(l, past + [op], id))
  {
    var st := Replay(l, past);
    var m := Recall(l, past, id);
    RecallNext(l, past, op, id);
    hide Recall, SyncStep, AppendStep, Minus, Sweep, Distinct, Ordered, Synced, Pressed, Waking, Window;
    match op
    case Sync(x, transcript, now) =>
      if x == id {
        SyncSameHolds(l, st, id, transcript, now, m);
      } else {
        SyncOtherHolds(l, st, x, transcript, now, id, m);
      }
    case Append(x, content, now) =>
      assert Holds(l, st, x, Recall(l, past, x));
      AppendHolds(l, st, x, content, now, id, m);
    case Forget(x, _) => ForgetHolds(l, st, x, id, m);
    case Stats(now) => SweepHolds(l, st, now, id, m);
  }

  // ----- Retention, from the outside -----

  // The last operation touched the session: a sync, or a reply while stored.
  predicate TouchedLast(l: Limits, ops: seq<Op>, id: SessionId) {
    ops != [] &&
    match ops[|ops| - 1]
    case Sync(x, _, _) => x == id
    case Append(x, content, _) => x == id && content != [] && Recall(l, ops[..|ops| - 1], id).Some?
    case _ => false
  }

  lemma TouchedIsFresh(l: Limits, ops: seq<Op>, id: SessionId)
    requires TouchedLast(l, ops, id)
    ensures Recall(l, ops, id).Some? && Recall(l, ops, id).value.since == {}
    ensures Recall(l, ops, id).value.lastTouch == ops[|ops| - 1].now
  {
  }

  predicate Leaves(op: Op, id: SessionId) { op.Stats? || op.id != id }

  lemma SubsetSize(a: set<SessionId>, b: set<SessionId>)
    requires a <= b
    ensures |a| <= |b|
  {
    if a != {} {
      var x :| x in a;
      SubsetSize(a - {x}, b - {x});
    }
  }

  // The other sessions that a run really touches: synced, or replied to while
  // recalled.
  function Rivals(l: Limits, pre: seq<Op>, post: seq<Op>): set<SessionId>
    decreases |post|
  {
    if post == [] then {}
    else
      var before := post[..|post| - 1];
      Rivals(l, pre, before) + Rival(l, pre + before, post[|post| - 1])
  }

  function Rival(l: Limits, past: seq<Op>, op: Op): set<SessionId> {
    match op
    case Sync(x, _, _) => {x}
    case Append(x, content, _) => if content != [] && Recall(l, past, x).Some? then {x} else {}
    case _ => {}
  }

  // Those of them that stand between a session and the recent end: touched since
  // and not forgotten since.
  function Standing(l: Limits, pre: seq<Op>, post: seq<Op>): set<SessionId>
    decreases |post|
  {
    if post == [] then {}
    else
      var (before, op) := (post[..|post| - 1], post[|post| - 1]);
      Standing(l, pre, before) + Rival(l, pre + before, op) - if op.Forget? then {op.id} else {}
  }

  predicate Sweeps(op: Op) { op.Sync? || op.Stats? }

  // At no point do as many sessions as the cap stand there, and no sweep finds the
  // session idle for too long.
  predicate Kept(l: Limits, pre: seq<Op>, post: seq<Op>)
    requires pre != []
    decreases |post|
  {
    && |Standing(l, pre, post)| < l.maxSessions
    && (post == [] ||
        var (before, op) := (post[..|post| - 1], post[|post| - 1]);
        Kept(l, pre, before) && InTime(l, pre, op))
  }

  predicate InTime(l: Limits, pre: seq<Op>, op: Op)
    requires pre != []
  {
    Sweeps(op) ==> op.now - pre[|pre| - 1].now <= l.ttl as real
  }

  lemma KeptNext(l: Limits, pre: seq<Op>, before: seq<Op>, op: Op)
    requires pre != []
    ensures Kept(l, pre, before + [op]) <==>
      Kept(l, pre, before) && |Standing(l, pre, before + [op])| < l.maxSessions && InTime(l, pre, op)
  {
    hide Standing, InTime;
    assert (before + [op])[..|before|] == before;
  }

  lemma {:induction false} KeptAt(l: Limits, pre: seq<Op>, post: seq<Op>, k: nat)
    requires pre != [] && Kept(l, pre, post) && k <= |post|
    ensures |Standing(l, pre, post[..k])| < l.maxSessions
    ensures k < |post| ==> InTime(l, pre, post[k])
    decreases |post|
  {
    hide Standing, InTime;
    if k == |post| {
      assert post[..k] == post;
    } else {
      var before := post[..|post| - 1];
      assert before[..k] == post[..k];
      KeptAt(l, pre, before, k);
    }
  }

  lemma {:induction false} KeptIf(l: Limits, pre: seq<Op>, post: seq<Op>)
    requires pre != []
    requires forall k :: 0 <= k <= |post| ==> |Standing(l, pre, post[..k])| < l.maxSessions
    requires forall i :: 0 <= i < |post| ==> InTime(l, pre, post[i])
    ensures Kept(l, pre, post)
    decreases |post|
  {
    hide Standing, InTime;
    assert post[..|post|] == post;
    if post != [] {
      var before := post[..|post| - 1];
      forall k | 0 <= k <= |before|
        ensures |Standing(l, pre, before[..k])| < l.maxSessions
      {
        assert before[..k] == post[..k];
      }
      KeptIf(l, pre, before);
    }
  }

  lemma StandingNext(l: Limits, pre: seq<Op>, before: seq<Op>, op: Op)
    ensures
      var known := op.Append? && Recall(l, pre + before, op.id).Some?;
      Standing(l, pre, before + [op]) == Stood(Standing(l, pre, before), op, known)
  {
    hide Recall;
    assert (before + [op])[..|before|] == before;
  }

  function Stood(standing: set<SessionId>, op: Op, known: bool): set<SessionId> {
    if op.Sync? || (op.Append? && op.content != [] && known) then standing + {op.id}
    else if op.Forget? then standing - {op.id}
    else standing
  }

  lemma {:induction false} RecalledWhileKept(l: Limits, pre: seq<Op>, post: seq<Op>, id: SessionId)
    requires l.Valid() && Monotone(pre + post) && TouchedLast(l, pre, id)
    requires LeftAlone(post, id)
    ensures StandsFor(l, pre, post, id)
    decreases |post|
  {
    TouchedIsFresh(l, pre, id);
    if post == [] {
      hide Recall;
      assert pre + post == pre;
      assert Standing(l, pre, post) == {};
    } else {
      var (before, op) := (post[..|post| - 1], post[|post| - 1]);
      assert LeftAlone(before, id) && Leaves(op, id);
      hide Recall, TouchedLast, Monotone, LeftAlone, Leaves, StandsFor;
      assert post == before + [op] && pre + post == (pre + before) + [op];
      assert (pre + post)[..|pre + before|] == pre + before;
      MonotonePrefix(pre + post, |pre + before|);
      RecalledWhileKept(l, pre, before, id);
      StandsForNext(l, pre, before, op, id);
    }
  }

  // The rule recalls the session exactly while it is kept, with nothing changed
  // but the sessions standing behind it.
  ghost predicate StandsFor(l: Limits, pre: seq<Op>, post: seq<Op>, id: SessionId) {
    && pre != [] && Recall(l, pre, id).Some?
    && Recall(l, pre, id).value.lastTouch == pre[|pre| - 1].now
    && (Recall(l, pre + post, id).Some? <==> Kept(l, pre, post))
    && (Recall(l, pre + post, id).Some? ==>
          Recall(l, pre + post, id).value == Recall(l, pre, id).value.(since := Standing(l, pre, post)))
  }

  lemma StandsForNext(l: Limits, pre: seq<Op>, before: seq<Op>, op: Op, id: SessionId)
    requires l.Valid() && Monotone((pre + before) + [op]) && Monotone(pre + before) && Leaves(op, id)
    requires StandsFor(l, pre, before, id)
    ensures StandsFor(l, pre, before + [op], id)
  {
    hide Recall, Monotone, Next, Standing, Kept, Leaves, Stood, Sweeps;
    var past := pre + before;
    assert pre + (before + [op]) == past + [op];
    StandingNext(l, pre, before, op);
    KeptNext(l, pre, before, op);
    RecallNext(l, past, op, id);
    RivalsFit(l, past + [op], id);
    RivalsFit(l, past, id);
    NextWhileKept(l, Recall(l, past, id), op, id, op.Append? && Recall(l, past, op.id).Some?);
  }

  predicate LeftAlone(post: seq<Op>, id: SessionId) {
    forall i :: 0 <= i < |post| ==> Leaves(post[i], id)
  }

  lemma NextWhileKept(l: Limits, m: Option<Memory>, op: Op, id: SessionId, known: bool)
    requires l.Valid() && Leaves(op, id)
    requires m.Some? ==> |m.value.since| < l.maxSessions
    requires Next(l, m, op, id, known).Some? ==> |Next(l, m, op, id, known).value.since| < l.maxSessions
    ensures
      var m' := Next(l, m, op, id, known);
      && (m.None? ==> m'.None?)
      && (m.Some? ==>
            var after := Stood(m.value.since, op, known);
            && (m'.Some? <==> |after| < l.maxSessions && (Sweeps(op) ==> op.now - m.value.lastTouch <= l.ttl as real))
            && (m'.Some? ==> m'.value == m.value.(since := after)))
  {
    hide Synced;
    if m.Some? && op.Forget? {
      SubsetSize(m.value.since - {op.id}, m.value.since);
    }
  }

  // Exactly how long a session left alone is stored, whatever happens to the
  // others: until as many others as the cap, touched and not forgotten since, stand
  // behind it, or a sweep finds it idle beyond the limit.
  lemma ExactRetention(l: Limits, pre: seq<Op>, post: seq<Op>, id: SessionId)
    requires l.Valid() && Monotone(pre + post) && TouchedLast(l, pre, id)
    requires forall i :: 0 <= i < |post| ==> Leaves(post[i], id)
    ensures id in Replay(l, pre + post).table <==>
      && (forall k :: 0 <= k <= |post| ==> |Standing(l, pre, post[..k])| < l.maxSessions)
      && (forall i :: 0 <= i < |post| && Sweeps(post[i]) ==> post[i].now - pre[|pre| - 1].now <= l.ttl as real)
    ensures id in Replay(l, pre + post).table ==>
      && Replay(l, pre + post).table[id].messages == Window(Recall(l, pre, id).value.history, l.maxMessages)
      && Replay(l, pre + post).table[id].lastSeen == pre[|pre| - 1].now
  {
    hide Recall, Replay, Window, Standing, Sweeps, TouchedLast, Monotone;
    hide Kept, Leaves;
    TouchedNotEmpty(l, pre, id);
    RecalledWhileKept(l, pre, post, id);
    StoreFollowsRule(l, pre + post);
    assert Holds(l, Replay(l, pre + post), id, Recall(l, pre + post, id));
    if Kept(l, pre, post) {
      forall k | 0 <= k <= |post|
        ensures |Standing(l, pre, post[..k])| < l.maxSessions
      {
        KeptAt(l, pre, post, k);
      }
      forall i | 0 <= i < |post|
        ensures InTime(l, pre, post[i])
      {
        KeptAt(l, pre, post, i);
      }
    } else if (forall k :: 0 <= k <= |post| ==> |Standing(l, pre, post[..k])| < l.maxSessions)
      && (forall i :: 0 <= i < |post| ==> InTime(l, pre, post[i]))
    {
      KeptIf(l, pre, post);
    }
  }

  lemma TouchedNotEmpty(l: Limits, pre: seq<Op>, id: SessionId)
    requires TouchedLast(l, pre, id)
    ensures pre != []
  {
  }

  lemma {:induction false} StandingWithin(l: Limits, pre: seq<Op>, post: seq<Op>)
    ensures Standing(l, pre, post) <= Rivals(l, pre, post)
    ensures (forall i :: 0 <= i < |post| ==> !post[i].Forget?) ==> Standing(l, pre, post) == Rivals(l, pre, post)
    decreases |post|
  {
    hide Rival;
    if post != [] {
      StandingWithin(l, pre, post[..|post| - 1]);
    }
  }

  lemma {:induction false} RivalsGrow(l: Limits, pre: seq<Op>, post: seq<Op>, k: nat)
    requires k <= |post|
    ensures Rivals(l, pre, post[..k]) <= Rivals(l, pre, post)
    decreases |post|
  {
    hide Rival;
    if k == |post| {
      assert post[..k] == post;
    } else {
      var before := post[..|post| - 1];
      assert before[..k] == post[..k];
      RivalsGrow(l, pre, before, k);
    }
  }

  lemma FewStanding(l: Limits, pre: seq<Op>, post: seq<Op>)
    requires |Rivals(l, pre, post)| < l.maxSessions
    ensures forall k :: 0 <= k <= |post| ==> |Standing(l, pre, post[..k])| < l.maxSessions
  {
    hide Standing, Rivals;
    forall k | 0 <= k <= |post|
      ensures |Standing(l, pre, post[..k])| < l.maxSessions
    {
      StandingWithin(l, pre, post[..k]);
      RivalsGrow(l, pre, post, k);
      SubsetSize(Standing(l, pre, post[..k]), Rivals(l, pre, post));
    }
  }

  // A session left alone, idle within the limit and with fewer others touched since
  // than the cap, is still stored with its full window, whatever is forgotten.
  lemma StillStored(l: Limits, pre: seq<Op>, post: seq<Op>, id: SessionId)
    requires l.Valid() && Monotone(pre + post) && TouchedLast(l, pre, id)
    requires forall i :: 0 <= i < |post| ==> Leaves(post[i], id)
    requires forall i :: 0 <= i < |post| ==> post[i].now - pre[|pre| - 1].now <= l.ttl as real
    requires |Rivals(l, pre, post)| < l.maxSessions
    ensures id in Replay(l, pre + post).table
    ensures Replay(l, pre + post).table[id].messages == Window(Recall(l, pre, id).value.history, l.maxMessages)
  {
    hide Recall, Replay, Window, Standing, Rivals, TouchedLast, Monotone;
    FewStanding(l, pre, post);
    ExactRetention(l, pre, post, id);
  }

  // What context shows at any later time: the windowed history while the session is
  // stored and idle for no longer than the limit, and nothing otherwise.
  lemma ContextLater(l: Limits, pre: seq<Op>, post: seq<Op>, id: SessionId, now: real)
    requires l.Valid() && Monotone(pre + post) && TouchedLast(l, pre, id)
    requires forall i :: 0 <= i < |post| ==> Leaves(post[i], id)
    ensures
      var st := Replay(l, pre + post);
      ContextOf(l, st, id, now) ==
        if id in st.table && now - pre[|pre| - 1].now <= l.ttl as real then
          Window(Recall(l, pre, id).value.history, l.maxMessages)
        else []
  {
    hide Recall, Replay, Window, Standing, TouchedLast, Monotone, Leaves;
    TouchedIsFresh(l, pre, id);
    TouchedNotEmpty(l, pre, id);
    ExactRetention(l, pre, post, id);
  }

  // A session dropped while idle within the limit has had at least as many others
  // touched since as the cap.
  lemma DroppedByRivals(l: Limits, pre: seq<Op>, post: seq<Op>, id: SessionId)
    requires l.Valid() && Monotone(pre + post) && TouchedLast(l, pre, id)
    requires forall i :: 0 <= i < |post| ==> Leaves(post[i], id)
    requires forall i :: 0 <= i < |post| ==> post[i].now - pre[|pre| - 1].now <= l.ttl as real
    requires id !in Replay(l, pre + post).table
    ensures |Rivals(l, pre, post)| >= l.maxSessions
  {
    hide Recall, Replay, Window, Standing, Rivals, TouchedLast, Monotone;
    if |Rivals(l, pre, post)| < l.maxSessions {
      StillStored(l, pre, post, id);
    }
  }

  // While nothing is forgotten, the cap alone decides: the session is stored
  // exactly as long as fewer than max_sessions others have been touched since.
  lemma EvictedByRivals(l: Limits, pre: seq<Op>, post: seq<Op>, id: SessionId)
    requires l.Valid() && Monotone(pre + post) && TouchedLast(l, pre, id)
    requires forall i :: 0 <= i < |post| ==> Leaves(post[i], id) && !post[i].Forget?
    requires forall i :: 0 <= i < |post| ==> post[i].now - pre[|pre| - 1].now <= l.ttl as real
    ensures id in Replay(l, pre + post).table <==> |Rivals(l, pre, post)| < l.maxSessions
  {
    hide Recall, Replay, Window, Standing, Rivals, TouchedLast, Monotone;
    if |Rivals(l, pre, post)| < l.maxSessions {
      FewStanding(l, pre, post);
    } else {
      StandingWithin(l, pre, post);
      assert post[..|post|] == post;
    }
    ExactRetention(l, pre, post, id);
  }

  lemma MonotonePrefix(ops: seq<Op>, k: nat)
    requires Monotone(ops) && k <= |ops|
    ensures Monotone(ops[..k])
  {
  }

  // A stored session has fewer others after it than the cap.
  lemma RivalsFit(l: Limits, ops: seq<Op>, id: SessionId)
    requires l.Valid() && Monotone(ops) && ops != []
    ensures Recall(l, ops, id).Some? ==> |Recall(l, ops, id).value.since| < l.maxSessions
  {
    StoreFollowsRule(l, ops);
    ReachableInv(l, ops, ops[|ops| - 1].now);
    assert Holds(l, Replay(l, ops), id, Recall(l, ops, id));
    if Recall(l, ops, id).Some? {
      AfterSize(Replay(l, ops).order, id);
    }
  }

  // ----- A sync, from the outside -----

  // Whatever was stored before, the synced session is then the most recently
  // used one and its context is the windowed transcript.
  lemma SyncPost(l: Limits, ops: seq<Op>, id: SessionId, transcript: seq<Message>, now: real)
    requires l.Valid() && Monotone(ops + [Sync(id, transcript, now)])
    ensures
      var st := SyncStep(l, Replay(l, ops), id, transcript, now);
      && st == Replay(l, ops + [Sync(id, transcript, now)])
      && ContextOf(l, st, id, now) == Window(Cleaned(transcript), l.maxMessages)
      && 0 < |st.order| <= l.maxSessions && st.order[|st.order| - 1] == id
  {
    hide Sweep, Touch, Window, Cleaned, SyncStep, Recall, Monotone;
    var all := ops + [Sync(id, transcript, now)];
    assert all[..|ops|] == ops;
    MonotonePrefix(all, |ops|);
    BoundedByLast(all);
    assert forall i :: 0 <= i < |ops| ==> ops[i] == all[i];
    ReachableInv(l, ops, now);
    ReachableInv(l, all, now);
    StoreFollowsRule(l, ops);
    var m := Recall(l, ops, id);
    assert Holds(l, Replay(l, ops), id, m);
    SyncSameHolds(l, Replay(l, ops), id, transcript, now, m);
    SyncIsLast(l, Replay(l, ops), id, transcript, now);
  }

  lemma BoundedByLast(ops: seq<Op>)
    requires Monotone(ops) && ops != []
    ensures forall i :: 0 <= i < |ops| ==> ops[i].now <= ops[|ops| - 1].now
  {
  }

  // ----- What is recalled of a session's history -----

  // The position of the last sync of a session, -1 without one.
  function LastSync(ops: seq<Op>, id: SessionId): (k: int)
    ensures -1 <= k < |ops|
    ensures k >= 0 ==> ops[k].Sync? && ops[k].id == id
  {
    if ops == [] then -1
    else
      var (past, op) := (ops[..|ops| - 1], ops[|ops| - 1]);
      if op.Sync? && op.id == id then |ops| - 1 else LastSync(past, id)
  }

  lemma LastSyncNext(past: seq<Op>, op: Op, id: SessionId)
    ensures LastSync(past + [op], id) == if op.Sync? && op.id == id then |past| else LastSync(past, id)
  {
    assert (past + [op])[..|past|] == past;
  }

  lemma {:induction false} NoLaterSync(ops: seq<Op>, id: SessionId)
    ensures forall i :: LastSync(ops, id) < i < |ops| ==> !(ops[i].Sync? && ops[i].id == id)
  {
    if ops != [] {
      NoLaterSync(ops[..|ops| - 1], id);
    }
  }

  // The nonempty replies to a session among some operations.
  function Replies(ops: seq<Op>, id: SessionId): seq<Message> {
    if ops == [] then []
    else
      var (past, op) := (ops[..|ops| - 1], ops[|ops| - 1]);
      Replies(past, id) + Reply(op, id)
  }

  function Reply(op: Op, id: SessionId): seq<Message> {
    if op.Append? && op.id == id && op.content != [] then [Message(Assistant, op.content)] else []
  }

  // A recalled history is the cleaned transcript of the last sync and then every
  // nonempty reply since.
  lemma {:induction false} HistorySinceSync(l: Limits, ops: seq<Op>, id: SessionId)
    requires Recall(l, ops, id).Some?
    ensures
      var k := LastSync(ops, id);
      k >= 0 && Recall(l, ops, id).value.history == Cleaned(ops[k].transcript) + Replies(ops[k + 1..], id)
    decreases |ops|
  {
    hide Cleaned, Recall, Next, Replies, Reply, LastSync;
    if ops == [] {
      NothingRecalled(l, id);
      return;
    }
    var (past, op) := (ops[..|ops| - 1], ops[|ops| - 1]);
    assert ops == past + [op];
    RecallNext(l, past, op, id);
    NextHistory(l, Recall(l, past, id), op, id, op.Append? && Recall(l, past, op.id).Some?);
    LastSyncNext(past, op, id);
    var k := LastSync(ops, id);
    if k == |past| {
      assert ops[k + 1..] == [];
      NoReplies(id);
      assert Cleaned(op.transcript) + [] == Cleaned(op.transcript);
    } else {
      HistorySinceSync(l, past, id);
      var since := past[k + 1..];
      assert ops[k + 1..] == since + [op];
      RepliesNext(since, op, id);
      assert Cleaned(past[k].transcript) + Replies(since, id) + Reply(op, id)
        == Cleaned(past[k].transcript) + (Replies(since, id) + Reply(op, id));
    }
  }

  lemma NothingRecalled(l: Limits, id: SessionId)
    ensures Recall(l, [], id).None?
  {
  }

  lemma NoReplies(id: SessionId)
    ensures Replies([], id) == []
  {
  }

  lemma RepliesNext(ops: seq<Op>, op: Op, id: SessionId)
    ensures Replies(ops + [op], id) == Replies(ops, id) + Reply(op, id)
  {
    assert (ops + [op])[..|ops|] == ops;
  }

  lemma NextHistory(l: Limits, before: Option<Memory>, op: Op, id: SessionId, known: bool)
    requires Next(l, before, op, id, known).Some?
    ensures
      var m := Next(l, before, op, id, known).value;
      if op.Sync? && op.id == id then m.history == Cleaned(op.transcript)
      else before.Some? && m.history == before.value.history + Reply(op, id)
  {
    hide Cleaned;
    assert before.Some? ==> before.value.history + [] == before.value.history;
  }

  // Hence the bounded store refines an unbounded one: each stored session holds
  // the last messages of its last transcript and the replies since.
  lemma WindowedHistory(l: Limits, ops: seq<Op>, id: SessionId)
    requires l.Valid() && Monotone(ops) && id in Replay(l, ops).table
    ensures
      var k := LastSync(ops, id);
      && k >= 0
      && Replay(l, ops).table[id].messages
         == Window(Cleaned(ops[k].transcript) + Replies(ops[k + 1..], id), l.maxMessages)
  {
    hide Window, Cleaned, Recall;
    StoreFollowsRule(l, ops);
    assert Holds(l, Replay(l, ops), id, Recall(l, ops, id));
    HistorySinceSync(l, ops, id);
  }

  // The syncs of a session among some operations.
  function Syncs(ops: seq<Op>, id: SessionId): nat {
    if ops == [] then 0
    else Syncs(ops[..|ops| - 1], id) + if ops[|ops| - 1].Sync? && ops[|ops| - 1].id == id then 1 else 0
  }

  lemma SyncsNext(ops: seq<Op>, op: Op, id: SessionId)
    ensures Syncs(ops + [op], id) == Syncs(ops, id) + if op.Sync? && op.id == id then 1 else 0
  {
    assert (ops + [op])[..|ops|] == ops;
  }

  // Position k is the sync that created a session: it was not recalled, or was
  // swept by that very sync, and has been recalled ever since.
  ghost predicate CreatedAt(l: Limits, ops: seq<Op>, id: SessionId, k: nat) {
    && k < |ops| && ops[k].Sync? && ops[k].id == id
    && Waking(l, Recall(l, ops[..k], id), ops[k].now).None?
    && forall j :: k < j <= |ops| ==> Recall(l, ops[..j], id).Some?
  }

  // The turns of a session are its syncs since it was last created.
  lemma {:induction false} TurnsCountSyncs(l: Limits, ops: seq<Op>, id: SessionId) returns (k: nat)
    requires Recall(l, ops, id).Some?
    ensures CreatedAt(l, ops, id, k)
    ensures Recall(l, ops, id).value.turns == Syncs(ops[k..], id)
    ensures Recall(l, ops, id).value.created == ops[k].now
    decreases |ops|
  {
    hide Recall, Cleaned, Syncs, Idle;
    if ops == [] {
      NothingRecalled(l, id);
      return;
    }
    var (past, op) := (ops[..|ops| - 1], ops[|ops| - 1]);
    hide Next, Waking, CreatedAt;
    assert ops == past + [op];
    RecallNext(l, past, op, id);
    NextTurns(l, Recall(l, past, id), op, id, op.Append? && Recall(l, past, op.id).Some?);
    if op.Sync? && op.id == id && Waking(l, Recall(l, past, id), op.now).None? {
      k := |past|;
      assert ops[k..] == [] + [op];
      SyncsNext([], op, id);
      NoSyncs(id);
      CreatedNow(l, past, op, id);
    } else {
      k := TurnsCountSyncs(l, past, id);
      CreatedBefore(l, past, op, id, k);
      assert ops[k..] == past[k..] + [op] && ops[k] == past[k];
      SyncsNext(past[k..], op, id);
    }
  }

  lemma CreatedNow(l: Limits, past: seq<Op>, op: Op, id: SessionId)
    requires op.Sync? && op.id == id && Waking(l, Recall(l, past, id), op.now).None?
    requires Recall(l, past + [op], id).Some?
    ensures CreatedAt(l, past + [op], id, |past|)
  {
    hide Recall, Waking;
    var ops := past + [op];
    assert ops[..|past|] == past && ops[..|ops|] == ops;
  }

  lemma CreatedBefore(l: Limits, past: seq<Op>, op: Op, id: SessionId, k: nat)
    requires CreatedAt(l, past, id, k) && Recall(l, past + [op], id).Some?
    ensures CreatedAt(l, past + [op], id, k) && k < |past|
  {
    hide Recall, Waking;
    var ops := past + [op];
    assert ops[..k] == past[..k] && ops[k] == past[k] && ops[..|ops|] == ops;
    forall j | k < j <= |ops|
      ensures Recall(l, ops[..j], id).Some?
    {
      if j <= |past| {
        assert ops[..j] == past[..j];
      }
    }
  }

  lemma NoSyncs(id: SessionId)
    ensures Syncs([], id) == 0
  {
  }

  lemma NextTurns(l: Limits, before: Option<Memory>, op: Op, id: SessionId, known: bool)
    requires Next(l, before, op, id, known).Some?
    ensures
      var m := Next(l, before, op, id, known).value;
      if op.Sync? && op.id == id && Waking(l, before, op.now).None? then m.turns == 1 && m.created == op.now
      else
        && before.Some? && m.created == before.value.created
        && m.turns == before.value.turns + if op.Sync? && op.id == id then 1 else 0
  {
    hide Cleaned, Idle;
  }

  // A reply does not look at the idle limit: a context that is gone, expired or
  // not, comes back exactly when its session is still in the table.
  lemma ReplyRevives(l: Limits, st: Store, id: SessionId, content: PyString, now: real)
    requires l.Valid() && ContextOf(l, st, id, now) == []
    ensures ContextOf(l, AppendStep(l, st, id, content, now), id, now) != [] <==> id in st.table && content != []
    ensures id in st.table && content != [] ==>
      ContextOf(l, AppendStep(l, st, id, content, now), id, now) ==
        Window(st.table[id].messages + [Message(Assistant, content)], l.maxMessages)
  {
    if id in st.table && content != [] {
      var reply := [Message(Assistant, content)];
      var s := st.table[id].(messages := Window(st.table[id].messages + reply, l.maxMessages), lastSeen := now);
      TouchedHolds(st, id, s);
    }
  }

  // A run that gets there: one sync, and a reply after the idle limit with no sweep
  // in between.
  lemma RevivedRun(l: Limits, id: SessionId, question: PyString, answer: PyString)
    requires l.Valid() && question != [] && answer != []
    ensures
      var late := l.ttl as real + 1.0;
      var asked := [Sync(id, [Message(User, question)], 0.0)];
      var replied := asked + [Append(id, answer, late)];
      && Monotone(replied)
      && ContextOf(l, Replay(l, asked), id, late) == []
      && ContextOf(l, Replay(l, replied), id, late) == [Message(User, question), Message(Assistant, answer)]
  {
    hide SyncStep, AppendStep, Recall, Window, Cleaned;
    var late := l.ttl as real + 1.0;
    var (m, op) := (Message(User, question), Sync(id, [Message(User, question)], 0.0));
    var (asked, replied) := ([op], [op] + [Append(id, answer, late)]);
    assert asked == [] + [op] && replied[..1] == asked;
    WindowOne(l, m, answer);
    var st := Replay(l, asked);
    assert id in st.table && st.table[id].messages == [m] && st.table[id].lastSeen == 0.0 by { SyncedAlone(l, op); }
    ReplyRevives(l, st, id, answer, late);
    assert [m] + [Message(Assistant, answer)] == [m, Message(Assistant, answer)];
  }

  lemma SyncedAlone(l: Limits, op: Op)
    requires l.Valid() && op.Sync?
    ensures
      var st := Replay(l, [] + [op]);
      && op.id in st.table && st.table[op.id].lastSeen == op.now
      && st.table[op.id].messages == Window(Cleaned(op.transcript), l.maxMessages)
  {
    hide Window, Cleaned, Replay;
    var none: seq<Op> := [];
    StoreFollowsRule(l, none + [op]);
    RecallNext(l, none, op, op.id);
    assert Holds(l, Replay(l, none + [op]), op.id, Recall(l, none + [op], op.id));
  }

  lemma WindowOne(l: Limits, m: Message, answer: PyString)
    requires l.Valid() && Retained(m)
    ensures Window(Cleaned([m]), l.maxMessages) == [m]
    ensures Window([m] + [Message(Assistant, answer)], l.maxMessages) == [m] + [Message(Assistant, answer)]
  {
    assert Cleaned([m][1..]) == [];
  }
}
