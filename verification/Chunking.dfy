// How a response body is cut into network chunks does not matter to the client.
module Chunking {
  import opened Text
  import opened Client

  lemma OccursInPrefix(a: Text, b: Text, p: Text, i: int)
    requires i + |p| <= |a|
    ensures OccursAt(a + b, p, i) == OccursAt(a, p, i)
  {
    if 0 <= i {
      assert (a + b)[i..i + |p|] == a[i..i + |p|];
    }
  }

  // A boundary, unit by unit.
  lemma OccursMeans(s: Text, i: int)
    ensures OccursAt(s, LFLF, i) ==> s[i] == LF && s[i + 1] == LF
    ensures OccursAt(s, CRLFCRLF, i) ==> s[i] == CR && s[i + 1] == LF && s[i + 2] == CR && s[i + 3] == LF
  {
    if OccursAt(s, LFLF, i) {
      assert s[i..i + 2][0] == LF && s[i..i + 2][1] == LF;
    }
    if OccursAt(s, CRLFCRLF, i) {
      var p := s[i..i + 4];
      assert p[0] == CR && p[1] == LF && p[2] == CR && p[3] == LF;
    }
  }

  // The two kinds of boundary cannot overlap so that one hides the other.
  lemma NoOverlap(s: Text, i: int, j: int)
    requires j < i && OccursAt(s, CRLFCRLF, j) && OccursAt(s, LFLF, i)
    ensures i >= j + 3
  {
    OccursMeans(s, i);
    OccursMeans(s, j);
  }

  // Where the first boundary is, without the search: the first place at which
  // either kind occurs.
  ghost predicate FirstBoundary(s: Text, i: int) {
    && (OccursAt(s, LFLF, i) || OccursAt(s, CRLFCRLF, i))
    && forall j :: j < i ==> !OccursAt(s, LFLF, j) && !OccursAt(s, CRLFCRLF, j)
  }

  lemma BoundaryIsFirst(s: Text, i: int)
    ensures i >= 0 && IndexOfFrameBoundary(s) == i ==> FirstBoundary(s, i)
    ensures FirstBoundary(s, i) ==> IndexOfFrameBoundary(s) == i
    ensures IndexOfFrameBoundary(s) == -1 ==> !OccursAt(s, LFLF, i) && !OccursAt(s, CRLFCRLF, i)
  {
  }

  // Text that arrives later neither moves a boundary that is already complete
  // nor creates an earlier one.
  lemma BoundaryStable(a: Text, b: Text)
    requires IndexOfFrameBoundary(a) != -1
    ensures IndexOfFrameBoundary(a + b) == IndexOfFrameBoundary(a)
    ensures DropBoundary((a + b)[IndexOfFrameBoundary(a)..]) == DropBoundary(a[IndexOfFrameBoundary(a)..]) + b
  {
    var i := IndexOfFrameBoundary(a);
    var s := a + b;
    BoundaryIsFirst(a, i);
    BoundaryAt(a);
    hide IndexOfFrameBoundary, DropBoundary;
    var n := if OccursAt(a, LFLF, i) then 2 else 4;
    OccursInPrefix(a, b, LFLF, i);
    assert OccursAt(s, LFLF, i) == OccursAt(a, LFLF, i);
    if n == 4 {
      OccursInPrefix(a, b, CRLFCRLF, i);
    }
    forall j | j < i
      ensures !OccursAt(s, LFLF, j) && !OccursAt(s, CRLFCRLF, j)
    {
      OccursInPrefix(a, b, LFLF, j);
      if j + 4 <= |a| {
        OccursInPrefix(a, b, CRLFCRLF, j);
      } else if OccursAt(s, CRLFCRLF, j) {
        NoOverlap(s, i, j);
      }
    }
    BoundaryIsFirst(s, i);
    BoundaryAt(s);
    assert s[i + n..] == a[i + n..] + b;
  }

  // Draining what has arrived and then the rest drains the whole.
  lemma {:induction false} DrainAppend(a: Text, b: Text)
    ensures Drain(a).finished ==> Drain(a + b).finished && Drain(a + b).calls == Drain(a).calls
    ensures !Drain(a).finished ==>
      var d := Drain(Drain(a).tail + b);
      Drain(a + b) == Drained(Drain(a).calls + d.calls, d.finished, d.tail)
    decreases |a|
  {
    hide IndexOfFrameBoundary, DropBoundary, Interpret;
    var i := IndexOfFrameBoundary(a);
    if i == -1 {
      assert Drain(a) == Drained([], false, a);
      assert [] + Drain(a + b).calls == Drain(a + b).calls;
    } else {
      BoundaryStable(a, b);
      BoundaryShrinks(a);
      var o := Interpret(a[..i]);
      assert (a + b)[..i] == a[..i];
      var rest := DropBoundary(a[i..]);
      if !o.finished {
        DrainAppend(rest, b);
        var (x, y) := (Drain(rest), Drain(rest + b));
        assert Drain(a) == Drained(o.calls + x.calls, x.finished, x.tail);
        assert Drain(a + b) == Drained(o.calls + y.calls, y.finished, y.tail);
        if !x.finished {
          var d := Drain(x.tail + b);
          assert o.calls + (x.calls + d.calls) == o.calls + x.calls + d.calls;
        }
      }
    }
  }

  function Chunks(texts: seq<Text>): seq<Read> {
    if texts == [] then [] else [Chunk(texts[0])] + Chunks(texts[1..])
  }

  // What the client makes of a body that arrives whole.
  function WholeBody(body: Text): Session {
    var d := Drain(body);
    Session(d.calls, if d.finished then Finished else EndOfStream(d.tail))
  }

  lemma {:induction false} ChunkIndependence(buffer: Text, texts: seq<Text>)
    requires IndexOfFrameBoundary(buffer) == -1
    ensures ReadPhase(buffer, Chunks(texts)) == WholeBody(buffer + Concat(texts))
    decreases |texts|
  {
    if texts == [] {
      assert buffer + Concat(texts) == buffer;
    } else {
      var (head, later) := (texts[0], texts[1..]);
      var all := buffer + Concat(texts);
      assert all == (buffer + head) + Concat(later);
      assert Chunks(texts)[0] == Chunk(head) && Chunks(texts)[1..] == Chunks(later);
      var d := Drain(buffer + head);
      DrainAppend(buffer + head, Concat(later));
      assert ReadPhase(buffer, Chunks(texts)) == AfterChunk(buffer + head, Chunks(later));
      if !d.finished {
        DrainLeavesNoBoundary(buffer + head);
        ChunkIndependence(d.tail, later);
      }
    }
  }

  lemma {:induction false} DrainLeavesNoBoundary(buffer: Text)
    ensures !Drain(buffer).finished ==> IndexOfFrameBoundary(Drain(buffer).tail) == -1
    decreases |buffer|
  {
    hide IndexOfFrameBoundary, DropBoundary, Interpret;
    var i := IndexOfFrameBoundary(buffer);
    if i != -1 {
      BoundaryShrinks(buffer);
      DrainLeavesNoBoundary(DropBoundary(buffer[i..]));
    }
  }

  // Any two ways of cutting one body into chunks fire the same callbacks.
  lemma SameCallsForSameBody(a: seq<Text>, b: seq<Text>)
    requires Concat(a) == Concat(b)
    ensures ReadPhase([], Chunks(a)) == ReadPhase([], Chunks(b))
    ensures BodyCalls(Chunks(a)) == BodyCalls(Chunks(b))
  {
    NoBoundaryInNothing();
    ChunkIndependence([], a);
    ChunkIndependence([], b);
  }

  // A read failure is reported once, as what it is, after the frames that were
  // complete, and what was still open is not flushed; after a terminal frame it
  // is not noticed.
  lemma FailureReported(texts: seq<Text>, failure: ReadFailure, later: seq<Read>)
    ensures
      var whole := WholeBody(Concat(texts));
      BodyCalls(Chunks(texts) + [Fails(failure)] + later) ==
        if whole.ending.Finished? then whole.calls
        else if failure.Abort? then whole.calls + [OnError(Aborted, Ascii("Request cancelled."))]
        else whole.calls + [OnError(Network, failure.message)]
  {
    hide ReadPhase, Drain, IndexOfFrameBoundary, Concat;
    NoBoundaryInNothing();
    FailingReads([], texts, failure, later);
    assert [] + Concat(texts) == Concat(texts);
    var calls := WholeBody(Concat(texts)).calls;
    assert calls + [] == calls;
  }

  lemma {:induction false} FailingReads(buffer: Text, texts: seq<Text>, failure: ReadFailure, later: seq<Read>)
    requires IndexOfFrameBoundary(buffer) == -1
    ensures
      var whole := WholeBody(buffer + Concat(texts));
      ReadPhase(buffer, Chunks(texts) + [Fails(failure)] + later) ==
        if whole.ending.Finished? then whole else Session(whole.calls, Broken(failure))
    decreases |texts|
  {
    hide IndexOfFrameBoundary;
    var chunks := Chunks(texts) + [Fails(failure)] + later;
    if texts == [] {
      assert chunks[0] == Fails(failure);
      assert buffer + Concat(texts) == buffer;
      assert Drain(buffer) == Drained([], false, buffer);
    } else {
      var (head, rest) := (texts[0], texts[1..]);
      assert buffer + Concat(texts) == (buffer + head) + Concat(rest);
      assert chunks[0] == Chunk(head) && chunks[1..] == Chunks(rest) + [Fails(failure)] + later;
      var d := Drain(buffer + head);
      DrainAppend(buffer + head, Concat(rest));
      assert ReadPhase(buffer, chunks) == AfterChunk(buffer + head, chunks[1..]);
      if !d.finished {
        DrainLeavesNoBoundary(buffer + head);
        FailingReads(d.tail, rest, failure, later);
      }
    }
  }

  lemma NoBoundaryInNothing()
    ensures IndexOfFrameBoundary([]) == -1
  {
  }

  // A body broken off anywhere has fired, so far, a prefix of what the whole
  // body fires.
  lemma CutFiresPrefix(body: Text, k: nat)
    requires k <= |body|
    ensures WholeBody(body[..k]).calls <= WholeBody(body).calls
  {
    assert body == body[..k] + body[k..];
    DrainAppend(body[..k], body[k..]);
  }
}
