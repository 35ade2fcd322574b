// Strings of the two languages, and the few string operations the chat path uses.
// A browser string is a sequence of UTF-16 code units; a Python string is a
// sequence of code points, surrogates included.
module Text {
  type CodeUnit = u: int | 0 <= u < 0x1_0000
  type Text = seq<CodeUnit>
  type CodePoint = c: int | 0 <= c < 0x11_0000
  type PyString = seq<CodePoint>

  datatype Option<+T> = None | Some(value: T)

  function Max(a: int, b: int): int { if a < b then b else a }

  const LF: CodeUnit := 10
  const CR: CodeUnit := 13
  const SPACE: CodeUnit := 32

  // An ASCII literal as code units; a character outside ASCII becomes '?'.
  function Ascii(s: string): (t: Text)
    ensures |t| == |s|
    ensures forall i :: 0 <= i < |t| ==> t[i] < 128
  {
    seq(|s|, i requires 0 <= i < |s| => if s[i] < 128 as char then s[i] as int else 63)
  }

  // Three notions of white space: that of String.prototype.trim, of str.strip
  // and of JSON.
  datatype Blanks = JsBlanks | PyBlanks | JsonBlanks
  {
    predicate Has(c: int) {
      match this
      case JsBlanks =>
        9 <= c <= 13 || c == 32 || c == 0xA0 || c == 0xFEFF || IsUnicodeSpace(c)
      case PyBlanks =>
        9 <= c <= 13 || 28 <= c <= 32 || c == 0x85 || c == 0xA0 || IsUnicodeSpace(c)
      case JsonBlanks =>
        c == 9 || c == 10 || c == 13 || c == 32
    }

    // The first position at or after i that holds no blank.
    function Skip(s: seq<int>, i: nat): (r: nat)
      requires i <= |s|
      ensures i <= r <= |s|
      ensures r < |s| ==> !Has(s[r])
      decreases |s| - i
    {
      if i < |s| && Has(s[i]) then Skip(s, i + 1) else i
    }

    // The last position at or before i, and not before low, that follows no blank.
    function SkipBack(s: seq<int>, low: nat, i: nat): (r: nat)
      requires low <= i <= |s|
      ensures low <= r <= i
      ensures low < r ==> !Has(s[r - 1])
      ensures forall k :: r <= k < i ==> Has(s[k])
    {
      if low < i && Has(s[i - 1]) then SkipBack(s, low, i - 1) else i
    }
  }

  predicate IsUnicodeSpace(c: int) {
    c == 0x1680 || 0x2000 <= c <= 0x200A || c == 0x2028 || c == 0x2029 || c == 0x202F || c == 0x205F
    || c == 0x3000
  }

  function JsTrim(s: Text): Text {
    var start := JsBlanks.Skip(s, 0);
    s[start..JsBlanks.SkipBack(s, start, |s|)]
  }

  function PyStrip(s: PyString): PyString {
    var start := PyBlanks.Skip(s, 0);
    s[start..PyBlanks.SkipBack(s, start, |s|)]
  }

  predicate AllBlank(b: Blanks, s: seq<int>) { forall i :: 0 <= i < |s| ==> b.Has(s[i]) }

  // No blank at either end.
  predicate CleanEnds(b: Blanks, s: seq<int>) { s != [] ==> !b.Has(s[0]) && !b.Has(s[|s| - 1]) }

  lemma {:induction false} SkipsBlanks(b: Blanks, s: seq<int>, i: nat, n: nat)
    requires i <= n <= |s| && (forall k :: i <= k < n ==> b.Has(s[k])) && (n < |s| ==> !b.Has(s[n]))
    ensures b.Skip(s, i) == n
    decreases n - i
  {
    hide Blanks.Has;
    if i < n {
      SkipsBlanks(b, s, i + 1, n);
    }
  }

  lemma {:induction false} SkipsBlanksBack(b: Blanks, s: seq<int>, low: nat, n: nat, i: nat)
    requires low <= n <= i <= |s| && (forall k :: n <= k < i ==> b.Has(s[k])) && (low < n ==> !b.Has(s[n - 1]))
    ensures b.SkipBack(s, low, i) == n
  {
    hide Blanks.Has;
    if n < i {
      SkipsBlanksBack(b, s, low, n, i - 1);
    }
  }

  // Blanks around a text with clean ends are found exactly.
  lemma BlanksAround(b: Blanks, w: seq<int>, p: seq<int>, v: seq<int>)
    requires AllBlank(b, w) && AllBlank(b, v) && CleanEnds(b, p)
    ensures
      var s := w + p + v;
      var start := b.Skip(s, 0);
      s[start..b.SkipBack(s, start, |s|)] == p
  {
    hide Blanks.Has, Blanks.Skip, Blanks.SkipBack;
    if p == [] {
      AllBlanks(b, w + p + v, w, v);
    } else {
      BlanksAt(b, w, p, v);
      assert (w + p + v)[|w|..|w| + |p|] == p;
    }
  }

  lemma AllBlanks(b: Blanks, s: seq<int>, w: seq<int>, v: seq<int>)
    requires AllBlank(b, w) && AllBlank(b, v) && s == w + v
    ensures b.Skip(s, 0) == |s| && b.SkipBack(s, |s|, |s|) == |s|
  {
    hide Blanks.Has, Blanks.Skip, Blanks.SkipBack;
    assert forall k :: 0 <= k < |s| ==> s[k] == if k < |w| then w[k] else v[k - |w|];
    SkipsBlanks(b, s, 0, |s|);
    SkipsBlanksBack(b, s, |s|, |s|, |s|);
  }

  lemma BlanksAt(b: Blanks, w: seq<int>, p: seq<int>, v: seq<int>)
    requires AllBlank(b, w) && AllBlank(b, v) && CleanEnds(b, p) && p != []
    ensures b.Skip(w + p + v, 0) == |w| && b.SkipBack(w + p + v, |w|, |w + p + v|) == |w| + |p|
  {
    hide Blanks.Has, Blanks.Skip, Blanks.SkipBack;
    var (s, n) := (w + p + v, |w| + |p|);
    assert forall k :: 0 <= k < |w| ==> s[k] == w[k];
    assert forall k :: n <= k < |s| ==> s[k] == v[k - n];
    assert s[n - 1] == p[|p| - 1] && s[|w|] == p[0];
    SkipsBlanks(b, s, 0, |w|);
    SkipsBlanksBack(b, s, |w|, n, |s|);
  }

  // Trimming and stripping take off exactly the blanks at the ends.
  lemma TrimExact(w: Text, p: Text, v: Text)
    requires AllBlank(JsBlanks, w) && AllBlank(JsBlanks, v) && CleanEnds(JsBlanks, p)
    ensures JsTrim(w + p + v) == p
  {
    BlanksAround(JsBlanks, w, p, v);
  }

  lemma StripExact(w: PyString, p: PyString, v: PyString)
    requires AllBlank(PyBlanks, w) && AllBlank(PyBlanks, v) && CleanEnds(PyBlanks, p)
    ensures PyStrip(w + p + v) == p
  {
    BlanksAround(PyBlanks, w, p, v);
  }

  // A text without blanks at its ends is its own trim.
  lemma NothingToTrim(t: Text)
    requires t != [] && !JsBlanks.Has(t[0]) && !JsBlanks.Has(t[|t| - 1])
    ensures JsTrim(t) == t
  {
  }

  // The pattern occurs in s at position i.
  predicate OccursAt(s: Text, p: Text, i: int) {
    0 <= i && i + |p| <= |s| && s[i..i + |p|] == p
  }

  // String.prototype.indexOf from position 0.
  function IndexOf(s: Text, p: Text): (r: int)
    ensures -1 <= r <= |s|
    ensures r >= 0 ==> OccursAt(s, p, r)
    ensures forall i :: 0 <= i && (r == -1 || i < r) ==> !OccursAt(s, p, i)
  {
    IndexFrom(s, p, 0)
  }

  function IndexFrom(s: Text, p: Text, start: nat): (r: int)
    requires start <= |s|
    ensures r == -1 || start <= r <= |s|
    ensures r >= 0 ==> OccursAt(s, p, r)
    ensures forall i :: start <= i && (r == -1 || i < r) ==> !OccursAt(s, p, i)
    decreases |s| - start
  {
    if start + |p| > |s| then -1
    else if s[start..start + |p|] == p then start
    else if start == |s| then -1
    else IndexFrom(s, p, start + 1)
  }

  // Array.prototype.join with a one-unit separator.
  function JoinWith(parts: seq<Text>, sep: CodeUnit): Text {
    if parts == [] then []
    else if |parts| == 1 then parts[0]
    else parts[0] + [sep] + JoinWith(parts[1..], sep)
  }

  function Concat<T>(parts: seq<seq<T>>): seq<T> {
    if parts == [] then [] else parts[0] + Concat(parts[1..])
  }

  lemma {:induction false} ConcatAppend<T>(a: seq<seq<T>>, b: seq<seq<T>>)
    ensures Concat(a + b) == Concat(a) + Concat(b)
  {
    if a == [] {
      assert a + b == b;
    } else {
      assert (a + b)[1..] == a[1..] + b;
      ConcatAppend(a[1..], b);
    }
  }

  // The UTF-16 form of a Python string: one unit per code point below 0x10000,
  // a surrogate pair above.
  function Utf16(s: PyString): Text {
    if s == [] then [] else Units(s[0]) + Utf16(s[1..])
  }

  function Units(c: CodePoint): Text {
    if c < 0x1_0000 then [c] else [HighSurrogate(c), LowSurrogate(c)]
  }

  function HighSurrogate(c: CodePoint): CodeUnit
    requires c >= 0x1_0000
  {
    0xD800 + (c - 0x1_0000) / 0x400
  }

  function LowSurrogate(c: CodePoint): CodeUnit
    requires c >= 0x1_0000
  {
    0xDC00 + (c - 0x1_0000) % 0x400
  }

  // A surrogate pair lies in the two surrogate ranges and means its code point.
  lemma PairMeans(c: CodePoint)
    requires c >= 0x1_0000
    ensures 0xD800 <= HighSurrogate(c) < 0xDC00 <= LowSurrogate(c) < 0xE000
    ensures 0x1_0000 + (HighSurrogate(c) - 0xD800) * 0x400 + (LowSurrogate(c) - 0xDC00) == c
  {
  }

  // A Python string without surrogate code points, as every decoded UTF-8 text is.
  predicate WellFormed(s: PyString) {
    forall i :: 0 <= i < |s| ==> !(0xD800 <= s[i] < 0xE000)
  }

  // Distinct well-formed texts stay distinct in the browser.
  lemma {:induction false} Utf16Injective(a: PyString, b: PyString)
    requires WellFormed(a) && WellFormed(b) && Utf16(a) == Utf16(b)
    ensures a == b
  {
    if a == [] || b == [] {
      assert Utf16(a) == [];
    } else {
      assert Utf16(a)[0] == Units(a[0])[0] && Utf16(b)[0] == Units(b[0])[0];
      assert (a[0] < 0x1_0000) == (b[0] < 0x1_0000);
      if a[0] >= 0x1_0000 {
        assert Utf16(a)[1] == LowSurrogate(a[0]) && Utf16(b)[1] == LowSurrogate(b[0]);
      }
      assert a[0] == b[0];
      assert Utf16(a)[|Units(a[0])|..] == Utf16(a[1..]);
      assert Utf16(b)[|Units(b[0])|..] == Utf16(b[1..]);
      Utf16Injective(a[1..], b[1..]);
    }
  }
}
