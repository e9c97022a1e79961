/** The byte-string operations of the standard library that the upload parser is built from.  A byte
    is written as the character with its code, so that literals stay readable. */
module ByteStrings {
  import opened Options

  type Bytes = string

  const CRLF: Bytes := "\r\n"
  const BLANK: Bytes := "\r\n\r\n"

  /** `d` stands at index `i` of `s`. */
  predicate At(s: Bytes, d: Bytes, i: nat) {
    i + |d| <= |s| && s[i..i + |d|] == d
  }

  ghost predicate Contains(s: Bytes, d: Bytes) {
    exists i: nat :: At(s, d, i)
  }

  /** The first of all occurrences. */
  ghost predicate Leftmost(s: Bytes, d: Bytes, i: nat) {
    At(s, d, i) && forall j: nat :: j < i ==> !At(s, d, j)
  }

  function FindFrom(s: Bytes, d: Bytes, from: nat): (r: Option<nat>)
    requires from <= |s|
    ensures r.Some? ==> At(s, d, r.value)
    decreases |s| - from
  {
    if At(s, d, from) then Some(from)
    else if from == |s| then None
    else FindFrom(s, d, from + 1)
  }

  /** `bytes.find`, with None for -1. */
  function Find(s: Bytes, d: Bytes): (r: Option<nat>)
    ensures r.Some? ==> At(s, d, r.value)
  {
    FindFrom(s, d, 0)
  }

  /** `bytes.split`: cut at every occurrence, leftmost first, never overlapping. */
  function Split(s: Bytes, d: Bytes): (r: seq<Bytes>)
    requires d != []
    ensures |r| > 0
    decreases |s|
  {
    match Find(s, d)
    case None => [s]
    case Some(i) => [s[..i]] + Split(s[i + |d|..], d)
  }

  predicate IsSpace(c: char) {
    c == ' ' || c == '\t' || c == '\n' || c == '\r' || c == '\U{0B}' || c == '\U{0C}'
  }

  function StripLeft(s: Bytes, drop: char -> bool): (r: Bytes)
    ensures r != [] ==> !drop(r[0])
    ensures |r| <= |s| && r == s[|s| - |r|..]
    ensures forall k :: 0 <= k < |s| - |r| ==> drop(s[k])
  {
    if s != [] && drop(s[0]) then StripLeft(s[1..], drop) else s
  }

  function StripRight(s: Bytes, drop: char -> bool): (r: Bytes)
    ensures r != [] ==> !drop(r[|r| - 1])
    ensures |r| <= |s| && r == s[..|r|]
    ensures forall k :: |r| <= k < |s| ==> drop(s[k])
  {
    if s != [] && drop(s[|s| - 1]) then StripRight(s[..|s| - 1], drop) else s
  }

  function Strip(s: Bytes, drop: char -> bool): Bytes {
    StripRight(StripLeft(s, drop), drop)
  }

  function StripSpace(s: Bytes): Bytes {
    Strip(s, IsSpace)
  }

  function StripQuotes(s: Bytes): Bytes {
    Strip(s, (c: char) => c == '"')
  }

  /** Nothing to strip at either end. */
  predicate Trimmed(s: Bytes, drop: char -> bool) {
    s != [] ==> !drop(s[0]) && !drop(s[|s| - 1])
  }

  lemma StripTrimmed(s: Bytes, drop: char -> bool)
    requires Trimmed(s, drop)
    ensures Strip(s, drop) == s
  {
  }

  lemma StripLeftPadded(left: Bytes, s: Bytes, drop: char -> bool)
    requires s != [] && !drop(s[0]) && forall c :: c in left ==> drop(c)
    ensures StripLeft(left + s, drop) == s
  {
    if left == [] {
      assert left + s == s;
    } else {
      assert (left + s)[1..] == left[1..] + s;
      StripLeftPadded(left[1..], s, drop);
    }
  }

  lemma StripRightPadded(s: Bytes, right: Bytes, drop: char -> bool)
    requires s != [] && !drop(s[|s| - 1]) && forall c :: c in right ==> drop(c)
    ensures StripRight(s + right, drop) == s
  {
    if right == [] {
      assert s + right == s;
    } else {
      assert (s + right)[..|s + right| - 1] == s + right[..|right| - 1];
      StripRightPadded(s, right[..|right| - 1], drop);
    }
  }

  /** `strip` removes exactly the padding around a trimmed core. */
  lemma StripPadded(left: Bytes, core: Bytes, right: Bytes, drop: char -> bool)
    requires core != [] && Trimmed(core, drop)
    requires (forall c :: c in left ==> drop(c)) && (forall c :: c in right ==> drop(c))
    ensures Strip(left + core + right, drop) == core
  {
    assert left + core + right == left + (core + right);
    StripLeftPadded(left, core + right, drop);
    StripRightPadded(core, right, drop);
  }

  function LowerChar(c: char): char {
    if 'A' <= c <= 'Z' then (c as int + 32) as char else c
  }

  function Lower(s: Bytes): (r: Bytes)
    ensures |r| == |s| && forall k :: 0 <= k < |s| ==> r[k] == LowerChar(s[k])
  {
    seq(|s|, i requires 0 <= i < |s| => LowerChar(s[i]))
  }

  predicate StartsWith(s: Bytes, p: Bytes) {
    |p| <= |s| && s[..|p|] == p
  }

  predicate EndsWith(s: Bytes, p: Bytes) {
    |p| <= |s| && s[|s| - |p|..] == p
  }

  predicate NoLineBreaks(s: Bytes) {
    '\r' !in s && '\n' !in s
  }

  // ------------------------------------------------------------------ laws of split

  lemma {:induction false} FindFromSpec(s: Bytes, d: Bytes, from: nat)
    requires from <= |s|
    ensures forall j: nat :: from <= j && (FindFrom(s, d, from).Some? ==> j < FindFrom(s, d, from).value) ==>
              !At(s, d, j)
    decreases |s| - from
  {
    if !At(s, d, from) && from < |s| {
      FindFromSpec(s, d, from + 1);
    }
  }

  /** `find` gives the first occurrence, and fails only when there is none. */
  lemma FindSpec(s: Bytes, d: Bytes)
    ensures Find(s, d).Some? <==> Contains(s, d)
    ensures Find(s, d).Some? ==> Leftmost(s, d, Find(s, d).value)
  {
    FindFromSpec(s, d, 0);
    if Find(s, d).Some? {
      assert At(s, d, Find(s, d).value);
    }
  }

  lemma FindIsLeftmost(s: Bytes, d: Bytes, i: nat)
    requires Leftmost(s, d, i)
    ensures Find(s, d) == Some(i)
  {
    FindSpec(s, d);
    assert Contains(s, d);
  }

  lemma SplitClean(s: Bytes, d: Bytes)
    requires d != [] && !Contains(s, d)
    ensures Split(s, d) == [s]
  {
    FindSpec(s, d);
  }

  lemma AtShift(a: Bytes, s: Bytes, d: Bytes, i: nat)
    ensures At(a + s, d, |a| + i) <==> At(s, d, i)
  {
    if |a| + i + |d| <= |a + s| {
      assert (a + s)[|a| + i..|a| + i + |d|] == s[i..i + |d|];
    }
  }

  lemma AtPrefix(s: Bytes, b: Bytes, d: Bytes, i: nat)
    requires i + |d| <= |s|
    ensures At(s + b, d, i) <==> At(s, d, i)
  {
    assert (s + b)[i..i + |d|] == s[i..i + |d|];
  }

  /** A delimiter without line breaks cannot lie across one. */
  lemma NoStraddle(y: Bytes, rest: Bytes, d: Bytes, i: nat)
    requires d != [] && NoLineBreaks(d) && At(y + CRLF + rest, d, i) && i < |y| + 2
    ensures i + |d| <= |y|
  {
    var s := y + CRLF + rest;
    assert s[|y|] == '\r' && s[|y| + 1] == '\n';
    assert forall k :: i <= k < i + |d| ==> s[k] == s[i..i + |d|][k - i];
    assert forall k :: i <= k < i + |d| ==> s[k] in d;
  }

  /** The line break shields the front of a text from what follows it. */
  lemma FrontIsIndependent(y: Bytes, rest: Bytes, d: Bytes)
    requires d != [] && NoLineBreaks(d)
    ensures forall i: nat :: i < |y| + 2 ==> (At(y + CRLF + rest, d, i) <==> At(y + CRLF, d, i))
    ensures forall i: nat :: At(y + CRLF, d, i) ==> i + |d| <= |y|
  {
    forall i: nat
      ensures i < |y| + 2 ==> (At(y + CRLF + rest, d, i) <==> At(y + CRLF, d, i))
      ensures At(y + CRLF, d, i) ==> i + |d| <= |y|
    {
      if At(y + CRLF, d, i) {
        assert y + CRLF + [] == y + CRLF;
        NoStraddle(y, [], d, i);
        AtPrefix(y + CRLF, rest, d, i);
      } else if i < |y| + 2 && At(y + CRLF + rest, d, i) {
        NoStraddle(y, rest, d, i);
        AtPrefix(y + CRLF, rest, d, i);
      }
    }
  }

  lemma SplitStep(s: Bytes, d: Bytes, i: nat)
    requires d != [] && Leftmost(s, d, i)
    ensures Split(s, d) == [s[..i]] + Split(s[i + |d|..], d)
  {
    FindIsLeftmost(s, d, i);
  }

  lemma SplitAs(s: Bytes, d: Bytes, i: nat, x: Bytes, rest: Bytes)
    requires d != [] && Leftmost(s, d, i) && x == s[..i] && rest == s[i + |d|..]
    ensures Split(s, d) == [x] + Split(rest, d)
  {
    SplitStep(s, d, i);
  }

  lemma ThreePieces(a: Bytes, b: Bytes, c: Bytes)
    ensures var s := a + (b + c);
            s[..|a|] == a && s[|a|..|a| + |b|] == b && s[|a| + |b|..] == c
  {
  }

  lemma Associative(a: Bytes, b: Bytes, c: Bytes)
    ensures (a + b) + c == a + (b + c)
  {
  }

  /** Cutting at the delimiter that follows the line break, when nothing before it matches. */
  lemma CutAfterBreak(y: Bytes, tail: Bytes, d: Bytes)
    requires d != [] && NoLineBreaks(d) && !Contains(y + CRLF, d)
    ensures Split(y + CRLF + (d + tail), d) == [y + CRLF] + Split(tail, d)
  {
    var front := y + CRLF;
    hide Split, NoLineBreaks;
    FrontIsIndependent(y, d + tail, d);
    ThreePieces(front, d, tail);
    assert forall i: nat :: i < |front| ==> !At(front, d, i);
    hide Contains;
    SplitStep(front + (d + tail), d, |front|);
  }

  lemma SlicesBeforeBreak(y: Bytes, rest: Bytes, i: nat, j: nat)
    requires i <= j <= |y|
    ensures (y + CRLF + rest)[..i] == y[..i]
    ensures (y + CRLF + rest)[j..] == y[j..] + CRLF + rest
  {
  }

  lemma LeftmostInFront(y: Bytes, rest: Bytes, d: Bytes, i: nat)
    requires d != [] && NoLineBreaks(d) && Leftmost(y + CRLF, d, i)
    ensures i + |d| <= |y| && Leftmost(y + CRLF + rest, d, i)
  {
    FrontIsIndependent(y, rest, d);
  }

  /** Cutting at a delimiter inside the part before the line break; `below` is what is left. */
  lemma CutBeforeBreak(y: Bytes, rest: Bytes, d: Bytes, i: nat, below: Bytes)
    requires d != [] && NoLineBreaks(d) && Leftmost(y + CRLF, d, i)
    requires i + |d| <= |y| ==> below == y[i + |d|..] + CRLF + rest
    ensures i + |d| <= |y|
    ensures Split(y + CRLF + rest, d) == [y[..i]] + Split(below, d)
  {
    LeftmostInFront(y, rest, d, i);
    SlicesBeforeBreak(y, rest, i, i + |d|);
    SplitAs(y + CRLF + rest, d, i, y[..i], below);
  }

  lemma CutFront(y: Bytes, d: Bytes, i: nat, below: Bytes)
    requires d != [] && NoLineBreaks(d) && Leftmost(y + CRLF, d, i)
    requires i + |d| <= |y| ==> below == y[i + |d|..] + CRLF
    ensures i + |d| <= |y|
    ensures Split(y + CRLF, d) == [y[..i]] + Split(below, d)
  {
    assert y + CRLF + [] == y + CRLF;
    assert i + |d| <= |y| ==> y[i + |d|..] + CRLF + [] == y[i + |d|..] + CRLF;
    CutBeforeBreak(y, [], d, i, below);
  }

  lemma Regroup(x: Bytes, ys: seq<Bytes>, zs: seq<Bytes>)
    ensures [x] + (ys + zs) == ([x] + ys) + zs
  {
  }

  /** A delimiter right after a line break is always a cut, whatever stands before it: the pieces
      are those of the part before and those of the part after. */
  lemma {:induction false} SplitAcross(y: Bytes, tail: Bytes, d: Bytes)
    requires d != [] && NoLineBreaks(d)
    ensures Split(y + CRLF + (d + tail), d) == Split(y + CRLF, d) + Split(tail, d)
    decreases |y|
  {
    if !Contains(y + CRLF, d) {
      CutAfterBreak(y, tail, d);
      SplitClean(y + CRLF, d);
    } else {
      FindSpec(y + CRLF, d);
      var i := Find(y + CRLF, d).value;
      LeftmostInFront(y, [], d, i);
      var y' := y[i + |d|..];
      CutBeforeBreak(y, d + tail, d, i, y' + CRLF + (d + tail));
      CutFront(y, d, i, y' + CRLF);
      SplitAcross(y', tail, d);
      Regroup(y[..i], Split(y' + CRLF, d), Split(tail, d));
    }
  }

  /** No piece is longer than what was cut, and a cut shortens every piece. */
  lemma {:induction false} PiecesAreShort(s: Bytes, d: Bytes, k: nat)
    requires d != [] && k < |Split(s, d)|
    ensures |Split(s, d)[k]| + (if Contains(s, d) then |d| else 0) <= |s|
    decreases |s|
  {
    FindSpec(s, d);
    match Find(s, d)
    case None =>
    case Some(i) =>
      if k > 0 {
        PiecesAreShort(s[i + |d|..], d, k - 1);
      }
  }
}
