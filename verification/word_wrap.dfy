/** The greedy word wrap of the dashboard's figure text. */
module WordWrap {
  import opened ByteStrings

  type Words = seq<string>

  // ------------------------------------------------------------------ words

  predicate SpaceFree(s: string) {
    forall k :: 0 <= k < |s| ==> !IsSpace(s[k])
  }

  predicate IsWord(w: string) {
    w != [] && SpaceFree(w)
  }

  /** The length of the run of non-space characters a text begins with. */
  function WordLength(s: string): (n: nat)
    ensures n <= |s| && SpaceFree(s[..n])
    ensures n < |s| ==> IsSpace(s[n])
  {
    if s == [] || IsSpace(s[0]) then 0 else 1 + WordLength(s[1..])
  }

  /** `text.split()`: the maximal runs of non-space characters. */
  function SplitWords(s: string): (ws: Words)
    ensures forall k :: 0 <= k < |ws| ==> IsWord(ws[k])
    decreases |s|
  {
    if s == [] then []
    else if IsSpace(s[0]) then SplitWords(s[1..])
    else
      var n := WordLength(s);
      [s[..n]] + SplitWords(s[n..])
  }

  /** The characters of a text that are not space, in order. */
  function Ink(s: string): string {
    if s == [] then [] else Ink(s[..|s| - 1]) + (if IsSpace(s[|s| - 1]) then [] else [s[|s| - 1]])
  }

  function Concat(ws: Words): string {
    if ws == [] then [] else Concat(ws[..|ws| - 1]) + ws[|ws| - 1]
  }

  /** The words of a line, one space between neighbours. */
  function Join(ws: Words): string {
    if ws == [] then []
    else if |ws| == 1 then ws[0]
    else Join(ws[..|ws| - 1]) + " " + ws[|ws| - 1]
  }

  // ------------------------------------------------------------------ the wrap, as functions

  /** The loop's state: finished lines and the line being filled. */
  datatype Page = Page(out: Words, line: string)

  function Flush(p: Page): Words {
    if p.line != [] then p.out + [p.line] else p.out
  }

  /** The inner loop: cut an unbreakable word into full lines until the rest fits. */
  function HardSplit(p: Page, word: string, m: nat): (Page, string)
    requires m >= 1
    decreases |word|
  {
    if |word| > m then HardSplit(Page(Flush(p) + [word[..m]], []), word[m..], m) else (p, word)
  }

  function Place(p: Page, word: string, m: nat): Page {
    if p.line == [] then Page(p.out, word)
    else if |p.line| + 1 + |word| <= m then Page(p.out, p.line + " " + word)
    else Page(p.out + [p.line], word)
  }

  function AddWord(p: Page, word: string, m: nat): Page
    requires m >= 1
  {
    var (p', rest) := HardSplit(p, word, m);
    Place(p', rest, m)
  }

  function Fill(ws: Words, m: nat): Page
    requires m >= 1
  {
    if ws == [] then Page([], []) else AddWord(Fill(ws[..|ws| - 1], m), ws[|ws| - 1], m)
  }

  function Wrapped(text: string, m: nat): Words
    requires m >= 1
  {
    Flush(Fill(SplitWords(text), m))
  }

  // ------------------------------------------------------------------ the wrap, as it runs

  method Wrap(text: string, maxChars: nat) returns (out: Words)
    requires maxChars >= 1
    ensures out == Wrapped(text, maxChars)
  {
    out := [];
    var line := "";
    var words := SplitWords(text);
    for k := 0 to |words|
      invariant Page(out, line) == Fill(words[..k], maxChars)
    {
      var word := words[k];
      assert words[..k + 1][..k] == words[..k];
      ghost var before := Page(out, line);
      while |word| > maxChars
        invariant HardSplit(Page(out, line), word, maxChars) == HardSplit(before, words[k], maxChars)
        decreases |word|
      {
        if line != "" {
          out := out + [line];
          line := "";
        }
        out := out + [word[..maxChars]];
        word := word[maxChars..];
      }
      if line == "" {
        line := word;
      } else if |line| + 1 + |word| <= maxChars {
        line := line + " " + word;
      } else {
        out := out + [line];
        line := word;
      }
    }
    assert words[..|words|] == words;
    if line != "" {
      out := out + [line];
    }
  }

  /** Pieces of exactly `m` characters each. */
  ghost predicate AreFull(pieces: Words, m: nat) {
    forall k :: 0 <= k < |pieces| ==> |pieces[k]| == m
  }

  /** A word that fits is left alone.  One that does not is cut from the front: first the line begun is
      finished, then come full lines, and only what is left after them is shorter. */
  lemma {:induction false} HardSplitCutsFullLines(p: Page, word: string, m: nat) returns (pieces: Words)
    requires m >= 1
    ensures AreFull(pieces, m) && word == Concat(pieces) + HardSplit(p, word, m).1
    ensures |word| <= m ==> pieces == [] && HardSplit(p, word, m).0 == p
    ensures |word| > m ==>
              && pieces != [] && 0 < |HardSplit(p, word, m).1| <= m
              && HardSplit(p, word, m).0 == Page((if p.line == [] then p.out else p.out + [p.line]) + pieces, [])
    decreases |word|
  {
    hide Concat;
    if |word| <= m {
      pieces := [];
      ConcatNothing();
    } else {
      var p' := Page(Flush(p) + [word[..m]], []);
      var more := HardSplitCutsFullLines(p', word[m..], m);
      pieces := [word[..m]] + more;
      ConcatCons(word[..m], more);
      assert HardSplit(p, word, m) == HardSplit(p', word[m..], m);
      hide HardSplit;
      CutThenRest(word, m, Concat(more), HardSplit(p', word[m..], m).1);
      assert Flush(p) + ([word[..m]] + more) == (Flush(p) + [word[..m]]) + more;
    }
  }

  lemma ConcatNothing()
    ensures Concat([]) == []
  {
  }

  lemma CutThenRest(word: string, m: nat, middle: string, rest: string)
    requires m <= |word| && word[m..] == middle + rest
    ensures word == (word[..m] + middle) + rest
  {
    assert word == word[..m] + word[m..];
  }

  lemma ConcatCons(w: string, ws: Words)
    ensures Concat([w] + ws) == w + Concat(ws)
  {
    ConcatAppend([w], ws);
    ConcatOne(w);
  }

  // ------------------------------------------------------------------ a character budget below one

  /** `word[max_chars:]` for a budget that is zero or negative: the whole word, or its last
      characters. */
  function TailFrom(word: string, m: int): string
    requires m <= 0
  {
    if m == 0 || -m >= |word| then word else word[|word| + m..]
  }

  /** What is left of a word after `n` passes of the inner loop. */
  function LeftAfter(word: string, m: int, n: nat): string
    requires m <= 0
  {
    if n == 0 then word else TailFrom(LeftAfter(word, m, n - 1), m)
  }

  /** With a budget below one the inner loop never ends: after every number of passes its guard holds
      again.  A budget of zero takes nothing away; a negative one can shorten the word once, and what
      is left then stays as it is.  So one is the least budget for which the wrap returns, unless
      there is nothing to wrap. */
  lemma {:induction false} NoBudgetNoEnd(word: string, m: int, n: nat)
    requires m <= 0 && word != []
    ensures |LeftAfter(word, m, n)| > m && LeftAfter(word, m, n) != []
    ensures n > 0 ==> LeftAfter(word, m, n) == TailFrom(word, m)
    ensures n > 0 ==> LeftAfter(word, m, n) == if m == 0 || -m >= |word| then word else word[|word| - (-m)..]
  {
    if n > 1 {
      NoBudgetNoEnd(word, m, n - 1);
    }
  }

  // ------------------------------------------------------------------ lines fit

  ghost predicate LinesFit(lines: Words, m: nat) {
    forall k :: 0 <= k < |lines| ==> 0 < |lines[k]| <= m
  }

  lemma {:induction false} HardSplitFits(p: Page, word: string, m: nat)
    requires m >= 1 && LinesFit(p.out, m) && |p.line| <= m && word != []
    ensures var (p', rest) := HardSplit(p, word, m);
            LinesFit(p'.out, m) && |p'.line| <= m && 0 < |rest| <= m
    decreases |word|
  {
    if |word| > m {
      HardSplitFits(Page(Flush(p) + [word[..m]], []), word[m..], m);
    }
  }

  lemma {:induction false} FillFits(ws: Words, m: nat)
    requires m >= 1 && forall k :: 0 <= k < |ws| ==> ws[k] != []
    ensures LinesFit(Fill(ws, m).out, m) && |Fill(ws, m).line| <= m
  {
    if ws != [] {
      FillFits(ws[..|ws| - 1], m);
      HardSplitFits(Fill(ws[..|ws| - 1], m), ws[|ws| - 1], m);
    }
  }

  /** Every line is non-empty and within the budget, however long the words. */
  lemma EveryLineFits(text: string, m: nat)
    requires m >= 1
    ensures LinesFit(Wrapped(text, m), m)
  {
    FillFits(SplitWords(text), m);
  }

  // ------------------------------------------------------------------ nothing is lost

  lemma {:induction false} InkAppend(a: string, b: string)
    ensures Ink(a + b) == Ink(a) + Ink(b)
    decreases |b|
  {
    if b == [] {
      assert a + b == a;
    } else {
      InkAppend(a, b[..|b| - 1]);
      assert (a + b)[..|a + b| - 1] == a + b[..|b| - 1];
    }
  }

  lemma {:induction false} InkOfWord(w: string)
    requires SpaceFree(w)
    ensures Ink(w) == w
  {
    if w != [] {
      InkOfWord(w[..|w| - 1]);
    }
  }

  lemma ConcatSnoc(a: Words, w: string)
    ensures Concat(a + [w]) == Concat(a) + w
  {
    assert (a + [w])[..|a|] == a;
  }

  lemma Assoc(a: string, b: string, c: string)
    ensures (a + b) + c == a + (b + c)
  {
  }

  lemma {:induction false} ConcatAppend(a: Words, b: Words)
    ensures Concat(a + b) == Concat(a) + Concat(b)
    decreases |b|
  {
    if b == [] {
      assert a + b == a;
    } else {
      var init, w := b[..|b| - 1], b[|b| - 1];
      ConcatAppend(a, init);
      ConcatSnoc(a + init, w);
      ConcatSnoc(init, w);
      hide Concat;
      assert (a + init) + [w] == a + b && init + [w] == b;
      Assoc(Concat(a), Concat(init), w);
    }
  }

  lemma ConcatOne(w: string)
    ensures Concat([w]) == w
  {
    assert [w][..0] == [];
  }

  /** The words hold all the ink of the text. */
  lemma {:induction false} WordsAreInk(s: string)
    ensures Concat(SplitWords(s)) == Ink(s)
    decreases |s|
  {
    if s != [] {
      var n := if IsSpace(s[0]) then 1 else WordLength(s);
      assert s == s[..n] + s[n..];
      InkAppend(s[..n], s[n..]);
      WordsAreInk(s[n..]);
      if IsSpace(s[0]) {
        assert s[..1][..0] == [];
      } else {
        InkOfWord(s[..n]);
        ConcatAppend([s[..n]], SplitWords(s[n..]));
        ConcatOne(s[..n]);
      }
    }
  }

  /** The ink on the page so far. */
  function PageInk(p: Page): string {
    Ink(Concat(p.out)) + Ink(p.line)
  }

  lemma AddInk(out: Words, w: string)
    ensures Ink(Concat(out + [w])) == Ink(Concat(out)) + Ink(w)
  {
    ConcatSnoc(out, w);
    InkAppend(Concat(out), w);
  }

  lemma FlushInk(p: Page)
    ensures Ink(Concat(Flush(p))) == PageInk(p)
  {
    AddInk(p.out, p.line);
  }

  lemma CutInk(p: Page, word: string, head: string, tail: string)
    requires word == head + tail
    ensures PageInk(Page(Flush(p) + [head], [])) + Ink(tail) == PageInk(p) + Ink(word)
  {
    var out := Flush(p) + [head];
    assert PageInk(Page(out, [])) == Ink(Concat(out)) + [];
    hide Ink, Concat, Flush, PageInk;
    AddInk(Flush(p), head);
    FlushInk(p);
    InkAppend(head, tail);
    Assoc(PageInk(p), Ink(head), Ink(tail));
  }

  lemma {:induction false} HardSplitInk(p: Page, word: string, m: nat)
    requires m >= 1
    ensures var (p', rest) := HardSplit(p, word, m); PageInk(p') + Ink(rest) == PageInk(p) + Ink(word)
    decreases |word|
  {
    if |word| > m {
      CutInk(p, word, word[..m], word[m..]);
      HardSplitInk(Page(Flush(p) + [word[..m]], []), word[m..], m);
    }
  }

  lemma SpacedInk(line: string, word: string)
    ensures Ink(line + " " + word) == Ink(line) + Ink(word)
  {
    SpaceHasNoInk();
    hide Ink;
    InkAppend(line + " ", word);
    InkAppend(line, " ");
    assert Ink(line) + [] == Ink(line);
  }

  lemma SpaceHasNoInk()
    ensures Ink(" ") == []
  {
    assert " "[..0] == [];
  }

  lemma PlaceInk(p: Page, word: string, m: nat)
    ensures PageInk(Place(p, word, m)) == PageInk(p) + Ink(word)
  {
    if p.line == [] {
      assert Ink(Concat(p.out)) + Ink([]) == Ink(Concat(p.out));
    } else if |p.line| + 1 + |word| <= m {
      SpacedInk(p.line, word);
    } else {
      AddInk(p.out, p.line);
    }
  }

  lemma {:induction false} FillInk(ws: Words, m: nat)
    requires m >= 1
    ensures PageInk(Fill(ws, m)) == Ink(Concat(ws))
  {
    if ws != [] {
      var init, last := ws[..|ws| - 1], ws[|ws| - 1];
      FillInk(init, m);
      HardSplitInk(Fill(init, m), last, m);
      var (p, rest) := HardSplit(Fill(init, m), last, m);
      PlaceInk(p, rest, m);
      InkAppend(Concat(init), last);
    }
  }

  /** No character but space is lost, doubled or moved. */
  lemma NothingIsLost(text: string, m: nat)
    requires m >= 1
    ensures Ink(Concat(Wrapped(text, m))) == Ink(text)
  {
    var ws := SplitWords(text);
    FillInk(ws, m);
    FlushInk(Fill(ws, m));
    InkOfInk(Concat(ws));
    WordsAreInk(text);
    InkOfInk(text);
  }

  lemma {:induction false} InkOfInk(s: string)
    ensures Ink(Ink(s)) == Ink(s)
  {
    if s != [] {
      var last := s[|s| - 1];
      InkOfInk(s[..|s| - 1]);
      InkAppend(Ink(s[..|s| - 1]), if IsSpace(last) then [] else [last]);
      assert [last][..0] == [];
    }
  }

  // ------------------------------------------------------------------ short words

  ghost predicate ShortWords(ws: Words, m: nat) {
    forall k :: 0 <= k < |ws| ==> IsWord(ws[k]) && |ws[k]| <= m
  }

  function Flatten(gs: seq<Words>): Words {
    if gs == [] then [] else Flatten(gs[..|gs| - 1]) + gs[|gs| - 1]
  }

  function JoinAll(gs: seq<Words>): Words {
    seq(|gs|, i requires 0 <= i < |gs| => Join(gs[i]))
  }

  /** A wrap of `ws`: the same words in the same order, cut into non-empty lines that fit. */
  ghost predicate IsWrap(gs: seq<Words>, ws: Words, m: nat) {
    && Flatten(gs) == ws
    && forall k :: 0 <= k < |gs| ==> gs[k] != [] && |Join(gs[k])| <= m
  }

  /** The greedy wrap of short words, as groups of words. */
  function Groups(ws: Words, m: nat): (gs: seq<Words>)
    ensures ws != [] ==> gs != []
    ensures forall k :: 0 <= k < |gs| ==> gs[k] != []
  {
    if ws == [] then []
    else
      var gs, w := Groups(ws[..|ws| - 1], m), ws[|ws| - 1];
      if gs != [] && |Join(gs[|gs| - 1])| + 1 + |w| <= m
      then gs[..|gs| - 1] + [gs[|gs| - 1] + [w]]
      else gs + [[w]]
  }

  lemma JoinSnoc(g: Words, w: string)
    ensures Join(g + [w]) == if g == [] then w else Join(g) + " " + w
  {
    assert (g + [w])[..|g|] == g;
  }

  lemma FlattenSnoc(gs: seq<Words>, g: Words)
    ensures Flatten(gs + [g]) == Flatten(gs) + g
  {
    assert (gs + [g])[..|gs|] == gs;
  }

  lemma FlattenExtended(front: seq<Words>, last: Words, w: string)
    ensures Flatten(front + [last + [w]]) == Flatten(front + [last]) + [w]
  {
    FlattenSnoc(front, last + [w]);
    FlattenSnoc(front, last);
    assert Flatten(front) + (last + [w]) == (Flatten(front) + last) + [w];
  }

  lemma ExtendLastLine(front: seq<Words>, last: Words, ws: Words, w: string, m: nat)
    requires IsWrap(front + [last], ws, m) && |Join(last)| + 1 + |w| <= m
    ensures IsWrap(front + [last + [w]], ws + [w], m)
  {
    FlattenExtended(front, last, w);
    JoinSnoc(last, w);
    var gs := front + [last];
    assert gs[|gs| - 1] == last;
    assert forall k :: 0 <= k < |front| ==> front[k] == gs[k];
  }

  lemma AddLine(gs: seq<Words>, ws: Words, w: string, m: nat)
    requires IsWrap(gs, ws, m) && |w| <= m
    ensures IsWrap(gs + [[w]], ws + [w], m)
  {
    FlattenSnoc(gs, [w]);
  }

  lemma {:induction false} GroupsAreAWrap(ws: Words, m: nat)
    requires ShortWords(ws, m)
    ensures IsWrap(Groups(ws, m), ws, m)
  {
    if ws != [] {
      var init, w := ws[..|ws| - 1], ws[|ws| - 1];
      GroupsAreAWrap(init, m);
      var gs := Groups(init, m);
      assert init + [w] == ws;
      if gs != [] && |Join(gs[|gs| - 1])| + 1 + |w| <= m {
        assert gs[..|gs| - 1] + [gs[|gs| - 1]] == gs;
        ExtendLastLine(gs[..|gs| - 1], gs[|gs| - 1], init, w, m);
      } else {
        AddLine(gs, init, w, m);
      }
    }
  }

  lemma JoinAllSnoc(gs: seq<Words>, g: Words)
    ensures JoinAll(gs + [g]) == JoinAll(gs) + [Join(g)]
  {
  }

  /** The page that shows the groups: all but the last are finished lines. */
  function Shown(gs: seq<Words>): Page {
    if gs == [] then Page([], []) else Page(JoinAll(gs[..|gs| - 1]), Join(gs[|gs| - 1]))
  }

  lemma ShownSnoc(front: seq<Words>, last: Words)
    ensures Shown(front + [last]) == Page(JoinAll(front), Join(last))
  {
    assert (front + [last])[..|front|] == front;
  }

  lemma PlaceGroup(front: seq<Words>, last: Words, w: string, m: nat)
    requires last != [] && Join(last) != []
    ensures Place(Shown(front + [last]), w, m) ==
            if |Join(last)| + 1 + |w| <= m then Shown(front + [last + [w]]) else Shown((front + [last]) + [[w]])
  {
    ShownSnoc(front, last);
    ShownSnoc(front, last + [w]);
    ShownSnoc(front + [last], [w]);
    JoinSnoc(last, w);
    JoinAllSnoc(front, last);
  }

  lemma {:induction false} LinesHaveInk(ws: Words, m: nat)
    requires ShortWords(ws, m) && ws != []
    ensures Join(Groups(ws, m)[|Groups(ws, m)| - 1]) != []
  {
    var gs := Groups(ws[..|ws| - 1], m);
    if gs != [] {
      JoinSnoc(gs[|gs| - 1], ws[|ws| - 1]);
    }
  }

  /** With no over-long word the loop fills exactly the greedy groups. */
  lemma {:induction false} FillIsGroups(ws: Words, m: nat)
    requires m >= 1 && ShortWords(ws, m)
    ensures Fill(ws, m) == Shown(Groups(ws, m))
  {
    if ws != [] {
      var init, w := ws[..|ws| - 1], ws[|ws| - 1];
      FillIsGroups(init, m);
      var gs := Groups(init, m);
      if init == [] {
        ShownSnoc([], [w]);
      } else {
        LinesHaveInk(init, m);
        assert gs[..|gs| - 1] + [gs[|gs| - 1]] == gs;
        PlaceGroup(gs[..|gs| - 1], gs[|gs| - 1], w, m);
      }
    }
  }

  lemma WrappedIsGroups(ws: Words, m: nat)
    requires m >= 1 && ShortWords(ws, m)
    ensures Flush(Fill(ws, m)) == JoinAll(Groups(ws, m))
  {
    FillIsGroups(ws, m);
    var gs := Groups(ws, m);
    if ws != [] {
      LinesHaveInk(ws, m);
      JoinAllSnoc(gs[..|gs| - 1], gs[|gs| - 1]);
      assert gs[..|gs| - 1] + [gs[|gs| - 1]] == gs;
    }
  }

  // ------------------------------------------------------------------ optimality

  /** Removing the last word from a wrap. */
  lemma DropLastWord(gs: seq<Words>, ws: Words, m: nat) returns (fewer: seq<Words>)
    requires IsWrap(gs, ws, m) && ws != []
    ensures IsWrap(fewer, ws[..|ws| - 1], m) && gs != []
    ensures var last, w := gs[|gs| - 1], ws[|ws| - 1];
            || (last == [w] && fewer == gs[..|gs| - 1])
            || (|fewer| == |gs| && |Join(last)| == |Join(fewer[|fewer| - 1])| + 1 + |w|)
  {
    var front, last := gs[..|gs| - 1], gs[|gs| - 1];
    var w := ws[|ws| - 1];
    assert last[|last| - 1] == w;
    if |last| == 1 {
      fewer := front;
      assert Flatten(front) == ws[..|ws| - 1];
    } else {
      var init := last[..|last| - 1];
      assert last == init + [w];
      JoinSnoc(init, w);
      fewer := front + [init];
      FlattenSnoc(front, init);
      assert Flatten(front) + init == ws[..|ws| - 1];
    }
  }

  /** One more word for the greedy wrap: onto the last line, or onto a line of its own. */
  lemma GreedyStep(ws: Words, m: nat)
    requires ws != []
    ensures var before, best, w := Groups(ws[..|ws| - 1], m), Groups(ws, m), ws[|ws| - 1];
            if before != [] && |Join(before[|before| - 1])| + 1 + |w| <= m
            then |best| == |before| && |Join(best[|best| - 1])| == |Join(before[|before| - 1])| + 1 + |w|
            else |best| == |before| + 1 && |Join(best[|best| - 1])| == |w|
  {
    var before, w := Groups(ws[..|ws| - 1], m), ws[|ws| - 1];
    if before != [] {
      JoinSnoc(before[|before| - 1], w);
    }
    JoinSnoc([], w);
    assert [] + [w] == [w];
  }

  /** Greedy is ahead of every other wrap: fewer lines, or as many with a last line no longer. */
  lemma {:induction false} GreedyStaysAhead(ws: Words, m: nat, gs: seq<Words>)
    requires ShortWords(ws, m) && IsWrap(gs, ws, m)
    ensures var best := Groups(ws, m);
            || |best| < |gs|
            || (|best| == |gs| && (best != [] ==> |Join(best[|best| - 1])| <= |Join(gs[|gs| - 1])|))
    decreases |ws|
  {
    if ws != [] {
      var init, w := ws[..|ws| - 1], ws[|ws| - 1];
      var fewer := DropLastWord(gs, ws, m);
      GreedyStaysAhead(init, m, fewer);
      hide Flatten, SpaceFree, Join;
      GreedyStep(ws, m);
      assert gs[|gs| - 1] == [w] ==> |Join(gs[|gs| - 1])| == |w| by {
        JoinSnoc([], w);
        assert [] + [w] == [w];
      }
      assert fewer != [] ==> |Join(fewer[|fewer| - 1])| <= m && |Join(gs[|gs| - 1])| <= m;
    }
  }

  // ------------------------------------------------------------------ rejoining

  lemma SplitSpaced(w: string, rest: string)
    requires IsWord(w) && (rest == [] || IsSpace(rest[0]))
    ensures SplitWords(" " + (w + rest)) == [w] + SplitWords(rest)
  {
    assert (" " + (w + rest))[1..] == w + rest;
    SplitFirst(w, rest);
  }

  lemma {:induction false} SplitJoined(ws: Words, rest: string)
    requires ws != [] && forall k :: 0 <= k < |ws| ==> IsWord(ws[k])
    requires rest == [] || IsSpace(rest[0])
    ensures SplitWords(Join(ws) + rest) == ws + SplitWords(rest)
    decreases |ws|
  {
    var init, w := ws[..|ws| - 1], ws[|ws| - 1];
    assert ws == init + [w];
    JoinSnoc(init, w);
    hide Join, SplitWords;
    if init == [] {
      SplitFirst(w, rest);
    } else {
      SpacedOut(Join(init), w, rest);
      SplitJoined(init, " " + (w + rest));
      SplitSpaced(w, rest);
      Regrouped(init, [w], SplitWords(rest));
    }
  }

  lemma SpacedOut(x: string, w: string, rest: string)
    ensures (x + " " + w) + rest == x + (" " + (w + rest))
  {
  }

  lemma Regrouped(a: Words, b: Words, c: Words)
    ensures (a + b) + c == a + (b + c)
  {
  }

  lemma {:induction false} WordLengthIs(w: string, rest: string)
    requires SpaceFree(w) && (rest == [] || IsSpace(rest[0]))
    ensures WordLength(w + rest) == |w|
  {
    if w == [] {
      assert w + rest == rest;
    } else {
      assert (w + rest)[1..] == w[1..] + rest;
      WordLengthIs(w[1..], rest);
    }
  }

  lemma SplitFirst(w: string, rest: string)
    requires IsWord(w) && (rest == [] || IsSpace(rest[0]))
    ensures SplitWords(w + rest) == [w] + SplitWords(rest)
  {
    WordLengthIs(w, rest);
    assert (w + rest)[..|w|] == w && (w + rest)[|w|..] == rest;
  }

  lemma {:induction false} JoinOfJoins(gs: seq<Words>)
    requires forall k :: 0 <= k < |gs| ==> gs[k] != []
    ensures Join(JoinAll(gs)) == Join(Flatten(gs))
  {
    if |gs| == 1 {
      assert Flatten(gs[..0]) == [] && Flatten(gs) == [] + gs[0] == gs[0];
      assert JoinAll(gs) == [Join(gs[0])];
    } else if |gs| > 1 {
      var front, last := gs[..|gs| - 1], gs[|gs| - 1];
      JoinOfJoins(front);
      assert JoinAll(gs) == JoinAll(front) + [Join(last)];
      JoinSnoc(JoinAll(front), Join(last));
      FlattenIsNotEmpty(front);
      JoinAppend(Flatten(front), last);
    }
  }

  lemma FlattenIsNotEmpty(gs: seq<Words>)
    requires gs != [] && gs[|gs| - 1] != []
    ensures Flatten(gs) != []
  {
  }

  lemma {:induction false} JoinAppend(a: Words, b: Words)
    requires a != [] && b != []
    ensures Join(a + b) == Join(a) + " " + Join(b)
    decreases |b|
  {
    var init, w := b[..|b| - 1], b[|b| - 1];
    assert a + b == (a + init) + [w] && b == init + [w];
    JoinSnoc(a + init, w);
    JoinSnoc(init, w);
    hide Join;
    if init == [] {
      assert a + init == a;
    } else {
      JoinAppend(a, init);
      SpacedApart(Join(a), Join(init), w);
    }
  }

  lemma SpacedApart(x: string, y: string, z: string)
    ensures (x + " " + y) + " " + z == x + " " + (y + " " + z)
  {
  }

  /** When no word exceeds the budget, joining the lines again gives back the very same words, and
      no wrap of these words into lines within the budget has fewer lines. */
  lemma WrapIsFaithfulAndShortest(text: string, m: nat, other: seq<Words>)
    requires m >= 1 && ShortWords(SplitWords(text), m)
    ensures SplitWords(Join(Wrapped(text, m))) == SplitWords(text)
    ensures IsWrap(other, SplitWords(text), m) ==> |Wrapped(text, m)| <= |other|
  {
    var ws := SplitWords(text);
    var gs := Groups(ws, m);
    WrappedIsGroups(ws, m);
    GroupsAreAWrap(ws, m);
    JoinOfJoins(gs);
    if ws != [] {
      SplitJoined(ws, []);
      assert Join(ws) + [] == Join(ws);
    } else {
      assert gs == [];
    }
    if IsWrap(other, ws, m) {
      GreedyStaysAhead(ws, m, other);
    }
  }
}
