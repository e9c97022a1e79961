/** What the upload reader gives back for the forms a browser sends. */
module MultipartTheorems {
  import opened Options
  import opened ByteStrings
  import opened Multipart

  // ------------------------------------------------------------------ the form a client writes

  datatype Field = Field(lines: seq<Bytes>, body: Bytes)

  predicate HeaderLine(l: Bytes) {
    l != [] && NoLineBreaks(l)
  }

  predicate WellFormed(f: Field) {
    forall k :: 0 <= k < |f.lines| ==> HeaderLine(f.lines[k])
  }

  /** The header lines, each after a line break. */
  function HeadText(lines: seq<Bytes>): Bytes {
    if lines == [] then [] else CRLF + (lines[0] + HeadText(lines[1..]))
  }

  /** What stands between two delimiters: headers, a blank line, the body, a line break. */
  function SectionFront(f: Field): Bytes {
    HeadText(f.lines) + BLANK + f.body
  }

  function Section(f: Field): Bytes {
    SectionFront(f) + CRLF
  }

  function EncodeRest(fields: seq<Field>, d: Bytes): Bytes {
    if fields == [] then "--" + CRLF else Section(fields[0]) + (d + EncodeRest(fields[1..], d))
  }

  /** The body of the request, with delimiter `d`. */
  function Encode(fields: seq<Field>, d: Bytes): Bytes {
    d + EncodeRest(fields, d)
  }

  /** What the fields mean, without any encoding. */
  function Meaning(u: Upload, fields: seq<Field>): Upload
    decreases |fields|
  {
    if fields == [] then u
    else Meaning(ReadField(u, [[]] + fields[0].lines, fields[0].body), fields[1..])
  }

  /** A delimiter a client may choose: `--` and a non-empty boundary without line breaks. */
  ghost predicate Delimiter(d: Bytes) {
    |d| > 2 && d[..2] == "--" && NoLineBreaks(d)
  }

  /** No header and no body contains the delimiter. */
  ghost predicate Clean(f: Field, d: Bytes) {
    !Contains(f.body, d) && forall k :: 0 <= k < |f.lines| ==> !Contains(f.lines[k], d)
  }

  // ------------------------------------------------------------------ one section

  /** An occurrence of a breakless delimiter lies on one side of any line break. */
  lemma ContainsAcross(y: Bytes, rest: Bytes, d: Bytes)
    requires d != [] && NoLineBreaks(d)
    ensures Contains(y + CRLF + rest, d) <==> Contains(y, d) || Contains(rest, d)
  {
    var s := y + CRLF + rest;
    FrontIsIndependent(y, rest, d);
    if Contains(s, d) {
      var i: nat :| At(s, d, i);
      if i < |y| + 2 {
        AtPrefix(y, CRLF, d, i);
      } else {
        AtShift(y + CRLF, rest, d, i - |y| - 2);
      }
    }
    if Contains(y, d) {
      var i: nat :| At(y, d, i);
      AtPrefix(y, CRLF + rest, d, i);
      assert y + (CRLF + rest) == s;
    }
    if Contains(rest, d) {
      var i: nat :| At(rest, d, i);
      AtShift(y + CRLF, rest, d, i);
    }
  }

  lemma EmptyIsClean(d: Bytes)
    requires d != []
    ensures !Contains([], d)
  {
  }

  lemma {:induction false} HeadIsClean(lines: seq<Bytes>, rest: Bytes, d: Bytes)
    requires d != [] && NoLineBreaks(d)
    requires forall k :: 0 <= k < |lines| ==> !Contains(lines[k], d)
    ensures Contains(HeadText(lines) + CRLF + rest, d) <==> Contains(rest, d)
    decreases |lines|
  {
    if lines == [] {
      assert HeadText(lines) + CRLF + rest == [] + CRLF + rest;
      ContainsAcross([], rest, d);
      EmptyIsClean(d);
    } else {
      var below := HeadText(lines[1..]) + CRLF + rest;
      HeadIsClean(lines[1..], rest, d);
      assert HeadText(lines) + CRLF + rest == [] + CRLF + (lines[0] + below);
      ContainsAcross([], lines[0] + below, d);
      EmptyIsClean(d);
      LineThenHead(lines[0], lines[1..], rest, d);
    }
  }

  lemma {:induction false} LineThenHead(line: Bytes, lines: seq<Bytes>, rest: Bytes, d: Bytes)
    requires d != [] && NoLineBreaks(d) && !Contains(line, d)
    requires Contains(HeadText(lines) + CRLF + rest, d) <==> Contains(rest, d)
    ensures Contains(line + (HeadText(lines) + CRLF + rest), d) <==> Contains(rest, d)
  {
    var below := HeadText(lines) + CRLF + rest;
    EmptyIsClean(d);
    if lines == [] {
      assert line + below == line + CRLF + rest;
      ContainsAcross(line, rest, d);
    } else {
      var tail := lines[0] + HeadText(lines[1..]) + CRLF + rest;
      assert below == [] + CRLF + tail;
      assert line + below == line + CRLF + tail;
      ContainsAcross(line, tail, d);
      ContainsAcross([], tail, d);
    }
  }

  /** A section contains the delimiter only where its body does. */
  lemma SectionContains(f: Field, d: Bytes)
    requires d != [] && NoLineBreaks(d)
    requires forall k :: 0 <= k < |f.lines| ==> !Contains(f.lines[k], d)
    ensures Contains(Section(f), d) <==> Contains(f.body, d)
  {
    EmptyIsClean(d);
    var rest := [] + CRLF + (f.body + CRLF + []);
    assert Section(f) == HeadText(f.lines) + CRLF + rest;
    HeadIsClean(f.lines, rest, d);
    ContainsAcross([], f.body + CRLF + [], d);
    ContainsAcross(f.body, [], d);
  }

  lemma NoBlankInLine(l: Bytes, rest: Bytes, i: nat)
    requires HeaderLine(l) && i < 2 + |l|
    ensures !At(CRLF + l + rest, BLANK, i)
  {
    var s := CRLF + l + rest;
    assert s[1] == '\n' && s[2] == l[0] && l[0] in l;
    assert i >= 2 ==> s[i] == l[i - 2] && l[i - 2] in l;
    if i + 4 <= |s| {
      var cut := s[i..i + 4];
      assert cut[0] == s[i] && cut[1] == s[i + 1] && cut[2] == s[i + 2];
    }
  }

  /** A header line before it only moves the first blank line. */
  lemma BlankMovesOn(l: Bytes, below: Bytes, n: nat)
    requires HeaderLine(l) && Leftmost(below, BLANK, n)
    ensures Leftmost(CRLF + l + below, BLANK, 2 + |l| + n)
  {
    var front := CRLF + l;
    AtShift(front, below, BLANK, n);
    forall i: nat | i < |front| + n
      ensures !At(front + below, BLANK, i)
    {
      if i >= |front| {
        AtShift(front, below, BLANK, i - |front|);
      } else {
        NoBlankInLine(l, below, i);
      }
    }
  }

  lemma LineFirst(l: Bytes, head: Bytes, b: Bytes, val: Bytes)
    ensures CRLF + (l + head) + b + val == CRLF + l + (head + b + val)
  {
  }

  /** The first blank line is the one that ends the headers. */
  lemma {:induction false} FirstBlank(lines: seq<Bytes>, val: Bytes)
    requires forall k :: 0 <= k < |lines| ==> HeaderLine(lines[k])
    ensures Find(HeadText(lines) + BLANK + val, BLANK) == Some(|HeadText(lines)|)
    decreases |lines|
  {
    hide Find, Contains;
    if lines == [] {
      var s := HeadText(lines) + BLANK + val;
      assert s[0..4] == BLANK;
      FindIsLeftmost(s, BLANK, 0);
    } else {
      var l, head := lines[0], HeadText(lines[1..]);
      FirstBlank(lines[1..], val);
      assert HeadText(lines) == CRLF + (l + head);
      hide At, Leftmost, HeaderLine, HeadText;
      FindSpec(head + BLANK + val, BLANK);
      BlankMovesOn(l, head + BLANK + val, |head|);
      LineFirst(l, head, BLANK, val);
      FindIsLeftmost(CRLF + l + (head + BLANK + val), BLANK, 2 + |l| + |head|);
    }
  }

  lemma NoBreakInLine(l: Bytes, rest: Bytes)
    requires NoLineBreaks(l)
    ensures forall i: nat :: i < |l| ==> !At(l + rest, CRLF, i)
  {
    var s := l + rest;
    forall i: nat | i < |l|
      ensures !At(s, CRLF, i)
    {
      assert s[i] == l[i] && l[i] in l;
      assert i + 2 <= |s| ==> s[i..i + 2][0] == s[i];
    }
  }

  lemma {:induction false} SplitLines(l: Bytes, lines: seq<Bytes>)
    requires NoLineBreaks(l) && forall k :: 0 <= k < |lines| ==> HeaderLine(lines[k])
    ensures Split(l + HeadText(lines), CRLF) == [l] + lines
    decreases |lines|
  {
    NoBreakInLine(l, HeadText(lines));
    if lines == [] {
      assert l + HeadText(lines) == l;
      assert !At(l, CRLF, |l|);
      SplitClean(l, CRLF);
    } else {
      var s := l + HeadText(lines);
      var below := lines[0] + HeadText(lines[1..]);
      assert s == l + CRLF + below;
      assert s[|l|..|l| + 2] == CRLF;
      SplitStep(s, CRLF, |l|);
      assert s[..|l|] == l && s[|l| + 2..] == below;
      SplitLines(lines[0], lines[1..]);
      assert lines == [lines[0]] + lines[1..];
    }
  }

  /** Reading a section whose body has no delimiter gives back exactly its headers and body. */
  lemma SectionIsRead(u: Upload, f: Field)
    requires WellFormed(f)
    ensures ReadPart(u, Section(f)) == ReadField(u, [[]] + f.lines, f.body)
  {
    var s := Section(f);
    var n := |HeadText(f.lines)|;
    FirstBlank(f.lines, f.body + CRLF);
    assert s == HeadText(f.lines) + BLANK + (f.body + CRLF);
    assert s[..n] == HeadText(f.lines) == [] + HeadText(f.lines);
    assert s[n + 4..] == f.body + CRLF;
    assert ChopBreak(f.body + CRLF) == f.body;
    SplitLines([], f.lines);
  }

  // ------------------------------------------------------------------ the whole form

  lemma ClosingIsClean(d: Bytes)
    requires Delimiter(d)
    ensures Split("--" + CRLF, d) == ["--" + CRLF]
  {
    var s := "--" + CRLF;
    forall i: nat
      ensures !At(s, d, i)
    {
      assert d[2] in d;
      assert i + |d| <= |s| ==> s[i..i + |d|][2] == s[i + 2];
    }
    SplitClean(s, d);
  }

  lemma {:induction false} ReadPartsAppend(u: Upload, xs: seq<Bytes>, ys: seq<Bytes>)
    ensures ReadParts(u, xs + ys) == ReadParts(ReadParts(u, xs), ys)
    decreases |xs|
  {
    if xs == [] {
      assert xs + ys == ys;
    } else {
      assert (xs + ys)[1..] == xs[1..] + ys;
      ReadPartsAppend(ReadPart(u, xs[0]), xs[1..], ys);
    }
  }

  lemma NothingToRead(u: Upload, part: Bytes)
    requires |part| <= 4 && part != BLANK
    ensures ReadPart(u, part) == u
  {
    assert |part| == 4 ==> part[0..4] == part;
    assert forall i: nat :: At(part, BLANK, i) ==> i == 0 && |part| == 4;
    FindSpec(part, BLANK);
  }

  /** Whatever the bodies contain, a form is read section by section. */
  lemma {:induction false} RestIsRead(u: Upload, f: Field, fields: seq<Field>, d: Bytes)
    requires Delimiter(d)
    ensures ReadParts(u, Split(EncodeRest([f] + fields, d), d))
         == ReadParts(ReadParts(u, Split(Section(f), d)), Split(EncodeRest(fields, d), d))
  {
    assert ([f] + fields)[1..] == fields;
    SplitAcross(SectionFront(f), EncodeRest(fields, d), d);
    ReadPartsAppend(u, Split(Section(f), d), Split(EncodeRest(fields, d), d));
  }

  lemma ClosingIsRead(u: Upload, d: Bytes)
    requires Delimiter(d)
    ensures ReadParts(u, Split(EncodeRest([], d), d)) == u
  {
    ClosingIsClean(d);
    OnePart(u, "--" + CRLF);
    assert ("--" + CRLF)[0] != BLANK[0];
    NothingToRead(u, "--" + CRLF);
  }

  lemma OnePart(u: Upload, part: Bytes)
    ensures ReadParts(u, [part]) == ReadPart(u, part)
  {
    assert [part][1..] == [];
  }

  lemma {:induction false} CleanFieldsAreRead(u: Upload, fields: seq<Field>, d: Bytes)
    requires Delimiter(d)
    requires forall k :: 0 <= k < |fields| ==> WellFormed(fields[k]) && Clean(fields[k], d)
    ensures ReadParts(u, Split(EncodeRest(fields, d), d)) == Meaning(u, fields)
    decreases |fields|
  {
    if fields == [] {
      ClosingIsRead(u, d);
    } else {
      var f, rest := fields[0], fields[1..];
      assert [f] + rest == fields;
      RestIsRead(u, f, rest, d);
      SectionContains(f, d);
      SplitClean(Section(f), d);
      OnePart(u, Section(f));
      SectionIsRead(u, f);
      CleanFieldsAreRead(ReadField(u, [[]] + f.lines, f.body), rest, d);
    }
  }

  lemma FirstDelimiter(fields: seq<Field>, d: Bytes, u: Upload)
    requires Delimiter(d)
    ensures ReadParts(u, Split(Encode(fields, d), d)) == ReadParts(u, Split(EncodeRest(fields, d), d))
  {
    var s := Encode(fields, d);
    assert s[0..|d|] == d;
    SplitStep(s, d, 0);
    assert s[..0] == [] && s[|d|..] == EncodeRest(fields, d);
    ReadPartsAppend(u, [[]], Split(EncodeRest(fields, d), d));
    OnePart(u, []);
    NothingToRead(u, []);
  }

  /** Any well-formed form whose headers and bodies avoid the delimiter is read as what it means:
      bodies of any bytes, any number of fields, any headers. */
  lemma FormRoundTrip(ctype: Bytes, fields: seq<Field>)
    requires IsForm(ctype) && Delimiter("--" + Boundary(ctype))
    requires forall k :: 0 <= k < |fields| ==> WellFormed(fields[k]) && Clean(fields[k], "--" + Boundary(ctype))
    ensures var raw := Encode(fields, "--" + Boundary(ctype));
            Read(ctype, |raw|, raw) == if |raw| > MAX_UPLOAD then TooLarge else Accepted(Meaning(DEFAULTS, fields))
  {
    var d := "--" + Boundary(ctype);
    var raw := Encode(fields, d);
    assert raw[..|raw|] == raw;
    FirstDelimiter(fields, d, DEFAULTS);
    CleanFieldsAreRead(DEFAULTS, fields, d);
  }
}
