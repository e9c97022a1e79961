/** The whole way of an upload: what the page sends against what the reader hands to the run. */
module UploadRoundTrip {
  import opened Options
  import opened ByteStrings
  import opened Decimal
  import opened Multipart
  import opened MultipartTheorems
  import opened UploadForm

  /** The page's two fields; a browser may add any headers of its own after the first. */
  function PageForm(filename: Bytes, extra: seq<Bytes>, body: Bytes, h: int): seq<Field> {
    [CsvField(filename, extra, body), HorizonField(h)]
  }

  function CsvField(filename: Bytes, extra: seq<Bytes>, body: Bytes): Field {
    Field([DispositionLine("csv", Some(filename))] + extra, body)
  }

  function HorizonField(h: int): Field {
    Field([DispositionLine("h", None)], ShowInt(h))
  }

  // ------------------------------------------------------------------ the boundary parameter

  const BOUNDARY_EQ: Bytes := "boundary="

  lemma NoBoundaryBefore(p: Bytes, r: Bytes)
    requires !Contains(p, BOUNDARY_EQ)
    ensures Leftmost(p + BOUNDARY_EQ + r, BOUNDARY_EQ, |p|)
  {
    var s := p + BOUNDARY_EQ + r;
    assert s[|p|..|p| + 9] == BOUNDARY_EQ;
    assert forall k :: 0 <= k < 8 ==> s[|p| + k] == BOUNDARY_EQ[k] != '=';
    forall i: nat | i < |p|
      ensures !At(s, BOUNDARY_EQ, i)
    {
      if At(s, BOUNDARY_EQ, i) {
        if i + 9 <= |p| {
          assert s == p + (BOUNDARY_EQ + r);
          AtPrefix(p, BOUNDARY_EQ + r, BOUNDARY_EQ, i);
        } else {
          AtChar(s, BOUNDARY_EQ, i, 8);
        }
      }
    }
  }

  /** The reader takes the first piece after `boundary=`, cut only by another `boundary=`. */
  lemma BoundaryIsFirstPiece(p: Bytes, r: Bytes)
    requires !Contains(p, BOUNDARY_EQ)
    ensures Boundary(p + BOUNDARY_EQ + r) == StripQuotes(StripSpace(Split(r, BOUNDARY_EQ)[0]))
  {
    NoBoundaryBefore(p, r);
    SplitAs(p + BOUNDARY_EQ + r, BOUNDARY_EQ, |p|, p, r);
  }

  /** The reader takes everything after `boundary=`: quotes and outer space are dropped, but a
      further parameter of the header would be taken for part of the boundary. */
  lemma BoundaryTakesTheRest(p: Bytes, r: Bytes)
    requires !Contains(p, BOUNDARY_EQ) && !Contains(r, BOUNDARY_EQ)
    ensures Boundary(p + BOUNDARY_EQ + r) == StripQuotes(StripSpace(r))
  {
    BoundaryIsFirstPiece(p, r);
    SplitClean(r, BOUNDARY_EQ);
  }

  /** Quotes around a text bring no `boundary=` into it. */
  lemma QuotesHideNothing(b: Bytes)
    requires !Contains(b, BOUNDARY_EQ)
    ensures !Contains(Quoted(b), BOUNDARY_EQ)
  {
    var s := Quoted(b);
    forall i: nat
      ensures !At(s, BOUNDARY_EQ, i)
    {
      if At(s, BOUNDARY_EQ, i) {
        var cut := s[i..i + 9];
        assert cut[0] == s[i] && cut[8] == s[i + 8];
        assert b[i - 1..i + 8] == cut;
        assert At(b, BOUNDARY_EQ, i - 1);
      }
    }
  }

  /** A boundary comes back from the header, bare or quoted. */
  lemma BoundaryIsRead(p: Bytes, b: Bytes)
    requires !Contains(p, BOUNDARY_EQ) && !Contains(b, BOUNDARY_EQ)
    requires QuoteFree(b) && Trimmed(b, IsSpace)
    ensures Boundary(p + BOUNDARY_EQ + b) == b
    ensures Boundary(p + BOUNDARY_EQ + Quoted(b)) == b
  {
    QuotesHideNothing(b);
    BoundaryTakesTheRest(p, b);
    BoundaryTakesTheRest(p, Quoted(b));
    StripTrimmed(b, IsSpace);
    if b != [] {
      assert b[0] in b && b[|b| - 1] in b;
    }
    StripTrimmed(b, (c: char) => c == '"');
    Unquoted(b);
  }

  predicate AllSpace(s: Bytes) {
    forall k :: 0 <= k < |s| ==> IsSpace(s[k])
  }

  /** What may follow a parameter in a header: optional space, then the next parameter if any. */
  predicate GoesOn(space: Bytes, rest: Bytes) {
    AllSpace(space) && (rest != [] ==> rest[0] == ';')
  }

  /** Exactly when the client's boundary comes back from a header that may go on with another
      parameter: when it does not.  Bare or quoted makes no difference, nor does space after it. */
  lemma BoundaryNeedsTheLastPlace(p: Bytes, b: Bytes, space: Bytes, rest: Bytes)
    requires !Contains(p, BOUNDARY_EQ) && !Contains(b, BOUNDARY_EQ) && QuoteFree(b) && Trimmed(b, IsSpace)
    requires GoesOn(space, rest)
    ensures Boundary(p + BOUNDARY_EQ + (b + space + rest)) == b <==> rest == []
    ensures Boundary(p + BOUNDARY_EQ + (Quoted(b) + space + rest)) == b <==> rest == []
  {
    hide Boundary, StripQuotes, StripSpace, AllSpace, Contains;
    QuotesHideNothing(b);
    BoundaryIsFirstPiece(p, b + space + rest);
    BoundaryIsFirstPiece(p, Quoted(b) + space + rest);
    var bare := FirstPieceGoesOn(b, space, rest);
    var quoted := FirstPieceGoesOn(Quoted(b), space, rest);
    if rest == [] {
      OuterSpaceIsDropped(b, space);
    } else {
      BareTailIsKept(b, space, bare);
      QuotedTailIsKept(b, space, quoted);
    }
  }

  /** The first piece holds everything up to the end of the space, and the semicolon if there is one. */
  lemma FirstPieceGoesOn(x: Bytes, space: Bytes, rest: Bytes) returns (rest': Bytes)
    requires !Contains(x, BOUNDARY_EQ) && GoesOn(space, rest)
    ensures rest' == [] <==> rest == []
    ensures GoesOn(space, rest') && Split(x + space + rest, BOUNDARY_EQ)[0] == x + space + rest'
  {
    var s := x + space + rest;
    FindSpec(s, BOUNDARY_EQ);
    if Find(s, BOUNDARY_EQ).None? {
      return rest;
    }
    var i := Find(s, BOUNDARY_EQ).value;
    CutComesLater(x, space, rest, i);
    rest' := rest[..i - |x + space|];
    assert s[..i] == x + space + rest';
  }

  /** Neither space nor a semicolon is a character of `boundary=`. */
  lemma CutComesLater(x: Bytes, space: Bytes, rest: Bytes, i: nat)
    requires !Contains(x, BOUNDARY_EQ) && GoesOn(space, rest) && At(x + space + rest, BOUNDARY_EQ, i)
    ensures rest != [] && i > |x + space|
  {
    var s := x + space + rest;
    assert forall k :: |x| <= k < |x + space| ==> s[k] == space[k - |x|] && IsSpace(space[k - |x|]);
    assert rest != [] ==> s[|x + space|] == rest[0];
    if i + 9 <= |x| {
      assert s == x + (space + rest);
      AtPrefix(x, space + rest, BOUNDARY_EQ, i);
    } else {
      AtChar(s, BOUNDARY_EQ, i, if i < |x| then |x| - i else 0);
    }
  }

  lemma AtChar(s: Bytes, d: Bytes, i: nat, k: nat)
    requires At(s, d, i) && k < |d|
    ensures i + k < |s| && s[i + k] == d[k]
  {
    assert s[i..i + |d|][k] == s[i + k];
  }

  /** Stripping keeps everything between two characters that it does not drop. */
  lemma StripKeeps(s: Bytes, drop: char -> bool, i: nat, j: nat)
    requires i <= j < |s| && !drop(s[i]) && !drop(s[j])
    ensures |Strip(s, drop)| > j - i
    ensures i == 0 ==> Strip(s, drop) == s[..|Strip(s, drop)|]
  {
    var l := StripLeft(s, drop);
    var gone := |s| - |l|;
    assert gone <= i && l[j - gone] == s[j];
    var r := StripRight(l, drop);
    assert j - gone < |r|;
  }

  lemma OuterSpaceIsDropped(b: Bytes, space: Bytes)
    requires QuoteFree(b) && Trimmed(b, IsSpace) && AllSpace(space)
    ensures StripQuotes(StripSpace(b + space + [])) == b
    ensures StripQuotes(StripSpace(Quoted(b) + space + [])) == b
  {
    QuotesStay(b);
    hide *;
    PaddedOnTheRight(b, space);
    PaddedOnTheRight(Quoted(b), space);
  }

  lemma QuotesStay(b: Bytes)
    requires QuoteFree(b)
    ensures StripQuotes(b) == b && StripQuotes(Quoted(b)) == b && Trimmed(Quoted(b), IsSpace)
  {
    hide Strip;
    Unquoted(b);
    StripTrimmed(Quoted(b), IsSpace);
    if b != [] {
      assert b[0] in b && b[|b| - 1] in b;
    }
    StripTrimmed(b, (c: char) => c == '"');
  }

  lemma PaddedOnTheRight(core: Bytes, space: Bytes)
    requires Trimmed(core, IsSpace) && AllSpace(space)
    ensures StripSpace(core + space + []) == core
  {
    assert core + space + [] == [] + core + space;
    if core != [] {
      StripPadded([], core, space, IsSpace);
    } else {
      assert core + space + [] == space;
    }
  }

  lemma BareTailIsKept(b: Bytes, space: Bytes, rest: Bytes)
    requires QuoteFree(b) && Trimmed(b, IsSpace) && GoesOn(space, rest) && rest != []
    ensures StripQuotes(StripSpace(b + space + rest)) != b
  {
    var s := b + space + rest;
    var j := |b| + |space|;
    assert s[j] == ';' && (b != [] ==> s[0] == b[0] && b[0] in b);
    if b != [] {
      StripKeeps(s, IsSpace, 0, j);
      StripKeeps(StripSpace(s), (c: char) => c == '"', 0, j);
    } else {
      SemicolonStays(s, j);
    }
  }

  /** Stripping a text down to nothing takes a text of droppable characters only. */
  lemma SemicolonStays(s: Bytes, j: nat)
    requires j < |s| && s[j] == ';' && forall k :: 0 <= k < j ==> IsSpace(s[k])
    ensures StripQuotes(StripSpace(s)) != []
  {
    var l := StripLeft(s, IsSpace);
    assert |l| == |s| - j && l[0] == ';';
    StripKeeps(l, IsSpace, 0, 0);
    assert Strip(l, IsSpace) == StripSpace(s);
    StripKeeps(StripSpace(s), (c: char) => c == '"', 0, 0);
  }

  lemma QuotedTailIsKept(b: Bytes, space: Bytes, rest: Bytes)
    requires QuoteFree(b) && GoesOn(space, rest) && rest != []
    ensures StripQuotes(StripSpace(Quoted(b) + space + rest)) != b
  {
    var s := Quoted(b) + space + rest;
    var j := |b| + 2 + |space|;
    assert s[0] == '"' && s[j] == ';' && (b != [] ==> s[1] == b[0] && b[0] in b);
    StripKeeps(s, IsSpace, 0, j);
    StripKeeps(StripSpace(s), (c: char) => c == '"', if b == [] then j else 1, j);
  }

  /** So a header with one more parameter is misread. */
  lemma CharsetJoinsTheBoundary(r: Bytes)
    requires r == "B; charset=utf-8"
    ensures Boundary("multipart/form-data; " + BOUNDARY_EQ + r) == r
  {
    hide Boundary;
    NoSuchStart(r, BOUNDARY_EQ);
    NoSuchStart("multipart/form-data; ", BOUNDARY_EQ);
    BoundaryIsRead("multipart/form-data; ", r);
  }

  lemma NoSuchStart(s: Bytes, d: Bytes)
    requires d != [] && d[0] !in s
    ensures !Contains(s, d)
  {
    forall i: nat
      ensures !At(s, d, i)
    {
      assert i + |d| <= |s| ==> s[i..i + |d|][0] == s[i];
    }
  }

  // ------------------------------------------------------------------ the two fields

  lemma LowerOfHead(rest: Bytes)
    ensures StartsWith(Lower("Content-Disposition:" + rest), DISPOSITION)
  {
    var head: Bytes := "Content-Disposition:";
    var low := Lower(head + rest);
    assert |head| == |DISPOSITION|;
    forall k | 0 <= k < |head|
      ensures low[k] == DISPOSITION[k]
    {
      assert low[k] == LowerChar(head[k]);
    }
    assert low[..|DISPOSITION|] == DISPOSITION;
  }

  lemma DispositionIsFound(name: Bytes, filename: Option<Bytes>, extra: seq<Bytes>)
    ensures Disposition([[]] + ([DispositionLine(name, filename)] + extra)) == DispositionLine(name, filename)
  {
    var line := DispositionLine(name, filename);
    assert |FORM_DATA| == 30;
    assert FORM_DATA[..20] == "Content-Disposition:";
    assert line == "Content-Disposition:" + line[20..];
    LowerOfHead(line[20..]);
    var lines := [[]] + ([line] + extra);
    assert Lower([]) == [];
    assert lines[1..][0] == line;
  }

  lemma FieldsAreRouted(filename: Bytes)
    requires SentName(filename)
    ensures RoutedAsCsv(DispositionLine("csv", Some(filename)))
    ensures !RoutedAsCsv(DispositionLine("h", None)) && Find(DispositionLine("h", None), NAME_H).Some?
  {
    RoutingExact("csv", filename, "csv");
    PlainRoutingExact("h", "csv");
    PlainRoutingExact("h", "h");
    assert NameIs("csv") == NAME_CSV && NameIs("h") == NAME_H;
    RoutedSpec(DispositionLine("csv", Some(filename)));
    RoutedSpec(DispositionLine("h", None));
  }

  lemma CsvFieldIsRead(filename: Bytes, extra: seq<Bytes>, body: Bytes)
    requires SentName(filename)
    ensures ReadField(DEFAULTS, [[]] + CsvField(filename, extra, body).lines, body)
         == Upload(NameRead(filename), body, PAPER_HORIZON)
  {
    DispositionIsFound("csv", Some(filename), extra);
    FieldsAreRouted(filename);
  }

  lemma HorizonFieldIsRead(u: Upload, h: int)
    ensures ReadField(u, [[]] + HorizonField(h).lines, HorizonField(h).body) == u.(h := Horizon(ShowInt(h)))
  {
    assert HorizonField(h).lines == [DispositionLine("h", None)] + [];
    DispositionIsFound("h", None, []);
    FieldsAreRouted([]);
  }

  lemma LinesAreWellFormed(filename: Bytes, extra: seq<Bytes>, body: Bytes, h: int)
    requires SentName(filename) && forall k :: 0 <= k < |extra| ==> HeaderLine(extra[k])
    ensures WellFormed(CsvField(filename, extra, body)) && WellFormed(HorizonField(h))
  {
    DispositionIsOneLine("csv", Some(filename));
    DispositionIsOneLine("h", None);
    hide DispositionLine, NoLineBreaks;
  }

  lemma DispositionIsOneLine(name: Bytes, filename: Option<Bytes>)
    requires NoLineBreaks(name) && (filename.Some? ==> NoLineBreaks(filename.value))
    ensures HeaderLine(DispositionLine(name, filename))
  {
    assert NoLineBreaks(FORM_DATA) && NoLineBreaks(NameToken(name));
    assert filename.Some? ==> NoLineBreaks(FileToken(filename.value));
  }

  lemma TwoFields(a: Field, b: Field, u0: Upload, u1: Upload, u2: Upload)
    requires u1 == ReadField(u0, [[]] + a.lines, a.body) && u2 == ReadField(u1, [[]] + b.lines, b.body)
    ensures Meaning(u0, [a, b]) == u2
  {
    assert [a, b][1..] == [b] && [b][1..] == [];
    assert Meaning(u0, [a, b]) == Meaning(u1, [b]);
    assert Meaning(u2, []) == u2;
  }

  /** What the page's two fields mean. */
  function Received(filename: Bytes, body: Bytes, h: int): Upload {
    Upload(NameRead(filename), body, if |ShowNat(if h < 0 then -h else h)| <= MAX_DIGITS then h else PAPER_HORIZON)
  }

  lemma MeaningOfPage(filename: Bytes, extra: seq<Bytes>, body: Bytes, h: int)
    requires SentName(filename)
    ensures Meaning(DEFAULTS, PageForm(filename, extra, body, h)) == Received(filename, body, h)
  {
    var u := Upload(NameRead(filename), body, PAPER_HORIZON);
    CsvFieldIsRead(filename, extra, body);
    HorizonFieldIsRead(u, h);
    IntRoundTrip(h);
    TwoFields(CsvField(filename, extra, body), HorizonField(h), DEFAULTS, u, Received(filename, body, h));
  }

  /** No two dashes in a row. */
  predicate NoDashPair(s: Bytes) {
    forall i :: 0 < i < |s| ==> s[i - 1] != '-' || s[i] != '-'
  }

  lemma NoPairNoDelimiter(s: Bytes, d: Bytes)
    requires Delimiter(d) && NoDashPair(s)
    ensures !Contains(s, d)
  {
    assert d[0] == d[..2][0] && d[1] == d[..2][1];
    forall i: nat
      ensures !At(s, d, i)
    {
      if At(s, d, i) {
        AtChar(s, d, i, 0);
        AtChar(s, d, i, 1);
      }
    }
  }

  lemma DispositionHasNoDashPair(name: Bytes, filename: Option<Bytes>)
    requires '-' !in name && (filename.Some? ==> '-' !in filename.value)
    ensures NoDashPair(DispositionLine(name, filename))
  {
    var line := DispositionLine(name, filename);
    assert '-' !in NameToken(name) && (filename.Some? ==> '-' !in FileToken(filename.value));
    assert forall i :: |FORM_DATA| <= i < |line| ==> line[i] != '-';
    assert NoDashPair(FORM_DATA) && line[..|FORM_DATA|] == FORM_DATA;
    assert forall i :: 0 <= i < |FORM_DATA| ==> line[i] == FORM_DATA[i];
  }

  /** The horizon field holds no delimiter, whatever the boundary. */
  lemma HorizonIsClean(h: int, d: Bytes)
    requires Delimiter(d)
    ensures Clean(HorizonField(h), d)
  {
    var shown := ShowInt(h);
    assert forall i :: 0 < i < |shown| ==> shown[i] in ShowNat(if h < 0 then -h else h);
    NoPairNoDelimiter(ShowInt(h), d);
    DispositionHasNoDashPair("h", None);
    NoPairNoDelimiter(DispositionLine("h", None), d);
  }

  /** Whatever the page sends comes back: the file byte for byte (ending in line breaks or dashes,
      holding blank lines, empty), its name exactly when it has one without a semicolon, and the
      horizon up to the interpreter's digit limit. */
  lemma PageRoundTrip(ctype: Bytes, filename: Bytes, extra: seq<Bytes>, body: Bytes, h: int)
    requires IsForm(ctype) && Delimiter("--" + Boundary(ctype))
    requires SentName(filename) && forall k :: 0 <= k < |extra| ==> HeaderLine(extra[k])
    requires Clean(CsvField(filename, extra, body), "--" + Boundary(ctype))
    ensures var raw := Encode(PageForm(filename, extra, body, h), "--" + Boundary(ctype));
            Read(ctype, |raw|, raw) == if |raw| > MAX_UPLOAD then TooLarge else Accepted(Received(filename, body, h))
    ensures Received(filename, body, h).name == filename <==> filename != [] && ';' !in filename
  {
    hide Boundary, IsForm, Contains, Meaning, Encode, NameRead, HorizonField, CsvField, WellFormed;
    NameSurvivesExactly(filename);
    HorizonIsClean(h, "--" + Boundary(ctype));
    LinesAreWellFormed(filename, extra, body, h);
    FormRoundTrip(ctype, PageForm(filename, extra, body, h));
    MeaningOfPage(filename, extra, body, h);
  }

  // ------------------------------------------------------------------ when the body does not survive

  lemma ShortParts(u: Upload, parts: seq<Bytes>, m: nat)
    requires |u.text| < m && forall k :: 0 <= k < |parts| ==> |parts[k]| < m + 4
    ensures |ReadParts(u, parts).text| < m
    decreases |parts|
  {
    if parts != [] {
      assert |ReadPart(u, parts[0]).text| < m;
      ShortParts(ReadPart(u, parts[0]), parts[1..], m);
    }
  }

  lemma BodySlices(f: Field, i: nat, j: nat)
    requires i <= j <= |f.body|
    ensures var n := |HeadText(f.lines)| + 4;
            && SectionFront(f)[..n + i] == HeadText(f.lines) + BLANK + f.body[..i]
            && SectionFront(f)[n + j..] == f.body[j..]
  {
  }

  /** The first cut of a section whose body holds the delimiter falls inside the body. */
  lemma CutInBody(f: Field, d: Bytes) returns (i: nat)
    requires Delimiter(d) && Contains(f.body, d)
    requires forall k :: 0 <= k < |f.lines| ==> !Contains(f.lines[k], d)
    ensures i + |d| <= |f.body|
    ensures Split(Section(f), d) == [HeadText(f.lines) + BLANK + f.body[..i]] + Split(f.body[i + |d|..] + CRLF, d)
  {
    hide Find, Contains, Split, HeadText;
    SectionContains(f, d);
    FindSpec(Section(f), d);
    var j := Find(Section(f), d).value;
    LeftmostInFront(SectionFront(f), [], d, j);
    HeadHasNoCut(f, d, j);
    i := j - |HeadText(f.lines)| - 4;
    BodySlices(f, i, i + |d|);
    CutFront(SectionFront(f), d, j, f.body[i + |d|..] + CRLF);
  }

  lemma HeadHasNoCut(f: Field, d: Bytes, j: nat)
    requires Delimiter(d) && At(Section(f), d, j)
    requires forall k :: 0 <= k < |f.lines| ==> !Contains(f.lines[k], d)
    ensures j >= |HeadText(f.lines)| + 4
  {
    var head := HeadText(f.lines);
    assert Section(f) == (head + CRLF) + CRLF + (f.body + CRLF);
    EmptyIsClean(d);
    HeadIsClean(f.lines, [], d);
    assert head + CRLF + [] == head + CRLF;
    FrontIsIndependent(head + CRLF, f.body + CRLF, d);
    if j < |head| + 4 {
      AtPrefix(head + CRLF, CRLF, d, j);
    }
  }

  /** Exactly when the file survives: not when its text holds `--boundary` anywhere, at the start of
      a line or not, for then the reader stops there.  Everything else about the form is as above. */
  lemma BodySurvivesExactly(ctype: Bytes, filename: Bytes, extra: seq<Bytes>, body: Bytes, h: int)
    requires IsForm(ctype) && Delimiter("--" + Boundary(ctype))
    requires SentName(filename) && forall k :: 0 <= k < |extra| ==> HeaderLine(extra[k])
    requires Clean(CsvField(filename, extra, []), "--" + Boundary(ctype))
    requires |Encode(PageForm(filename, extra, body, h), "--" + Boundary(ctype))| <= MAX_UPLOAD
    ensures var raw := Encode(PageForm(filename, extra, body, h), "--" + Boundary(ctype));
            && Read(ctype, |raw|, raw).Accepted?
            && (Read(ctype, |raw|, raw).upload.text == body <==> !Contains(body, "--" + Boundary(ctype)))
  {
    hide Boundary, IsForm, Contains, Encode, PageForm, CsvField, ReadParts, Split, Clean;
    var d := "--" + Boundary(ctype);
    if !Contains(body, d) {
      WholeFieldIsClean(filename, extra, body, d);
      PageRoundTrip(ctype, filename, extra, body, h);
    } else {
      BodyIsCut(filename, extra, body, h, d);
      var raw := Encode(PageForm(filename, extra, body, h), d);
      assert raw[..|raw|] == raw;
    }
  }

  lemma WholeFieldIsClean(filename: Bytes, extra: seq<Bytes>, body: Bytes, d: Bytes)
    requires Clean(CsvField(filename, extra, []), d) && !Contains(body, d)
    ensures Clean(CsvField(filename, extra, body), d)
  {
    assert CsvField(filename, extra, body).lines == CsvField(filename, extra, []).lines;
  }

  lemma BodyIsCut(filename: Bytes, extra: seq<Bytes>, body: Bytes, h: int, d: Bytes)
    requires Delimiter(d) && Contains(body, d)
    requires SentName(filename) && forall k :: 0 <= k < |extra| ==> HeaderLine(extra[k])
    requires Clean(CsvField(filename, extra, []), d)
    ensures |ReadParts(DEFAULTS, Split(Encode(PageForm(filename, extra, body, h), d), d)).text| < |body|
  {
    var csv, horizon := CsvField(filename, extra, body), HorizonField(h);
    assert csv.lines == CsvField(filename, extra, []).lines;
    HorizonIsClean(h, d);
    LinesAreWellFormed(filename, extra, body, h);
    FirstDelimiter([csv, horizon], d, DEFAULTS);
    assert [csv, horizon] == [csv] + [horizon] && [horizon] == [horizon] + [];
    RestIsRead(DEFAULTS, csv, [horizon], d);
    var u := ReadParts(DEFAULTS, Split(Section(csv), d));
    CutSectionIsShort(csv, d);
    RestIsRead(u, horizon, [], d);
    SectionContains(horizon, d);
    SplitClean(Section(horizon), d);
    OnePart(u, Section(horizon));
    SectionIsRead(u, horizon);
    HorizonFieldIsRead(u, h);
    ClosingIsRead(ReadPart(u, Section(horizon)), d);
  }

  lemma CutSectionIsShort(f: Field, d: Bytes)
    requires Delimiter(d) && Contains(f.body, d) && WellFormed(f)
    requires forall k :: 0 <= k < |f.lines| ==> !Contains(f.lines[k], d)
    ensures |ReadParts(DEFAULTS, Split(Section(f), d)).text| < |f.body|
  {
    var i := CutInBody(f, d);
    var head, rest := HeadText(f.lines) + BLANK + f.body[..i], f.body[i + |d|..] + CRLF;
    FirstBlank(f.lines, f.body[..i]);
    assert head[|HeadText(f.lines)| + 4..] == f.body[..i];
    var u := ReadPart(DEFAULTS, head);
    assert |u.text| <= i;
    forall k | 0 <= k < |Split(rest, d)|
      ensures |Split(rest, d)[k]| < |f.body| + 4
    {
      PiecesAreShort(rest, d, k);
    }
    ReadPartsAppend(DEFAULTS, [head], Split(rest, d));
    OnePart(DEFAULTS, head);
    ShortParts(u, Split(rest, d), |f.body|);
  }

  /** The delimiter of RFC 2046 section 5.1.1 begins with a line break; the reader's does not.  This
      file has no such delimiter, and the reader hands on another one all the same. */
  lemma InnerDashesCutTheFile(ctype: Bytes, body: Bytes)
    requires ctype == "multipart/form-data; " + BOUNDARY_EQ + "B" && body == "a,--B"
    ensures var raw := Encode(PageForm("f", [], body, PAPER_HORIZON), "--B");
            && IsForm(ctype) && Boundary(ctype) == "B" && !Contains(body, CRLF + "--B")
            && Read(ctype, |raw|, raw).Accepted? && Read(ctype, |raw|, raw).upload.text != body
  {
    hide *;
    ShortFormOfB(ctype, body);
    DelimiterCutsTheFile(ctype, "f", body, "--B");
  }

  lemma ShortFormOfB(ctype: Bytes, body: Bytes)
    requires ctype == "multipart/form-data; " + BOUNDARY_EQ + "B" && body == "a,--B"
    ensures IsForm(ctype) && Boundary(ctype) == "B" && Delimiter("--B") && "--" + Boundary(ctype) == "--B"
    ensures !Contains(body, CRLF + "--B") && Contains(body, "--B")
    ensures SentName("f") && Clean(CsvField("f", [], []), "--B")
    ensures |Encode(PageForm("f", [], body, PAPER_HORIZON), "--B")| <= MAX_UPLOAD
  {
    hide *;
    FormOfB(ctype);
    DashesInside(body);
    IsDelimiter("--B");
    CsvHeadIsClean("--B");
    ShortForm(body);
  }

  lemma IsDelimiter(d: Bytes)
    requires d == "--B"
    ensures Delimiter(d)
  {
  }

  lemma DelimiterCutsTheFile(ctype: Bytes, filename: Bytes, body: Bytes, d: Bytes)
    requires IsForm(ctype) && d == "--" + Boundary(ctype) && Delimiter(d) && SentName(filename)
    requires Clean(CsvField(filename, [], []), d) && Contains(body, d)
    requires |Encode(PageForm(filename, [], body, PAPER_HORIZON), d)| <= MAX_UPLOAD
    ensures var raw := Encode(PageForm(filename, [], body, PAPER_HORIZON), d);
            Read(ctype, |raw|, raw).Accepted? && Read(ctype, |raw|, raw).upload.text != body
  {
    hide *;
    BodySurvivesExactly(ctype, filename, [], body, PAPER_HORIZON);
  }

  lemma FormOfB(ctype: Bytes)
    requires ctype == "multipart/form-data; " + BOUNDARY_EQ + "B"
    ensures IsForm(ctype) && Boundary(ctype) == "B" && "--" + Boundary(ctype) == "--B"
  {
    hide Boundary, Find, Contains;
    NoSuchStart("B", BOUNDARY_EQ);
    NoSuchStart("multipart/form-data; ", BOUNDARY_EQ);
    BoundaryIsRead("multipart/form-data; ", "B");
    HeaderIsForm(ctype, "multipart/form-data; ", "B");
  }

  lemma HeaderIsForm(ctype: Bytes, p: Bytes, r: Bytes)
    requires ctype == p + BOUNDARY_EQ + r && p == "multipart/form-data; "
    ensures IsForm(ctype)
  {
    hide Find;
    var form: Bytes := "multipart/form-data";
    assert ctype[..|form|] == p[..|form|] == form;
    assert At(ctype, form, 0);
    FindSpec(ctype, form);
    assert ctype[|p|..|p| + |BOUNDARY_EQ|] == BOUNDARY_EQ;
    assert At(ctype, BOUNDARY_EQ, |p|);
    FindSpec(ctype, BOUNDARY_EQ);
  }

  lemma DashesInside(body: Bytes)
    requires body == "a,--B"
    ensures !Contains(body, CRLF + "--B") && Contains(body, "--B") && |body| == 5
  {
    assert body[2..5] == "--B";
    assert At(body, "--B", 2);
    assert (CRLF + "--B")[0] == '\r' && '\r' !in body;
    NoSuchStart(body, CRLF + "--B");
  }

  lemma CsvHeadIsClean(d: Bytes)
    requires Delimiter(d)
    ensures SentName("f") && Clean(CsvField("f", [], []), d)
  {
    hide Contains;
    DispositionHasNoDashPair("csv", Some("f"));
    NoPairNoDelimiter(DispositionLine("csv", Some("f")), d);
    EmptyIsClean(d);
  }

  lemma ShortForm(body: Bytes)
    requires |body| == 5
    ensures |Encode(PageForm("f", [], body, PAPER_HORIZON), "--B")| <= MAX_UPLOAD
  {
    var csv, horizon := CsvField("f", [], body), HorizonField(PAPER_HORIZON);
    LinesAreShort();
    assert |ShowInt(PAPER_HORIZON)| <= 2 by {
      assert |ShowNat(1)| == 1;
    }
    OneLine(csv);
    OneLine(horizon);
    TwoSections(csv, horizon, "--B");
  }

  lemma LinesAreShort()
    ensures |DispositionLine("csv", Some("f"))| <= 100 && |DispositionLine("h", None)| <= 100
  {
    assert |FORM_DATA| == 30;
    assert |NameToken("csv")| == 11 && |NameToken("h")| == 9 && |FileToken("f")| == 13;
  }

  lemma TwoSections(f: Field, g: Field, d: Bytes)
    ensures |Encode([f, g], d)| == 3 * |d| + |Section(f)| + |Section(g)| + 4
  {
    assert [f, g][1..] == [g] && [g][1..] == [];
    assert |EncodeRest([g], d)| == |Section(g)| + |d| + 4;
  }

  lemma OneLine(f: Field)
    requires |f.lines| == 1
    ensures |Section(f)| == |f.lines[0]| + |f.body| + 8
  {
    assert HeadText(f.lines[1..]) == [];
  }
}
