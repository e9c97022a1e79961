/** The form the dashboard's page sends: the file under `csv`, the horizon under `h`. */
module UploadForm {
  import opened Options
  import opened ByteStrings
  import opened Multipart

  const FORM_DATA: Bytes := "Content-Disposition: form-data"
  const NAME_EQ: Bytes := "name="
  const Q: Bytes := "\""

  function Quoted(v: Bytes): Bytes {
    Q + v + Q
  }

  /** What follows `form-data;` in the Content-Disposition header of RFC 7578 section 4.2. */
  function NameToken(name: Bytes): Bytes {
    " name=" + Quoted(name)
  }

  function FileToken(filename: Bytes): Bytes {
    " filename=" + Quoted(filename)
  }

  function DispositionLine(name: Bytes, filename: Option<Bytes>): Bytes {
    if filename.None? then FORM_DATA + (";" + NameToken(name))
    else FORM_DATA + (";" + (NameToken(name) + (";" + FileToken(filename.value))))
  }

  predicate QuoteFree(s: Bytes) {
    '"' !in s
  }

  // ------------------------------------------------------------------ routing

  function NameIs(v: Bytes): Bytes {
    NAME_EQ + Quoted(v)
  }

  lemma AtTail(s: Bytes, x: Bytes, y: Bytes, j: nat)
    requires At(s, x + y, j)
    ensures At(s, y, j + |x|)
  {
    var cut := s[j..j + |x + y|];
    assert cut[|x|..] == y;
    assert cut[|x|..] == s[j + |x|..j + |x| + |y|];
  }

  lemma QuoteEndsText(n: Bytes, r: Bytes, v: Bytes)
    requires QuoteFree(n) && QuoteFree(v)
    ensures StartsWith(n + Q + r, v + Q) ==> n == v
  {
    var s := n + Q + r;
    assert s[|n|] == '"' && forall k :: 0 <= k < |n| ==> s[k] == n[k];
    if StartsWith(s, v + Q) {
      var front := s[..|v| + 1];
      assert front[|v|] == '"' && forall k :: 0 <= k < |v| ==> s[k] == front[k] == v[k];
      assert |n| == |v|;
      assert s[..|n|] == n;
    }
  }

  /** In `x"r`, when `x` has no quote, a quoted text opens with that quote or stands inside `r`. */
  lemma PeelQuote(x: Bytes, r: Bytes, v: Bytes)
    requires QuoteFree(x) && Contains(x + Q + r, Quoted(v))
    ensures StartsWith(r, v + Q) || Contains(r, Quoted(v))
  {
    var s := x + Q + r;
    var j: nat :| At(s, Quoted(v), j);
    assert s[j..j + |Quoted(v)|][0] == s[j];
    assert forall k :: 0 <= k < |x| ==> s[k] == x[k];
    if j == |x| {
      assert Quoted(v) == Q + (v + Q);
      AtTail(s, Q, v + Q, j);
      assert s[j + 1..] == r;
      assert r[..|v| + 1] == s[j + 1..j + 1 + |v| + 1];
    } else {
      AtShift(x + Q, r, Quoted(v), j - |x| - 1);
    }
  }

  /** In `a"n"m"f"`, with nothing but the four quotes, a quoted text is one of the three inside. */
  lemma QuotedTexts(a: Bytes, n: Bytes, m: Bytes, f: Bytes, v: Bytes)
    requires QuoteFree(a) && QuoteFree(n) && QuoteFree(m) && QuoteFree(f) && QuoteFree(v) && v != m
    requires Contains(a + Q + (n + Q + (m + Q + (f + Q + []))), Quoted(v))
    ensures v == n || v == f
  {
    PeelQuote(a, n + Q + (m + Q + (f + Q + [])), v);
    QuoteEndsText(n, m + Q + (f + Q + []), v);
    if v != n {
      PeelQuote(n, m + Q + (f + Q + []), v);
      QuoteEndsText(m, f + Q + [], v);
      PeelQuote(m, f + Q + [], v);
      QuoteEndsText(f, [], v);
      if v != f {
        PeelQuote(f, [], v);
      }
    }
  }

  lemma QuotedText(a: Bytes, n: Bytes, v: Bytes)
    requires QuoteFree(a) && QuoteFree(n) && QuoteFree(v)
    requires Contains(a + Q + (n + Q + []), Quoted(v))
    ensures v == n
  {
    PeelQuote(a, n + Q + [], v);
    QuoteEndsText(n, [], v);
    if v != n {
      PeelQuote(n, [], v);
    }
  }

  lemma ContainsMiddle(x: Bytes, d: Bytes, y: Bytes)
    ensures Contains(x + d + y, d)
  {
    assert (x + d + y)[|x|..|x| + |d|] == d;
    assert At(x + d + y, d, |x|);
  }

  lemma QuotedInside(s: Bytes, v: Bytes)
    requires Contains(s, NameIs(v))
    ensures Contains(s, Quoted(v))
  {
    var j: nat :| At(s, NameIs(v), j);
    AtTail(s, NAME_EQ, Quoted(v), j);
  }

  /** The two names of a header, wherever it starts. */
  lemma NamesAreFound(p: Bytes, name: Bytes, filename: Bytes)
    ensures Contains(p + (";" + NameToken(name)), NameIs(name))
    ensures Contains(p + (";" + (NameToken(name) + (";" + FileToken(filename)))), NameIs(name))
    ensures Contains(p + (";" + (NameToken(name) + (";" + FileToken(filename)))), NameIs(filename))
  {
    var rest := ";" + FileToken(filename);
    assert p + (";" + NameToken(name)) == p + "; " + NameIs(name) + [];
    ContainsMiddle(p + "; ", NameIs(name), []);
    assert p + (";" + (NameToken(name) + rest)) == p + "; " + NameIs(name) + rest;
    ContainsMiddle(p + "; ", NameIs(name), rest);
    var upToFile := p + (";" + (NameToken(name) + "; file"));
    assert p + (";" + (NameToken(name) + rest)) == upToFile + NameIs(filename) + [];
    ContainsMiddle(upToFile, NameIs(filename), []);
  }

  lemma TwoNames(p: Bytes, name: Bytes, filename: Bytes)
    ensures p + (";" + (NameToken(name) + (";" + FileToken(filename))))
         == (p + "; name=") + Q + (name + Q + ("; filename=" + Q + (filename + Q + [])))
    ensures p + (";" + NameToken(name)) == (p + "; name=") + Q + (name + Q + [])
  {
    var two := ";" + FileToken(filename);
    assert two == "; filename=" + Q + (filename + Q + []);
    assert NameToken(name) + two == " name=" + Q + (name + Q + two);
  }

  /** How a field is recognised: the reader looks for `name="v"` anywhere in the header, and
      `filename="v"` ends with the same characters.  So the field `v` is found exactly when the
      field is named `v` OR its file is. */
  lemma RoutingExact(name: Bytes, filename: Bytes, v: Bytes)
    requires QuoteFree(name) && QuoteFree(filename) && QuoteFree(v) && v != "; filename="
    ensures Contains(DispositionLine(name, Some(filename)), NameIs(v)) <==> name == v || filename == v
  {
    NamesAreFound(FORM_DATA, name, filename);
    if Contains(DispositionLine(name, Some(filename)), NameIs(v)) {
      QuotedInside(DispositionLine(name, Some(filename)), v);
      TwoNames(FORM_DATA, name, filename);
      QuotedTexts(FORM_DATA + "; name=", name, "; filename=", filename, v);
    }
  }

  /** A field without a file is found exactly by its own name. */
  lemma PlainRoutingExact(name: Bytes, v: Bytes)
    requires QuoteFree(name) && QuoteFree(v)
    ensures Contains(DispositionLine(name, None), NameIs(v)) <==> name == v
  {
    NamesAreFound(FORM_DATA, name, []);
    if Contains(DispositionLine(name, None), NameIs(v)) {
      QuotedInside(DispositionLine(name, None), v);
      TwoNames(FORM_DATA, name, []);
      QuotedText(FORM_DATA + "; name=", name, v);
    }
  }

  // ------------------------------------------------------------------ the file's name

  predicate PlainName(f: Bytes) {
    QuoteFree(f) && ';' !in f && NoLineBreaks(f)
  }

  lemma CharAt(s: Bytes, c: char, i: nat)
    ensures At(s, [c], i) <==> i < |s| && s[i] == c
  {
    if i < |s| {
      assert s[i..i + 1] == [s[i]];
    }
  }

  lemma CutAtChar(x: Bytes, c: char, rest: Bytes)
    requires c !in x
    ensures Find(x + [c] + rest, [c]) == Some(|x|)
    ensures Split(x + [c] + rest, [c]) == [x] + Split(rest, [c])
  {
    var s := x + [c] + rest;
    forall i: nat | i <= |x|
      ensures At(s, [c], i) <==> i == |x|
    {
      CharAt(s, c, i);
      assert i < |x| ==> s[i] == x[i];
    }
    FindIsLeftmost(s, [c], |x|);
    SplitStep(s, [c], |x|);
    assert s[..|x|] == x && s[|x| + 1..] == rest;
  }

  lemma NoCutAtChar(x: Bytes, c: char)
    requires c !in x
    ensures Split(x, [c]) == [x]
  {
    forall i: nat
      ensures !At(x, [c], i)
    {
      CharAt(x, c, i);
    }
    SplitClean(x, [c]);
  }

  lemma LowerPrefix(p: Bytes, rest: Bytes)
    requires forall c :: c in p ==> LowerChar(c) == c
    ensures StartsWith(Lower(p + rest), p)
  {
    var s := Lower(p + rest);
    assert forall k :: 0 <= k < |p| ==> p[k] in p && s[k] == p[k];
    assert s[..|p|] == p;
  }

  lemma AfterFirstEquals(x: Bytes, rest: Bytes)
    requires '=' !in x
    ensures AfterEquals(x + "=" + rest) == rest
  {
    CutAtChar(x, '=', rest);
    assert (x + "=" + rest)[|x| + 1..] == rest;
  }

  lemma Unquoted(f: Bytes)
    requires QuoteFree(f)
    ensures StripQuotes(StripSpace(Quoted(f))) == f
  {
    StripTrimmed(Quoted(f), IsSpace);
    if f != [] {
      hide Strip;
      assert f[0] in f && f[|f| - 1] in f;
      StripPadded(Q, f, Q, (c: char) => c == '"');
    } else {
      NothingQuoted(f);
    }
  }

  lemma NothingQuoted(f: Bytes)
    requires f == []
    ensures StripQuotes(Quoted(f)) == []
  {
    assert Quoted(f)[1..] == Q && Q[1..] == [];
  }

  lemma SpaceBefore(core: Bytes)
    requires core != [] && Trimmed(core, IsSpace)
    ensures StripSpace(" " + core) == core
  {
    assert " " + core == " " + core + [];
    StripPadded(" ", core, [], IsSpace);
  }

  lemma FileTokenStripped(f: Bytes)
    ensures StripSpace(FileToken(f)) == FILENAME + Quoted(f)
    ensures StartsWith(Lower(FILENAME + Quoted(f)), FILENAME)
  {
    assert " filename=" == " " + FILENAME;
    Associative(" ", FILENAME, Quoted(f));
    hide Lower, StripSpace;
    SpaceBefore(FILENAME + Quoted(f));
    LowerPrefix(FILENAME, Quoted(f));
  }

  lemma FileTokenValue(f: Bytes)
    requires QuoteFree(f)
    ensures StripQuotes(StripSpace(AfterEquals(FILENAME + Quoted(f)))) == f
  {
    var x: Bytes := "filename";
    assert FILENAME + Quoted(f) == x + "=" + Quoted(f);
    AfterFirstEquals(x, Quoted(f));
    Unquoted(f);
  }

  /** The token `filename="f"` gives back `f`, unless it is empty. */
  lemma FileTokenIsRead(f: Bytes, before: Bytes)
    requires QuoteFree(f)
    ensures TokenName(FileToken(f), before) == if f == [] then before else f
  {
    FileTokenStripped(f);
    FileTokenValue(f);
  }

  lemma WrongFirstChar(token: Bytes, before: Bytes)
    requires StripSpace(token) != [] && LowerChar(StripSpace(token)[0]) != 'f'
    ensures TokenName(token, before) == before
  {
    var low := Lower(StripSpace(token));
    assert |FILENAME| <= |low| ==> low[..|FILENAME|][0] == low[0];
  }

  lemma TrimmedTokenIsIgnored(token: Bytes, before: Bytes)
    requires token != [] && Trimmed(token, IsSpace) && LowerChar(token[0]) != 'f'
    ensures TokenName(token, before) == before
  {
    StripTrimmed(token, IsSpace);
    WrongFirstChar(token, before);
  }

  lemma FormDataToken(before: Bytes)
    ensures TokenName(FORM_DATA, before) == before
  {
    assert FORM_DATA[0] == 'C' && FORM_DATA[29] == 'a' && |FORM_DATA| == 30;
    TrimmedTokenIsIgnored(FORM_DATA, before);
  }

  lemma NameTokenIsIgnored(name: Bytes, before: Bytes)
    ensures TokenName(NameToken(name), before) == before
  {
    var core := NAME_EQ + Quoted(name);
    assert NameToken(name) == " " + core;
    SpaceBefore(core);
    assert core[0] == 'n';
    WrongFirstChar(NameToken(name), before);
  }

  lemma SplitThree(a: Bytes, b: Bytes, c: Bytes)
    requires ';' !in a && ';' !in b && ';' !in c
    ensures Split(a + (";" + (b + (";" + c))), ";") == [a, b, c]
  {
    assert a + (";" + (b + (";" + c))) == a + ";" + (b + (";" + c));
    CutAtChar(a, ';', b + (";" + c));
    assert b + (";" + c) == b + ";" + c;
    CutAtChar(b, ';', c);
    NoCutAtChar(c, ';');
  }

  lemma NextToken(a: Bytes, rest: seq<Bytes>, before: Bytes)
    ensures FileName([a] + rest, before) == FileName(rest, TokenName(a, before))
  {
    assert ([a] + rest)[1..] == rest;
  }

  lemma ThreeTokens(a: Bytes, b: Bytes, c: Bytes, n0: Bytes, n1: Bytes, n2: Bytes, n3: Bytes)
    requires n1 == TokenName(a, n0) && n2 == TokenName(b, n1) && n3 == TokenName(c, n2)
    ensures FileName([a, b, c], n0) == n3
  {
    NextToken(a, [b] + ([c] + []), n0);
    NextToken(b, [c] + [], n1);
    NextToken(c, [], n2);
    assert [a, b, c] == [a] + ([b] + ([c] + []));
  }

  lemma TokensOf(name: Bytes, f: Bytes)
    requires PlainName(f) && PlainName(name)
    ensures Split(DispositionLine(name, Some(f)), ";") == [FORM_DATA, NameToken(name), FileToken(f)]
  {
    assert ';' !in FORM_DATA;
    assert ';' !in NameToken(name);
    assert ';' !in FileToken(f);
    SplitThree(FORM_DATA, NameToken(name), FileToken(f));
  }

  /** The name of the uploaded file comes back whole: spaces, equals signs and dots included. */
  lemma FileNameIsRead(name: Bytes, f: Bytes, before: Bytes, after: Bytes)
    requires PlainName(f) && PlainName(name)
    requires after == if f == [] then before else f
    ensures FileName(Split(DispositionLine(name, Some(f)), ";"), before) == after
  {
    TokensOf(name, f);
    FormDataToken(before);
    NameTokenIsIgnored(name, before);
    FileTokenIsRead(f, before);
    ThreeTokens(FORM_DATA, NameToken(name), FileToken(f), before, before, before, after);
  }

  // ------------------------------------------------------------------ a semicolon in the file's name

  /** What a browser writes as a file's name: it escapes quotes and line breaks, and nothing else. */
  predicate SentName(f: Bytes) {
    QuoteFree(f) && NoLineBreaks(f)
  }

  lemma {:induction false} PiecesLackTheCut(s: Bytes, c: char)
    ensures forall k :: 0 <= k < |Split(s, [c])| ==> c !in Split(s, [c])[k]
    decreases |s|
  {
    FindSpec(s, [c]);
    forall i: nat
      ensures At(s, [c], i) <==> i < |s| && s[i] == c
    {
      CharAt(s, c, i);
    }
    match Find(s, [c])
    case None => assert Contains(s, [c]) <==> exists i: nat :: At(s, [c], i);
    case Some(i) => PiecesLackTheCut(s[i + 1..], c);
  }

  lemma TakenFromToken(token: Bytes, before: Bytes, c: char)
    requires c !in token && c !in before
    ensures c !in TokenName(token, before)
  {
    var stripped := StripSpace(token);
    var value := AfterEquals(stripped);
    StripTakes(token, IsSpace);
    StripTakes(value, IsSpace);
    StripTakes(StripSpace(value), (c: char) => c == '"');
  }

  lemma StripTakes(s: Bytes, drop: char -> bool)
    ensures forall c :: c in Strip(s, drop) ==> c in s
  {
  }

  lemma {:induction false} TakenFromTokens(tokens: seq<Bytes>, before: Bytes, c: char)
    requires c !in before && forall k :: 0 <= k < |tokens| ==> c !in tokens[k]
    ensures c !in FileName(tokens, before)
    decreases |tokens|
  {
    if tokens != [] {
      TakenFromToken(tokens[0], before, c);
      TakenFromTokens(tokens[1..], TokenName(tokens[0], before), c);
    }
  }

  /** The name the run is given for a file sent as `f`. */
  function NameRead(f: Bytes): Bytes {
    FileName(Split(DispositionLine("csv", Some(f)), ";"), DEFAULT_NAME)
  }

  /** Exactly when a file's name comes back: when it is there and has no semicolon, which a browser
      sends as it is and at which the reader cuts the header, quoted or not. */
  lemma NameSurvivesExactly(f: Bytes)
    requires SentName(f)
    ensures NameRead(f) == f <==> f != [] && ';' !in f
    ensures f == [] ==> NameRead(f) == DEFAULT_NAME
  {
    hide FileName, Split;
    if ';' in f {
      PiecesLackTheCut(DispositionLine("csv", Some(f)), ';');
      TakenFromTokens(Split(DispositionLine("csv", Some(f)), ";"), DEFAULT_NAME, ';');
    } else {
      FileNameIsRead("csv", f, DEFAULT_NAME, if f == [] then DEFAULT_NAME else f);
    }
  }

  /** What comes back instead: the part before the semicolon. */
  lemma SemicolonCutsTheName(p: Bytes, r: Bytes)
    requires p != [] && QuoteFree(p) && ';' !in p && Trimmed(p, IsSpace)
    requires r != [] && ';' !in r && !IsSpace(r[0]) && LowerChar(r[0]) != 'f'
    ensures NameRead(p + ";" + r) == p
  {
    hide FileName, Split, TokenName;
    FourTokens(p, r);
    FormDataToken(DEFAULT_NAME);
    NameTokenIsIgnored("csv", DEFAULT_NAME);
    CutTokenIsRead(p, DEFAULT_NAME);
    TrimmedTokenIsIgnored(r + Q, p);
    NextToken(FORM_DATA, [NameToken("csv"), CutToken(p), r + Q], DEFAULT_NAME);
    assert [FORM_DATA] + [NameToken("csv"), CutToken(p), r + Q] == [FORM_DATA, NameToken("csv"), CutToken(p), r + Q];
    ThreeTokens(NameToken("csv"), CutToken(p), r + Q, DEFAULT_NAME, DEFAULT_NAME, p, p);
  }

  function CutToken(p: Bytes): Bytes {
    " " + (FILENAME + (Q + p))
  }

  lemma HeaderWithCut(p: Bytes, r: Bytes)
    ensures DispositionLine("csv", Some(p + ";" + r))
         == FORM_DATA + ";" + (NameToken("csv") + ";" + (CutToken(p) + ";" + (r + Q)))
  {
    CutFileToken(p, r);
    hide NameToken, FileToken, CutToken;
    Regrouped(FORM_DATA, NameToken("csv"), FileToken(p + ";" + r));
  }

  lemma CutFileToken(p: Bytes, r: Bytes)
    ensures FileToken(p + ";" + r) == CutToken(p) + ";" + (r + Q)
  {
  }

  lemma Regrouped(a: Bytes, b: Bytes, c: Bytes)
    ensures a + (";" + (b + (";" + c))) == a + ";" + (b + ";" + c)
  {
  }

  lemma FourTokens(p: Bytes, r: Bytes)
    requires ';' !in p && ';' !in r
    ensures Split(DispositionLine("csv", Some(p + ";" + r)), ";") == [FORM_DATA, NameToken("csv"), CutToken(p), r + Q]
  {
    HeaderWithCut(p, r);
    hide Split, DispositionLine;
    var last := CutToken(p) + ";" + (r + Q);
    CutAtChar(FORM_DATA, ';', NameToken("csv") + ";" + last);
    CutAtChar(NameToken("csv"), ';', last);
    CutAtChar(CutToken(p), ';', r + Q);
    NoCutAtChar(r + Q, ';');
  }

  lemma CutTokenStripped(p: Bytes)
    requires p != [] && Trimmed(p, IsSpace)
    ensures StripSpace(CutToken(p)) == FILENAME + (Q + p)
    ensures StartsWith(Lower(FILENAME + (Q + p)), FILENAME)
  {
    hide StripSpace, Lower;
    var core := FILENAME + (Q + p);
    assert core[|core| - 1] == p[|p| - 1];
    SpaceBefore(core);
    LowerPrefix(FILENAME, Q + p);
  }

  lemma CutTokenValue(p: Bytes)
    requires p != [] && QuoteFree(p) && Trimmed(p, IsSpace)
    ensures StripQuotes(StripSpace(AfterEquals(FILENAME + (Q + p)))) == p
  {
    hide Strip, AfterEquals;
    var x: Bytes := "filename";
    assert FILENAME + (Q + p) == x + "=" + (Q + p);
    AfterFirstEquals(x, Q + p);
    StripTrimmed(Q + p, IsSpace);
    assert p[0] in p && p[|p| - 1] in p && Q + p + [] == Q + p;
    StripPadded(Q, p, [], (c: char) => c == '"');
  }

  lemma CutTokenIsRead(p: Bytes, before: Bytes)
    requires p != [] && QuoteFree(p) && Trimmed(p, IsSpace)
    ensures TokenName(CutToken(p), before) == p
  {
    hide StripSpace, StripQuotes, Lower, AfterEquals, CutToken;
    CutTokenStripped(p);
    CutTokenValue(p);
  }
}
