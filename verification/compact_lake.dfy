/** Rewriting the day-partitioned lake into month files, and the gate that decides whether the copy may
    replace the original. */
module CompactLake {
  import opened Options

  /** Symbols, numbered in alphabetical order. */
  type Symbol = nat

  /** A bar as stored.  `x` and `mask` are hashed with the opening time; `rest` stands for the columns
      that are not, the segment id among them. */
  datatype Row = Row(symbol: Symbol, frequency: string, date: string, ts: int, x: seq<int>, mask: seq<int>,
      rest: seq<int>)

  /** What the hash sees of a bar. */
  datatype Bar = Bar(ts: int, x: seq<int>, mask: seq<int>)

  function Hashed(r: Row): Bar {
    Bar(r.ts, r.x, r.mask)
  }

  function Bars(w: seq<Row>): (b: seq<Bar>)
    ensures |b| == |w|
  {
    seq(|w|, i requires 0 <= i < |w| => Hashed(w[i]))
  }

  /** The hash sees two reads as one exactly when they are as long and agree bar by bar in the opening
      time, every feature and every mask. */
  lemma BarsAreColumns(w: seq<Row>, v: seq<Row>)
    ensures Bars(w) == Bars(v) <==>
            |w| == |v| && forall i :: 0 <= i < |w| ==> w[i].ts == v[i].ts && w[i].x == v[i].x && w[i].mask == v[i].mask
  {
    if Bars(w) == Bars(v) {
      forall i | 0 <= i < |w|
        ensures w[i].ts == v[i].ts && w[i].x == v[i].x && w[i].mask == v[i].mask
      {
        assert Bars(w)[i] == Bars(v)[i];
      }
    }
  }

  // ------------------------------------------------------------------ reading a symbol

  const HORIZON_MS := 1000000000000000

  /** The `WHERE` clause of a symbol's read. */
  predicate IsRead(r: Row, symbol: Symbol) {
    r.symbol == symbol && r.frequency == "1m" && 0 <= r.ts < HORIZON_MS
  }

  predicate InOrder(w: seq<Row>) {
    forall i, j :: 0 <= i < j < |w| ==> w[i].ts <= w[j].ts
  }

  /** A result the database may return: the selected rows, ordered by opening time.  The order of rows
      with one opening time is its own choice. */
  ghost predicate IsWindow(lake: multiset<Row>, symbol: Symbol, w: seq<Row>) {
    InOrder(w) && forall r: Row :: multiset(w)[r] == if IsRead(r, symbol) then lake[r] else 0
  }

  /** Rows with one opening time look the same to the hash. */
  ghost predicate TiesLookAlike(lake: multiset<Row>, symbol: Symbol) {
    forall r, q :: r in lake && q in lake && IsRead(r, symbol) && IsRead(q, symbol) && r.ts == q.ts ==>
        r.x == q.x && r.mask == q.mask
  }

  /** Distinct opening times are enough. */
  lemma DistinctTimesLookAlike(lake: multiset<Row>, symbol: Symbol)
    requires forall r, q ::
               r in lake && q in lake && IsRead(r, symbol) && IsRead(q, symbol) && r.ts == q.ts ==> r == q
    ensures TiesLookAlike(lake, symbol)
  {
  }

  /** A row goes behind all that are not later. */
  function Placed(r: Row, w: seq<Row>): seq<Row> {
    if w == [] || r.ts < w[0].ts then [r] + w else [w[0]] + Placed(r, w[1..])
  }

  lemma {:induction false} PlacedInOrder(r: Row, w: seq<Row>, low: int)
    requires InOrder(w) && low <= r.ts && forall i :: 0 <= i < |w| ==> low <= w[i].ts
    ensures InOrder(Placed(r, w)) && forall i :: 0 <= i < |Placed(r, w)| ==> low <= Placed(r, w)[i].ts
  {
    if w != [] && r.ts >= w[0].ts {
      PlacedInOrder(r, w[1..], w[0].ts);
    }
  }

  lemma {:induction false} PlacedKeepsAll(r: Row, w: seq<Row>)
    ensures multiset(Placed(r, w)) == multiset(w) + multiset{r}
  {
    if w != [] && r.ts >= w[0].ts {
      PlacedKeepsAll(r, w[1..]);
      assert w == [w[0]] + w[1..];
    }
  }

  /** Every lake can be read, whatever its ties. */
  lemma {:induction false} SomeReadExists(lake: multiset<Row>, symbol: Symbol) returns (w: seq<Row>)
    ensures IsWindow(lake, symbol, w)
    decreases |lake|
  {
    if lake == multiset{} {
      w := [];
    } else {
      var r :| r in lake;
      var others := SomeReadExists(lake - multiset{r}, symbol);
      if IsRead(r, symbol) {
        w := Placed(r, others);
        PlacedKeepsAll(r, others);
        PlacedInOrder(r, others, 0) by {
          forall i | 0 <= i < |others|
            ensures 0 <= others[i].ts
          {
            assert multiset(others)[others[i]] > 0;
          }
        }
      } else {
        w := others;
      }
    }
  }

  lemma WindowRows(lake: multiset<Row>, symbol: Symbol, w: seq<Row>, i: nat)
    requires IsWindow(lake, symbol, w) && i < |w|
    ensures w[i] in lake && IsRead(w[i], symbol)
  {
    assert w[i] in multiset(w);
    assert multiset(w)[w[i]] > 0;
  }

  lemma RemoveAt<T>(s: seq<T>, k: nat)
    requires k < |s|
    ensures multiset(s[..k] + s[k + 1..]) == multiset(s) - multiset{s[k]}
  {
    assert s == s[..k] + [s[k]] + s[k + 1..];
  }

  lemma TailOf<T>(s: seq<T>)
    requires s != []
    ensures multiset(s[1..]) == multiset(s) - multiset{s[0]}
  {
    assert s == [s[0]] + s[1..];
  }

  ghost predicate BarsInOrder(a: seq<Bar>) {
    forall i, j :: 0 <= i < j < |a| ==> a[i].ts <= a[j].ts
  }

  ghost predicate TimeFixesBar(a: multiset<Bar>) {
    forall p, q :: p in a && q in a && p.ts == q.ts ==> p == q
  }

  lemma SameFirst(a: seq<Bar>, b: seq<Bar>)
    requires a != [] && multiset(a) == multiset(b) && BarsInOrder(a) && BarsInOrder(b) && TimeFixesBar(multiset(a))
    ensures b != [] && a[0] == b[0]
  {
    assert a[0] in multiset(b);
    assert b[0] in multiset(a);
    assert a[0] in b && b[0] in a;
  }

  lemma TailStaysTidy(a: seq<Bar>, rows: multiset<Bar>)
    requires a != [] && BarsInOrder(a) && TimeFixesBar(rows) && multiset(a[1..]) == rows - multiset{a[0]}
    ensures BarsInOrder(a[1..]) && TimeFixesBar(multiset(a[1..]))
  {
  }

  lemma NothingLeft<T>(s: seq<T>)
    requires multiset(s) == multiset{}
    ensures s == []
  {
    assert |multiset(s)| == |s|;
  }

  lemma SameAgain<T>(a: seq<T>, b: seq<T>)
    requires a != [] && b != [] && a[0] == b[0] && a[1..] == b[1..]
    ensures a == b
  {
    assert a == [a[0]] + a[1..] && b == [b[0]] + b[1..];
  }

  /** Two ordered arrangements of one set of bars, in which the time fixes the bar, are equal. */
  lemma {:induction false} SortedArrangementsAgree(a: seq<Bar>, b: seq<Bar>, rows: multiset<Bar>)
    requires multiset(a) == rows && multiset(b) == rows && BarsInOrder(a) && BarsInOrder(b) && TimeFixesBar(rows)
    ensures a == b
  {
    hide TimeFixesBar, BarsInOrder;
    if a == [] {
      NothingLeft(b);
    } else {
      SameFirst(a, b);
      TailOf(a);
      TailOf(b);
      TailStaysTidy(a, rows);
      TailStaysTidy(b, rows);
      SortedArrangementsAgree(a[1..], b[1..], rows - multiset{a[0]});
      SameAgain(a, b);
    }
  }

  lemma BarsWithout(b: seq<Row>, k: nat) returns (b': seq<Row>)
    requires k < |b|
    ensures multiset(b') == multiset(b) - multiset{b[k]}
    ensures multiset(Bars(b')) == multiset(Bars(b)) - multiset{Hashed(b[k])}
  {
    b' := b[..k] + b[k + 1..];
    RemoveAt(b, k);
    assert Bars(b') == Bars(b)[..k] + Bars(b)[k + 1..];
    RemoveAt(Bars(b), k);
  }

  lemma Locate<T>(s: seq<T>, x: T) returns (k: nat)
    requires x in multiset(s)
    ensures k < |s| && s[k] == x
  {
    assert x in s;
    k :| 0 <= k < |s| && s[k] == x;
  }

  lemma PutBack<T>(m: multiset<T>, n: multiset<T>, x: T)
    requires x in m && x in n && m - multiset{x} == n - multiset{x}
    ensures m == n
  {
    assert m == (m - multiset{x}) + multiset{x};
    assert n == (n - multiset{x}) + multiset{x};
  }

  lemma {:induction false} BarsOfEqualRows(a: seq<Row>, b: seq<Row>)
    requires multiset(a) == multiset(b)
    ensures multiset(Bars(a)) == multiset(Bars(b))
    decreases |a|
  {
    if a == [] {
      NothingLeft(b);
    } else {
      assert a[0] in multiset(a);
      var k := Locate(b, a[0]);
      var b' := BarsWithout(b, k);
      var a' := BarsWithout(a, 0);
      assert |a'| == |multiset(a')| < |multiset(a)| == |a|;
      BarsOfEqualRows(a', b');
      assert Bars(a)[0] in multiset(Bars(a)) && Bars(b)[k] in multiset(Bars(b));
      PutBack(multiset(Bars(a)), multiset(Bars(b)), Hashed(a[0]));
    }
  }

  lemma WindowsHoldTheSameRows(lake: multiset<Row>, symbol: Symbol, a: seq<Row>, b: seq<Row>)
    requires IsWindow(lake, symbol, a) && IsWindow(lake, symbol, b)
    ensures multiset(a) == multiset(b)
  {
    forall r: Row
      ensures multiset(a)[r] == multiset(b)[r]
    {
    }
  }

  lemma TimeFixesReadBars(lake: multiset<Row>, symbol: Symbol, a: seq<Row>)
    requires TiesLookAlike(lake, symbol) && IsWindow(lake, symbol, a)
    ensures TimeFixesBar(multiset(Bars(a)))
  {
    forall p, q | p in multiset(Bars(a)) && q in multiset(Bars(a)) && p.ts == q.ts
      ensures p == q
    {
      var i := Locate(Bars(a), p);
      var j := Locate(Bars(a), q);
      WindowRows(lake, symbol, a, i);
      WindowRows(lake, symbol, a, j);
    }
  }

  /** Whatever the file layout, whatever order the rows come back in: the hash sees one sequence, if
      rows with one opening time look alike to it. */
  lemma ReadsAgree(lake: multiset<Row>, symbol: Symbol, a: seq<Row>, b: seq<Row>)
    requires TiesLookAlike(lake, symbol) && IsWindow(lake, symbol, a) && IsWindow(lake, symbol, b)
    ensures Bars(a) == Bars(b)
  {
    WindowsHoldTheSameRows(lake, symbol, a, b);
    BarsOfEqualRows(a, b);
    TimeFixesReadBars(lake, symbol, a);
    assert BarsInOrder(Bars(a)) && BarsInOrder(Bars(b));
    hide TiesLookAlike, TimeFixesBar, IsWindow, BarsInOrder;
    SortedArrangementsAgree(Bars(a), Bars(b), multiset(Bars(a)));
  }

  lemma SwapKeeps<T>(s: seq<T>, i: nat, j: nat)
    requires i < |s| && j < |s|
    ensures multiset(s[i := s[j]][j := s[i]]) == multiset(s)
  {
  }

  lemma SwapKeepsWindow(lake: multiset<Row>, symbol: Symbol, w: seq<Row>, i: nat, j: nat)
    requires IsWindow(lake, symbol, w) && i < |w| && j < |w| && w[i].ts == w[j].ts
    ensures IsWindow(lake, symbol, w[i := w[j]][j := w[i]])
  {
    var v := w[i := w[j]][j := w[i]];
    SwapKeeps(w, i, j);
    hide IsRead;
    assert forall k :: 0 <= k < |w| ==> v[k].ts == w[k].ts;
  }

  /** And only then: two rows of one opening time that look different come back in either order. */
  lemma TiesComeBackEitherWay(lake: multiset<Row>, symbol: Symbol, w: seq<Row>) returns (v: seq<Row>)
    requires IsWindow(lake, symbol, w) && !TiesLookAlike(lake, symbol)
    ensures IsWindow(lake, symbol, v) && Bars(v) != Bars(w)
  {
    hide IsRead;
    var r, q :| r in lake && q in lake && IsRead(r, symbol) && IsRead(q, symbol) && r.ts == q.ts
        && !(r.x == q.x && r.mask == q.mask);
    assert multiset(w)[r] > 0 && multiset(w)[q] > 0;
    hide IsWindow;
    assert r in w && q in w;
    var i :| 0 <= i < |w| && w[i] == r;
    var j :| 0 <= j < |w| && w[j] == q;
    v := w[i := w[j]][j := w[i]];
    SwapKeepsWindow(lake, symbol, w, i, j);
    assert v[i] == q && Bars(v)[i] == Hashed(q) && Bars(w)[i] == Hashed(r);
  }

  // ------------------------------------------------------------------ rewriting the files

  datatype Part = Part(symbol: Symbol, frequency: string, month: string)

  datatype File = File(part: Part, rows: seq<Row>)

  function Month(date: string): string {
    if |date| <= 7 then date else date[..7]
  }

  function PartOf(r: Row): Part {
    Part(r.symbol, r.frequency, Month(r.date))
  }

  /** Two rows go into one file exactly when symbol and frequency agree and the first seven characters of
      their dates do: year and month of an ISO date. */
  lemma SamePartSameMonth(r: Row, q: Row)
    requires |r.date| == |q.date| == 10
    ensures PartOf(r) == PartOf(q) <==>
            r.symbol == q.symbol && r.frequency == q.frequency && forall i :: 0 <= i < 7 ==> r.date[i] == q.date[i]
  {
    if PartOf(r) == PartOf(q) {
      assert forall i :: 0 <= i < 7 ==> r.date[i] == Month(r.date)[i] && q.date[i] == Month(q.date)[i];
    }
  }

  function Content(files: seq<File>): multiset<Row> {
    if files == [] then multiset{} else multiset(files[0].rows) + Content(files[1..])
  }

  function Loose(days: seq<seq<Row>>): multiset<Row> {
    if days == [] then multiset{} else multiset(days[0]) + Loose(days[1..])
  }

  /** Both hold exactly the rows of their files. */
  lemma {:induction false} ContentIs(files: seq<File>, r: Row)
    ensures r in Content(files) <==> exists f :: f in files && r in f.rows
  {
    if files != [] {
      ContentIs(files[1..], r);
      assert files[0] in files && forall f :: f in files <==> f == files[0] || f in files[1..];
    }
  }

  lemma {:induction false} LooseIs(days: seq<seq<Row>>, r: Row)
    ensures r in Loose(days) <==> exists d :: d in days && r in d
  {
    if days != [] {
      LooseIs(days[1..], r);
      assert days[0] in days && forall d :: d in days <==> d == days[0] || d in days[1..];
    }
  }

  /** One file per partition, each row in the file of its partition. */
  ghost predicate IsPartitioned(files: seq<File>) {
    && (forall f, r :: f in files && r in f.rows ==> PartOf(r) == f.part)
    && (forall i, j :: 0 <= i < j < |files| ==> files[i].part != files[j].part)
  }

  lemma ContentCons(f: File, rest: seq<File>)
    ensures Content([f] + rest) == multiset(f.rows) + Content(rest)
  {
    assert ([f] + rest)[1..] == rest;
  }

  lemma RowJoins(rows: seq<Row>, r: Row, rest: multiset<Row>)
    ensures multiset(rows + [r]) + rest == (multiset(rows) + rest) + multiset{r}
  {
  }

  function Place(files: seq<File>, r: Row): (placed: seq<File>)
    ensures Content(placed) == Content(files) + multiset{r}
    ensures forall f :: f in placed ==> f.part == PartOf(r) || f in files
  {
    if files == [] then [File(PartOf(r), [r])]
    else if files[0].part == PartOf(r) then
      RowJoins(files[0].rows, r, Content(files[1..]));
      ContentCons(files[0].(rows := files[0].rows + [r]), files[1..]);
      [files[0].(rows := files[0].rows + [r])] + files[1..]
    else
      ContentCons(files[0], Place(files[1..], r));
      [files[0]] + Place(files[1..], r)
  }

  lemma PartitionsJoin(f: File, rest: seq<File>)
    requires IsPartitioned(rest) && forall r :: r in f.rows ==> PartOf(r) == f.part
    requires forall g :: g in rest ==> g.part != f.part
    ensures IsPartitioned([f] + rest)
  {
    var files := [f] + rest;
    forall i, j | 0 <= i < j < |files|
      ensures files[i].part != files[j].part
    {
      assert files[j] in rest;
    }
  }

  lemma PartitionsPart(files: seq<File>)
    requires IsPartitioned(files) && files != []
    ensures IsPartitioned(files[1..])
    ensures forall r :: r in files[0].rows ==> PartOf(r) == files[0].part
    ensures forall g :: g in files[1..] ==> g.part != files[0].part
  {
    assert files[0] in files && forall g :: g in files[1..] ==> g in files;
    forall g | g in files[1..]
      ensures g.part != files[0].part
    {
      var k :| 0 <= k < |files[1..]| && files[1..][k] == g;
      assert files[k + 1] == g;
    }
  }

  lemma {:induction false} PlaceKeepsPartitions(files: seq<File>, r: Row)
    requires IsPartitioned(files)
    ensures IsPartitioned(Place(files, r))
  {
    if files == [] {
      PartitionsJoin(File(PartOf(r), [r]), []);
      assert [File(PartOf(r), [r])] + [] == [File(PartOf(r), [r])];
    } else {
      PartitionsPart(files);
      hide IsPartitioned, PartOf, Content;
      if files[0].part == PartOf(r) {
        PartitionsJoin(files[0].(rows := files[0].rows + [r]), files[1..]);
      } else {
        PlaceKeepsPartitions(files[1..], r);
        PartitionsJoin(files[0], Place(files[1..], r));
      }
    }
  }

  /** One pass over the day files: no row is lost, added or changed, and each lands in its month. */
  method Compact(days: seq<seq<Row>>) returns (files: seq<File>)
    ensures Content(files) == Loose(days) && IsPartitioned(files)
  {
    files := [];
    for i := 0 to |days|
      invariant Content(files) + Loose(days[i..]) == Loose(days) && IsPartitioned(files)
    {
      files := CompactDay(files, days[i]);
      assert days[i..][1..] == days[i + 1..];
    }
  }

  method CompactDay(before: seq<File>, rows: seq<Row>) returns (files: seq<File>)
    requires IsPartitioned(before)
    ensures Content(files) == Content(before) + multiset(rows) && IsPartitioned(files)
  {
    files := before;
    for j := 0 to |rows|
      invariant Content(files) == Content(before) + multiset(rows[..j]) && IsPartitioned(files)
    {
      PlaceKeepsPartitions(files, rows[j]);
      OneMoreRow(Content(before), rows, j);
      files := Place(files, rows[j]);
    }
    assert rows[..|rows|] == rows;
  }

  lemma OneMoreRow(before: multiset<Row>, rows: seq<Row>, j: nat)
    requires j < |rows|
    ensures before + multiset(rows[..j + 1]) == before + multiset(rows[..j]) + multiset{rows[j]}
  {
    assert rows[..j + 1] == rows[..j] + [rows[j]];
  }

  // ------------------------------------------------------------------ the ledger

  datatype Record = LakeBuilt(symbol: Symbol, hash: string) | OtherEvent

  /** The last build of a symbol that the ledger records; blank lines are skipped. */
  function LastBuilt(lines: seq<Option<Record>>, symbol: Symbol): Option<string> {
    if lines == [] then None
    else match lines[|lines| - 1]
      case Some(LakeBuilt(s, h)) => if s == symbol then Some(h) else LastBuilt(lines[..|lines| - 1], symbol)
      case _ => LastBuilt(lines[..|lines| - 1], symbol)
  }

  /** It is the hash of a build of the symbol after which the ledger records no other; there is none
      exactly when the ledger records no build of it. */
  lemma {:induction false} LastBuiltIsLast(lines: seq<Option<Record>>, symbol: Symbol)
    ensures LastBuilt(lines, symbol).None? <==>
            forall i, h :: 0 <= i < |lines| ==> lines[i] != Some(LakeBuilt(symbol, h))
    ensures LastBuilt(lines, symbol).Some? ==>
              exists i :: 0 <= i < |lines| && lines[i] == Some(LakeBuilt(symbol, LastBuilt(lines, symbol).value))
                          && forall j, h :: i < j < |lines| ==> lines[j] != Some(LakeBuilt(symbol, h))
  {
    if lines != [] {
      var init, last := lines[..|lines| - 1], lines[|lines| - 1];
      LastBuiltIsLast(init, symbol);
      assert forall i :: 0 <= i < |init| ==> lines[i] == init[i];
      if last.Some? && last.value.LakeBuilt? && last.value.symbol == symbol {
        assert lines[|lines| - 1] == Some(LakeBuilt(symbol, LastBuilt(lines, symbol).value));
      } else {
        assert LastBuilt(lines, symbol) == LastBuilt(init, symbol);
      }
    }
  }

  method LedgerHashes(lines: seq<Option<Record>>) returns (built: map<Symbol, string>)
    ensures forall s :: LastBuilt(lines, s) == if s in built then Some(built[s]) else None
  {
    built := map[];
    for i := 0 to |lines|
      invariant forall s :: LastBuilt(lines[..i], s) == if s in built then Some(built[s]) else None
    {
      assert lines[..i + 1][..i] == lines[..i];
      match lines[i] {
        case Some(LakeBuilt(s, h)) => built := built[s := h];
        case _ =>
      }
    }
    assert lines[..|lines|] == lines;
  }

  // ------------------------------------------------------------------ the gate

  /** Symbols in ascending order. */
  ghost predicate IsSortedListing(names: seq<Symbol>, of: set<Symbol>) {
    && (forall i, j :: 0 <= i < j < |names| ==> names[i] < names[j])
    && (forall s :: s in names <==> s in of)
  }

  lemma {:induction false} ListingIsUnique(a: seq<Symbol>, b: seq<Symbol>, of: set<Symbol>)
    requires IsSortedListing(a, of) && IsSortedListing(b, of)
    ensures a == b
    decreases |of|
  {
    assert forall i :: 0 <= i < |a| ==> a[i] in of;
    assert forall i :: 0 <= i < |b| ==> b[i] in of;
    if a != [] && b != [] {
      assert a[0] in b && b[0] in a;
      assert a[0] == b[0];
      ListingTail(a, of);
      ListingTail(b, of);
      ListingIsUnique(a[1..], b[1..], of - {a[0]});
    }
  }

  lemma ListingTail(a: seq<Symbol>, of: set<Symbol>)
    requires IsSortedListing(a, of) && a != []
    ensures a[0] in of && IsSortedListing(a[1..], of - {a[0]})
  {
    assert a[0] in a;
    forall s
      ensures s in a[1..] <==> s in of && s != a[0]
    {
      if s in a && s != a[0] {
        var i :| 0 <= i < |a| && a[i] == s;
        assert a[1..][i - 1] == s;
      }
    }
  }

  method Sorted(names: set<Symbol>) returns (r: seq<Symbol>)
    ensures IsSortedListing(r, names)
  {
    r := [];
    var left := names;
    while left != {}
      invariant left <= names && forall s :: s in r <==> s in names && s !in left
      invariant forall i, j :: 0 <= i < j < |r| ==> r[i] < r[j]
      invariant forall s, t :: s in r && t in left ==> s < t
      decreases |left|
    {
      var least :| least in left;
      var others := left - {least};
      while others != {}
        invariant others <= left && least in left && forall t :: t in left && t !in others ==> least <= t
        decreases |others|
      {
        var t :| t in others;
        others := others - {t};
        if t < least { least := t; }
      }
      forall i | 0 <= i < |r|
        ensures r[i] < least
      {
        assert r[i] in r && least in left;
      }
      r := r + [least];
      left := left - {least};
    }
  }

  /** The list of pairs under the seal: `[[s, h[s]] for s in sorted(h)]`. */
  function Pairs(names: seq<Symbol>, hashes: map<Symbol, string>): (p: seq<(Symbol, string)>)
    requires forall s :: s in names ==> s in hashes
    ensures |p| == |names| && forall i :: 0 <= i < |p| ==> p[i].0 == names[i] && p[i].1 == hashes[names[i]]
  {
    seq(|names|, i requires 0 <= i < |names| => (names[i], hashes[names[i]]))
  }

  ghost predicate IsInjective<A(!new), B(!new)>(f: A -> B) {
    forall a, b :: f(a) == f(b) ==> a == b
  }

  ghost predicate ReadsLake(lake: multiset<Row>, read: Symbol -> seq<Row>, names: set<Symbol>) {
    forall s :: s in names ==> IsWindow(lake, s, read(s))
  }

  function TotalBars(names: seq<Symbol>, read: Symbol -> seq<Row>): nat {
    if names == [] then 0 else TotalBars(names[..|names| - 1], read) + |read(names[|names| - 1])|
  }

  /** What the gate has found out about the symbols it has looked at. */
  ghost predicate HasChecked(hash: seq<Bar> -> string, led: map<Symbol, string>, read: Symbol -> seq<Row>,
                             names: seq<Symbol>, lakeHashes: map<Symbol, string>, mismatches: seq<Symbol>, total: nat)
    requires forall s :: s in names ==> s in led
  {
    && (forall s :: s in lakeHashes <==> s in names)
    && (forall s :: s in lakeHashes ==> lakeHashes[s] == hash(Bars(read(s))))
    && (forall s :: s in mismatches <==> s in names && hash(Bars(read(s))) != led[s])
    && total == TotalBars(names, read)
  }

  lemma CheckOneMore(hash: seq<Bar> -> string, led: map<Symbol, string>, read: Symbol -> seq<Row>, names: seq<Symbol>,
                     lakeHashes: map<Symbol, string>, mismatches: seq<Symbol>, total: nat, s: Symbol, h: string)
    requires (forall n :: n in names ==> n in led) && s in led && h == hash(Bars(read(s)))
    requires HasChecked(hash, led, read, names, lakeHashes, mismatches, total)
    ensures HasChecked(hash, led, read, names + [s], lakeHashes[s := h],
                       if h != led[s] then mismatches + [s] else mismatches, total + |read(s)|)
  {
    assert (names + [s])[..|names|] == names;
  }

  /** What follows when all symbols have been looked at. */
  lemma AllChecked(hash: seq<Bar> -> string, led: map<Symbol, string>, read: Symbol -> seq<Row>, names: seq<Symbol>,
                   lakeHashes: map<Symbol, string>, mismatches: seq<Symbol>, total: nat)
    requires IsSortedListing(names, led.Keys)
    requires HasChecked(hash, led, read, names, lakeHashes, mismatches, total)
    ensures total == TotalBars(names, read) && lakeHashes.Keys == led.Keys
    ensures forall s :: s in mismatches <==> s in led && hash(Bars(read(s))) != led[s]
    ensures mismatches == [] ==> Pairs(names, lakeHashes) == Pairs(names, led)
  {
    if mismatches == [] {
      forall i | 0 <= i < |names|
        ensures lakeHashes[names[i]] == led[names[i]]
      {
        assert names[i] in names && names[i] !in mismatches;
      }
    }
  }

  method Gate(hash: seq<Bar> -> string, seal: seq<(Symbol, string)> -> string, led: map<Symbol, string>,
              read: Symbol -> seq<Row>, expected: string)
    returns (ok: bool, mismatches: seq<Symbol>, total: nat, ghost names: seq<Symbol>)
    ensures IsSortedListing(names, led.Keys) && total == TotalBars(names, read)
    ensures forall s :: s in mismatches <==> s in led && hash(Bars(read(s))) != led[s]
    ensures ok <==> mismatches == [] && seal(Pairs(names, led)) == expected
  {
    var sorted := Sorted(led.Keys);
    names := sorted;
    var lakeHashes;
    lakeHashes, mismatches, total := HashAll(hash, led, read, sorted);
    AllChecked(hash, led, read, sorted, lakeHashes, mismatches, total);
    var again := Sorted(lakeHashes.Keys);
    ListingIsUnique(again, sorted, led.Keys);
    var merkle := seal(Pairs(again, lakeHashes));
    ok := mismatches == [] && merkle == expected;
  }

  /** The gate's loop over the symbols. */
  lemma OneMoreName(names: seq<Symbol>, i: nat)
    requires i < |names|
    ensures names[..i + 1] == names[..i] + [names[i]]
  {
  }

  lemma NothingChecked(hash: seq<Bar> -> string, led: map<Symbol, string>, read: Symbol -> seq<Row>)
    ensures HasChecked(hash, led, read, [], map[], [], 0)
  {
  }

  method HashAll(hash: seq<Bar> -> string, led: map<Symbol, string>, read: Symbol -> seq<Row>, names: seq<Symbol>)
    returns (lakeHashes: map<Symbol, string>, mismatches: seq<Symbol>, total: nat)
    requires forall s :: s in names ==> s in led
    ensures HasChecked(hash, led, read, names, lakeHashes, mismatches, total)
  {
    lakeHashes, mismatches, total := map[], [], 0;
    NothingChecked(hash, led, read);
    hide HasChecked, Bars;
    assert names[..0] == [];
    for i := 0 to |names|
      invariant HasChecked(hash, led, read, names[..i], lakeHashes, mismatches, total)
    {
      var s := names[i];
      var w := read(s);
      var h := hash(Bars(w));
      CheckOneMore(hash, led, read, names[..i], lakeHashes, mismatches, total, s, h);
      OneMoreName(names, i);
      lakeHashes := lakeHashes[s := h];
      total := total + |w|;
      if h != led[s] {
        mismatches := mismatches + [s];
      }
    }
    assert names[..|names|] == names;
  }

  /** The ledger holds the hashes of what was read when it was written. */
  ghost predicate RecordsLake(hash: seq<Bar> -> string, led: map<Symbol, string>, lake: multiset<Row>) {
    forall s, w :: s in led && IsWindow(lake, s, w) ==> led[s] == hash(Bars(w))
  }

  /** With an injective hash the gate finds no mismatch exactly when the hashed columns of every ledger
      symbol read back as they were recorded. */
  lemma NoMismatchMeansSameBars(hash: seq<Bar> -> string, led: map<Symbol, string>, original: multiset<Row>,
                                first: Symbol -> seq<Row>, read: Symbol -> seq<Row>)
    requires IsInjective(hash) && RecordsLake(hash, led, original) && ReadsLake(original, first, led.Keys)
    ensures forall s :: s in led ==>
              (hash(Bars(read(s))) == led[s] <==> AreSameBars(read(s), first(s)))
  {
    forall s | s in led
      ensures hash(Bars(read(s))) == led[s] <==> AreSameBars(read(s), first(s))
    {
      assert led[s] == hash(Bars(first(s)));
      BarsAreColumns(read(s), first(s));
    }
  }

  /** Bar by bar the same opening time, features and masks. */
  ghost predicate AreSameBars(w: seq<Row>, v: seq<Row>) {
    |w| == |v| && forall i :: 0 <= i < |w| ==> w[i].ts == v[i].ts && w[i].x == v[i].x && w[i].mask == v[i].mask
  }

  /** So the gate passes exactly when every ledger symbol reads back with the recorded opening times,
      features and masks, and the seal is the expected one. */
  method PassesExactly(hash: seq<Bar> -> string, seal: seq<(Symbol, string)> -> string, led: map<Symbol, string>,
                       ghost original: multiset<Row>, ghost first: Symbol -> seq<Row>, read: Symbol -> seq<Row>,
                       expected: string)
    returns (ok: bool, ghost names: seq<Symbol>)
    requires IsInjective(hash) && RecordsLake(hash, led, original) && ReadsLake(original, first, led.Keys)
    ensures IsSortedListing(names, led.Keys)
    ensures ok <==> (forall s :: s in led ==> AreSameBars(read(s), first(s))) && seal(Pairs(names, led)) == expected
  {
    var mismatches, total;
    ok, mismatches, total, names := Gate(hash, seal, led, read, expected);
    NoMismatchMeansSameBars(hash, led, original, first, read);
    assert mismatches != [] ==> mismatches[0] in mismatches;
  }

  /** A ledger written from one read holds for every read, if ties look alike. */
  lemma OneReadRecordsTheLake(hash: seq<Bar> -> string, led: map<Symbol, string>, lake: multiset<Row>,
      first: Symbol -> seq<Row>)
    requires ReadsLake(lake, first, led.Keys) && forall s :: s in led ==> led[s] == hash(Bars(first(s)))
    requires forall s :: s in led ==> TiesLookAlike(lake, s)
    ensures RecordsLake(hash, led, lake)
  {
    forall s, w | s in led && IsWindow(lake, s, w)
      ensures led[s] == hash(Bars(w))
    {
      ReadsAgree(lake, s, first(s), w);
    }
  }

  /** The whole promise: the ledger written from the day files, rewriting into month files, reading back
      in whatever order: no symbol mismatches. */
  lemma CompactedLakePasses(hash: seq<Bar> -> string, led: map<Symbol, string>, days: seq<seq<Row>>, files: seq<File>,
                            first: Symbol -> seq<Row>, read: Symbol -> seq<Row>)
    requires Content(files) == Loose(days)
    requires ReadsLake(Loose(days), first, led.Keys) && forall s :: s in led ==> led[s] == hash(Bars(first(s)))
    requires forall s :: s in led ==> TiesLookAlike(Loose(days), s)
    requires ReadsLake(Content(files), read, led.Keys)
    ensures forall s :: s in led ==> Bars(read(s)) == Bars(first(s)) && hash(Bars(read(s))) == led[s]
  {
    forall s | s in led
      ensures Bars(read(s)) == Bars(first(s))
    {
      ReadsAgree(Loose(days), s, read(s), first(s));
    }
  }

  // ------------------------------------------------------------------ what the gate does not see

  /** Adding or removing a row that no ledger symbol reads, of another frequency or of a symbol outside
      the ledger, leaves every read as it was. */
  lemma UnreadRowsAreNotCovered(lake: multiset<Row>, r: Row, symbol: Symbol, w: seq<Row>)
    requires r.symbol != symbol || r.frequency != "1m" || r.ts < 0 || r.ts >= 1000000000000000
    ensures IsWindow(lake, symbol, w) <==> IsWindow(lake + multiset{r}, symbol, w)
  {
    forall q: Row | IsRead(q, symbol)
      ensures lake[q] == (lake + multiset{r})[q]
    {
    }
  }

  /** Every other row is covered: with one more or one less of it no read stays as it was. */
  lemma ReadRowsAreCovered(lake: multiset<Row>, r: Row, symbol: Symbol, w: seq<Row>)
    requires r.symbol == symbol && r.frequency == "1m" && 0 <= r.ts < 1000000000000000
    ensures !(IsWindow(lake, symbol, w) && IsWindow(lake + multiset{r}, symbol, w))
  {
    assert (lake + multiset{r})[r] == lake[r] + 1;
  }

  /** Changing the columns outside the hash, such as the segment id, anywhere in a read leaves what the
      hash sees as it was. */
  lemma OtherColumnsAreNotCovered(lake: multiset<Row>, symbol: Symbol, w: seq<Row>, i: nat, rest: seq<int>)
    returns (lake': multiset<Row>, w': seq<Row>)
    requires IsWindow(lake, symbol, w) && i < |w|
    ensures var r := w[i]; lake' == lake - multiset{r} + multiset{r.(rest := rest)}
    ensures w' == w[i := w[i].(rest := rest)] && IsWindow(lake', symbol, w') && Bars(w') == Bars(w)
  {
    var r := w[i];
    var r' := r.(rest := rest);
    lake', w' := lake - multiset{r} + multiset{r'}, w[i := r'];
    WindowRows(lake, symbol, w, i);
    assert multiset(w') == multiset(w) - multiset{r} + multiset{r'};
  }
}
