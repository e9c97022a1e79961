/** The bounded ingest plan: smallest symbols first, and a delisted one by exchange if none fits. */
module SubsetSelection {
  import opened Options

  datatype Candidate = Candidate(name: nat, delisted: bool, size: nat)

  const GB := 1000000000.0

  // ------------------------------------------------------------------ sorting by size

  /** Insert behind all candidates that are not larger, as a stable sort does. */
  function Insert(c: Candidate, s: seq<Candidate>): seq<Candidate> {
    if s == [] || c.size < s[0].size then [c] + s else [s[0]] + Insert(c, s[1..])
  }

  /** `sorted(live, key=size)`. */
  function BySize(s: seq<Candidate>): seq<Candidate> {
    if s == [] then [] else Insert(s[|s| - 1], BySize(s[..|s| - 1]))
  }

  predicate InSizeOrder(s: seq<Candidate>) {
    forall i, j :: 0 <= i < j < |s| ==> s[i].size <= s[j].size
  }

  lemma {:induction false} InsertKeepsAll(c: Candidate, s: seq<Candidate>)
    ensures multiset(Insert(c, s)) == multiset(s) + multiset{c}
  {
    if s != [] && c.size >= s[0].size {
      InsertKeepsAll(c, s[1..]);
      assert s == [s[0]] + s[1..];
    }
  }

  lemma {:induction false} InsertStaysAbove(c: Candidate, s: seq<Candidate>, low: nat)
    requires c.size >= low && forall i :: 0 <= i < |s| ==> s[i].size >= low
    ensures forall i :: 0 <= i < |Insert(c, s)| ==> Insert(c, s)[i].size >= low
  {
    if s != [] && c.size >= s[0].size {
      InsertStaysAbove(c, s[1..], low);
    }
  }

  lemma {:induction false} InsertSorts(c: Candidate, s: seq<Candidate>)
    requires InSizeOrder(s)
    ensures InSizeOrder(Insert(c, s))
  {
    if s != [] && c.size >= s[0].size {
      InsertSorts(c, s[1..]);
      InsertStaysAbove(c, s[1..], s[0].size);
    }
  }

  lemma {:induction false} BySizeSorts(s: seq<Candidate>)
    ensures InSizeOrder(BySize(s)) && multiset(BySize(s)) == multiset(s) && |BySize(s)| == |s|
  {
    if s != [] {
      BySizeSorts(s[..|s| - 1]);
      InsertSorts(s[|s| - 1], BySize(s[..|s| - 1]));
      InsertKeepsAll(s[|s| - 1], BySize(s[..|s| - 1]));
      assert s == s[..|s| - 1] + [s[|s| - 1]];
    }
    assert |multiset(BySize(s))| == |BySize(s)| && |multiset(s)| == |s|;
  }

  // ------------------------------------------------------------------ limits

  function Total(s: seq<Candidate>): nat {
    if s == [] then 0 else Total(s[..|s| - 1]) + s[|s| - 1].size
  }

  /** `(max_gb or 1e9) * GB`: no bound and a bound of zero both mean a billion gigabytes. */
  function Budget(maxGb: Option<real>): real {
    match maxGb
    case None => 1000000000.0 * GB
    case Some(g) => if g == 0.0 then 1000000000.0 * GB else g * GB
  }

  /** `if max_symbols and len(chosen) >= max_symbols`: zero is no bound either. */
  predicate IsFull(maxSymbols: Option<int>, n: nat) {
    maxSymbols.Some? && maxSymbols.value != 0 && n >= maxSymbols.value
  }

  /** The loop takes one more candidate after `k`. */
  predicate TakesMore(sorted: seq<Candidate>, maxSymbols: Option<int>, budget: real, k: nat)
    requires k <= |sorted|
  {
    k < |sorted| && !IsFull(maxSymbols, k) && (k == 0 || Total(sorted[..k + 1]) as real <= budget)
  }

  /** The first place where the loop stops. */
  predicate IsGreedyCount(sorted: seq<Candidate>, maxSymbols: Option<int>, budget: real, k: nat) {
    && k <= |sorted| && !TakesMore(sorted, maxSymbols, budget, k)
    && forall j :: 0 <= j < k ==> TakesMore(sorted, maxSymbols, budget, j)
  }

  predicate HasDelisted(s: seq<Candidate>) {
    exists c :: c in s && c.delisted
  }

  /** The first delisted candidate in size order. */
  predicate IsFirstDelisted(sorted: seq<Candidate>, d: nat) {
    d < |sorted| && sorted[d].delisted && forall j :: 0 <= j < d ==> !sorted[j].delisted
  }

  /** What the exchange makes of the greedy prefix. */
  ghost predicate IsExchanged(sorted: seq<Candidate>, k: nat, r: Option<seq<Candidate>>)
    requires k <= |sorted|
  {
    if HasDelisted(sorted[..k]) || !HasDelisted(sorted) then r == Some(sorted[..k])
    else if k == 0 then r == None
    else exists d: nat :: IsFirstDelisted(sorted, d) && r == Some(sorted[..k - 1] + [sorted[d]])
  }

  /** A greedy prefix, exchanged. */
  ghost predicate IsPlan(live: seq<Candidate>, maxSymbols: Option<int>, budget: real, r: Option<seq<Candidate>>) {
    exists k: nat :: IsGreedyCount(BySize(live), maxSymbols, budget, k) && IsExchanged(BySize(live), k, r)
  }

  /** None is the IndexError of replacing the last of no candidates. */
  method SelectSubset(live: seq<Candidate>, maxSymbols: Option<int>, maxGb: Option<real>)
    returns (r: Option<seq<Candidate>>)
    ensures IsPlan(live, maxSymbols, Budget(maxGb), r)
  {
    var bySize := BySize(live);
    var chosen := TakeSmallest(bySize, maxSymbols, Budget(maxGb));
    r := ExchangeLast(bySize, chosen);
  }

  /** The loop: smallest first, until the count or the budget stops it. */
  method TakeSmallest(bySize: seq<Candidate>, maxSymbols: Option<int>, budget: real) returns (chosen: seq<Candidate>)
    ensures IsGreedyCount(bySize, maxSymbols, budget, |chosen|) && chosen == bySize[..|chosen|]
  {
    chosen := [];
    var used := 0;
    for i := 0 to |bySize|
      invariant |chosen| == i && chosen == bySize[..i] && used == Total(chosen)
      invariant forall j :: 0 <= j < i ==> TakesMore(bySize, maxSymbols, budget, j)
    {
      assert bySize[..i + 1] == bySize[..i] + [bySize[i]];
      if IsFull(maxSymbols, |chosen|) {
        break;
      }
      var size := bySize[i].size;
      if (used + size) as real > budget && chosen != [] {
        break;
      }
      chosen := chosen + [bySize[i]];
      used := used + size;
    }
  }

  /** The exchange: a delisted symbol in the last place if there is none yet. */
  method ExchangeLast(bySize: seq<Candidate>, chosen: seq<Candidate>) returns (r: Option<seq<Candidate>>)
    requires |chosen| <= |bySize| && chosen == bySize[..|chosen|]
    ensures IsExchanged(bySize, |chosen|, r)
  {
    var found := AnyDelisted(chosen);
    if found {
      return Some(chosen);
    }
    var d := FirstDelisted(bySize);
    if d == |bySize| {
      assert !HasDelisted(bySize);
      return Some(chosen);
    }
    assert bySize[d] in bySize;
    if chosen == [] {
      return None;
    }
    r := Some(chosen[..|chosen| - 1] + [bySize[d]]);
    assert IsFirstDelisted(bySize, d);
    assert chosen[..|chosen| - 1] == bySize[..|chosen| - 1];
  }

  /** A budget other than zero is in units of a billion bytes. */
  lemma BudgetIs(g: real)
    ensures g != 0.0 ==> Budget(Some(g)) == g * 1000000000.0
  {
  }

  /** The candidates of one size, in order. */
  function OfSize(s: seq<Candidate>, n: nat): seq<Candidate> {
    if s == [] then [] else OfSize(s[..|s| - 1], n) + (if s[|s| - 1].size == n then [s[|s| - 1]] else [])
  }

  lemma {:induction false} OfSizeAppend(a: seq<Candidate>, b: seq<Candidate>, n: nat)
    ensures OfSize(a + b, n) == OfSize(a, n) + OfSize(b, n)
    decreases |b|
  {
    if b == [] {
      assert a + b == a;
    } else {
      OfSizeAppend(a, b[..|b| - 1], n);
      assert (a + b)[..|a + b| - 1] == a + b[..|b| - 1];
    }
  }

  lemma {:induction false} NoneOfSize(s: seq<Candidate>, n: nat)
    requires forall i :: 0 <= i < |s| ==> s[i].size != n
    ensures OfSize(s, n) == []
  {
    if s != [] {
      NoneOfSize(s[..|s| - 1], n);
    }
  }

  lemma OneOfSize(c: Candidate, n: nat)
    ensures OfSize([c], n) == if c.size == n then [c] else []
  {
    assert [c][..0] == [];
  }

  lemma {:induction false} InsertedLast(c: Candidate, s: seq<Candidate>, n: nat)
    requires InSizeOrder(s)
    ensures OfSize(Insert(c, s), n) == OfSize(s, n) + OfSize([c], n)
  {
    hide OfSize;
    OneOfSize(c, n);
    if s == [] || c.size < s[0].size {
      OfSizeAppend([c], s, n);
      if c.size == n {
        NoneOfSize(s, n);
      }
    } else {
      InsertedLast(c, s[1..], n);
      OfSizeAppend([s[0]], Insert(c, s[1..]), n);
      OfSizeAppend([s[0]], s[1..], n);
      assert s == [s[0]] + s[1..];
      Regrouped(OfSize([s[0]], n), OfSize(s[1..], n), OfSize([c], n));
    }
  }

  lemma Regrouped(a: seq<Candidate>, b: seq<Candidate>, c: seq<Candidate>)
    ensures (a + b) + c == a + (b + c)
  {
  }

  /** The sort is stable: candidates of one size stay in the order of the plan. */
  lemma {:induction false} BySizeIsStable(s: seq<Candidate>, n: nat)
    ensures OfSize(BySize(s), n) == OfSize(s, n)
  {
    if s != [] {
      var init, c := s[..|s| - 1], s[|s| - 1];
      BySizeIsStable(init, n);
      BySizeSorts(init);
      InsertedLast(c, BySize(init), n);
      OneOfSize(c, n);
    }
  }

  /** Zero is no bound: it selects what no bound selects, on every list. */
  lemma ZeroIsNoBound(live: seq<Candidate>, r: Option<seq<Candidate>>)
    ensures Budget(Some(0.0)) == Budget(None)
    ensures forall sorted, budget, k: nat :: IsGreedyCount(sorted, Some(0), budget, k) <==>
              IsGreedyCount(sorted, None, budget, k)
    ensures IsPlan(live, Some(0), Budget(Some(0.0)), r) <==> IsPlan(live, None, Budget(None), r)
  {
    forall sorted, budget, k: nat
      ensures IsGreedyCount(sorted, Some(0), budget, k) <==> IsGreedyCount(sorted, None, budget, k)
    {
      assert forall j: nat :: j <= |sorted| ==>
               (TakesMore(sorted, Some(0), budget, j) <==> TakesMore(sorted, None, budget, j));
    }
  }

  method AnyDelisted(s: seq<Candidate>) returns (found: bool)
    ensures found <==> HasDelisted(s)
  {
    for i := 0 to |s|
      invariant forall j :: 0 <= j < i ==> !s[j].delisted
    {
      if s[i].delisted {
        return true;
      }
    }
    return false;
  }

  method FirstDelisted(s: seq<Candidate>) returns (d: nat)
    ensures d <= |s| && (d < |s| ==> IsFirstDelisted(s, d)) && forall j :: 0 <= j < d ==> !s[j].delisted
  {
    d := 0;
    while d < |s| && !s[d].delisted
      invariant d <= |s| && forall j :: 0 <= j < d ==> !s[j].delisted
    {
      d := d + 1;
    }
  }

  // ------------------------------------------------------------------ the greedy count is the best count

  /** The candidates of a sequence that a choice takes. */
  function Picked(s: seq<Candidate>, choice: set<Candidate>): seq<Candidate> {
    if s == [] then []
    else if s[|s| - 1] in choice then Picked(s[..|s| - 1], choice) + [s[|s| - 1]]
    else Picked(s[..|s| - 1], choice)
  }

  lemma TotalSnoc(p: seq<Candidate>, x: Candidate)
    ensures Total(p + [x]) == Total(p) + x.size
  {
    assert (p + [x])[..|p|] == p;
  }

  /** A choice of `m` from an ascending sequence weighs at least its first `m`. */
  lemma {:induction false} PrefixIsLightest(sorted: seq<Candidate>, choice: set<Candidate>)
    requires InSizeOrder(sorted)
    ensures |Picked(sorted, choice)| <= |sorted|
    ensures Total(sorted[..|Picked(sorted, choice)|]) <= Total(Picked(sorted, choice))
  {
    if sorted != [] {
      var n := |sorted| - 1;
      var s', x := sorted[..n], sorted[n];
      PrefixIsLightest(s', choice);
      var p := Picked(s', choice);
      assert s'[..|p|] == sorted[..|p|];
      if x in choice {
        TotalSnoc(p, x);
        TotalSnoc(sorted[..|p|], sorted[|p|]);
        assert sorted[..|p| + 1] == sorted[..|p|] + [sorted[|p|]];
        assert sorted[|p|].size <= x.size;
      }
    }
  }

  /** What a choice takes does not depend on the order of the candidates. */
  lemma {:induction false} PickedAfterInsert(c: Candidate, s: seq<Candidate>, choice: set<Candidate>)
    ensures Total(Picked(Insert(c, s), choice)) == Total(Picked(s + [c], choice))
    ensures |Picked(Insert(c, s), choice)| == |Picked(s + [c], choice)|
  {
    hide Picked, Total;
    PickedSplits([c], s, choice);
    PickedSplits(s, [c], choice);
    if s != [] && c.size >= s[0].size {
      PickedAfterInsert(c, s[1..], choice);
      PickedSplits([s[0]], Insert(c, s[1..]), choice);
      PickedSplits([s[0]], s[1..], choice);
      PickedSplits(s[1..], [c], choice);
      assert s == [s[0]] + s[1..];
    }
  }

  lemma {:induction false} PickedSplits(a: seq<Candidate>, b: seq<Candidate>, choice: set<Candidate>)
    ensures Total(Picked(a + b, choice)) == Total(Picked(a, choice)) + Total(Picked(b, choice))
    ensures |Picked(a + b, choice)| == |Picked(a, choice)| + |Picked(b, choice)|
  {
    if b == [] {
      assert a + b == a;
    } else {
      var b', x := b[..|b| - 1], b[|b| - 1];
      PickedSplits(a, b', choice);
      assert (a + b)[..|a + b| - 1] == a + b';
      var p, q := Picked(a + b', choice), Picked(b', choice);
      if x in choice {
        TotalSnoc(p, x);
        TotalSnoc(q, x);
      }
    }
  }

  lemma PickedAfterStep(sorted: seq<Candidate>, s: seq<Candidate>, x: Candidate, choice: set<Candidate>)
    requires Total(Picked(sorted, choice)) == Total(Picked(s, choice))
    requires |Picked(sorted, choice)| == |Picked(s, choice)|
    ensures Total(Picked(Insert(x, sorted), choice)) == Total(Picked(s + [x], choice))
    ensures |Picked(Insert(x, sorted), choice)| == |Picked(s + [x], choice)|
  {
    hide Picked, Total, Insert;
    PickedAfterInsert(x, sorted, choice);
    PickedSplits(sorted, [x], choice);
    PickedSplits(s, [x], choice);
  }

  lemma {:induction false} PickedAfterSort(s: seq<Candidate>, choice: set<Candidate>)
    ensures Total(Picked(BySize(s), choice)) == Total(Picked(s, choice))
    ensures |Picked(BySize(s), choice)| == |Picked(s, choice)|
  {
    hide Picked, Total, Insert;
    if s == [] {
      assert BySize(s) == s;
    } else {
      var s', x := s[..|s| - 1], s[|s| - 1];
      PickedAfterSort(s', choice);
      PickedAfterStep(BySize(s'), s', x, choice);
      assert s == s' + [x];
    }
  }

  /** No choice within the two limits takes more candidates than the loop does. */
  lemma GreedyTakesTheMost(live: seq<Candidate>, maxSymbols: Option<int>, budget: real, k: nat, choice: set<Candidate>)
    requires IsGreedyCount(BySize(live), maxSymbols, budget, k)
    requires Total(Picked(live, choice)) as real <= budget
    requires maxSymbols.Some? && maxSymbols.value != 0 ==> |Picked(live, choice)| <= maxSymbols.value
    ensures |Picked(live, choice)| <= k
  {
    hide BySize, Picked;
    var sorted, m := BySize(live), |Picked(live, choice)|;
    BySizeSorts(live);
    PickedAfterSort(live, choice);
    PrefixIsLightest(sorted, choice);
    if m > k {
      TotalGrows(sorted, k + 1, m);
    }
  }

  lemma {:induction false} TotalGrows(s: seq<Candidate>, a: nat, b: nat)
    requires a <= b <= |s|
    ensures Total(s[..a]) <= Total(s[..b])
    decreases b
  {
    if a < b {
      TotalGrows(s, a, b - 1);
      assert s[..b][..b - 1] == s[..b - 1];
    }
  }

  /** What the loop takes is within a positive count, nothing under a negative one. */
  lemma GreedyStaysInCount(live: seq<Candidate>, maxSymbols: Option<int>, budget: real, k: nat)
    requires IsGreedyCount(BySize(live), maxSymbols, budget, k) && maxSymbols.Some?
    ensures maxSymbols.value > 0 ==> k <= maxSymbols.value
    ensures maxSymbols.value < 0 ==> k == 0
  {
    if k > 0 {
      assert TakesMore(BySize(live), maxSymbols, budget, k - 1);
    }
  }

  /** And what the loop takes is within the budget, unless its first candidate alone is not. */
  lemma GreedyStaysInBudget(live: seq<Candidate>, maxSymbols: Option<int>, budget: real, k: nat)
    requires IsGreedyCount(BySize(live), maxSymbols, budget, k)
    ensures var taken := BySize(live)[..k];
            k > 0 ==> (Total(taken) as real <= budget <==> BySize(live)[0].size as real <= budget)
  {
    var sorted := BySize(live);
    if k > 0 {
      assert sorted[..1][..0] == [];
      TotalGrows(sorted, 1, k);
      assert TakesMore(sorted, maxSymbols, budget, k - 1);
      assert sorted[..k - 1 + 1] == sorted[..k];
    }
  }

  // ------------------------------------------------------------------ after the exchange

  predicate AreDistinct(s: seq<Candidate>) {
    forall i, j :: 0 <= i < j < |s| ==> s[i] != s[j]
  }

  lemma SortKeepsDistinct(s: seq<Candidate>)
    requires AreDistinct(s)
    ensures AreDistinct(BySize(s))
  {
    BySizeSorts(s);
    var t := BySize(s);
    forall i, j | 0 <= i < j < |t|
      ensures t[i] != t[j]
    {
      if t[i] == t[j] {
        CountsTwice(t, i, j);
        AtMostOnce(s, t[i]);
      }
    }
  }

  lemma CountsTwice(t: seq<Candidate>, i: nat, j: nat)
    requires i < j < |t| && t[i] == t[j]
    ensures multiset(t)[t[i]] >= 2
  {
    assert t == t[..i] + [t[i]] + t[i + 1..j] + [t[j]] + t[j + 1..];
  }

  lemma AtMostOnce(s: seq<Candidate>, c: Candidate)
    requires AreDistinct(s)
    ensures multiset(s)[c] <= 1
  {
    if c in s {
      var i :| 0 <= i < |s| && s[i] == c;
      assert c !in s[..i] && c !in s[i + 1..];
      CountedApart(s, i);
    }
  }

  lemma CountedApart(s: seq<Candidate>, i: nat)
    requires i < |s|
    ensures multiset(s) == multiset(s[..i]) + multiset{s[i]} + multiset(s[i + 1..])
  {
    assert s == s[..i] + [s[i]] + s[i + 1..];
  }

  lemma SameMembers(s: seq<Candidate>)
    ensures forall c :: c in BySize(s) <==> c in s
    ensures HasDelisted(BySize(s)) <==> HasDelisted(s)
  {
    BySizeSorts(s);
    forall c
      ensures c in BySize(s) <==> c in s
    {
      assert c in multiset(BySize(s)) <==> c in multiset(s);
    }
  }

  /** The plan has as many symbols as the greedy one, all different, all live, and a delisted one
      exactly when there is one. */
  lemma ExchangeKeepsThePlan(live: seq<Candidate>, maxSymbols: Option<int>, budget: real, k: nat, r: seq<Candidate>)
    requires AreDistinct(live) && IsGreedyCount(BySize(live), maxSymbols, budget, k)
    requires IsExchanged(BySize(live), k, Some(r))
    ensures |r| == k && AreDistinct(r) && forall c :: c in r ==> c in live
    ensures HasDelisted(r) <==> HasDelisted(live)
  {
    var sorted := BySize(live);
    BySizeSorts(live);
    SortKeepsDistinct(live);
    SameMembers(live);
    if !(HasDelisted(sorted[..k]) || !HasDelisted(sorted)) {
      var d: nat :| IsFirstDelisted(sorted, d) && r == sorted[..k - 1] + [sorted[d]];
      LaterThanThePrefix(sorted, k, d);
      assert r[k - 1] in r && r[k - 1].delisted;
    }
  }

  lemma LaterThanThePrefix(sorted: seq<Candidate>, k: nat, d: nat)
    requires k <= |sorted| && !HasDelisted(sorted[..k]) && IsFirstDelisted(sorted, d)
    ensures d >= k
  {
    assert forall j :: 0 <= j < k ==> sorted[..k][j] in sorted[..k] && sorted[..k][j] == sorted[j];
  }

  /** There is no plan exactly when a negative bound meets a delisted symbol. */
  lemma NoPlanIsANegativeBound(live: seq<Candidate>, maxSymbols: Option<int>, budget: real, k: nat)
    requires IsGreedyCount(BySize(live), maxSymbols, budget, k)
    ensures IsExchanged(BySize(live), k, None) <==> maxSymbols.Some? && maxSymbols.value < 0 && HasDelisted(live)
  {
    var sorted := BySize(live);
    BySizeSorts(live);
    SameMembers(live);
    assert k == 0 <==> !TakesMore(sorted, maxSymbols, budget, 0);
    assert live == [] ==> !HasDelisted(live);
  }

  /** What comes in by the exchange is a smallest delisted candidate. */
  lemma ExchangeTakesTheSmallest(live: seq<Candidate>, k: nat, r: seq<Candidate>)
    requires 0 < k <= |BySize(live)| && IsExchanged(BySize(live), k, Some(r))
    requires !HasDelisted(BySize(live)[..k]) && HasDelisted(BySize(live))
    ensures |r| == k && r[k - 1] in live && r[k - 1].delisted
    ensures forall c :: c in live && c.delisted ==> r[k - 1].size <= c.size
  {
    BySizeSorts(live);
    SameMembers(live);
    var sorted := BySize(live);
    var d: nat :| IsFirstDelisted(sorted, d) && r == sorted[..k - 1] + [sorted[d]];
    forall c | c in live && c.delisted
      ensures sorted[d].size <= c.size
    {
      var j :| 0 <= j < |sorted| && sorted[j] == c;
    }
  }

  /** The exchange trades the heaviest taken for one no lighter; the plan stays in the budget exactly when
      the difference fits too. */
  lemma ExchangeWeighs(live: seq<Candidate>, maxSymbols: Option<int>, budget: real, k: nat, r: seq<Candidate>)
    requires IsGreedyCount(BySize(live), maxSymbols, budget, k) && IsExchanged(BySize(live), k, Some(r))
    requires !HasDelisted(BySize(live)[..k]) && HasDelisted(BySize(live))
    ensures k > 0 && |r| == k
    ensures var taken := BySize(live)[..k];
            && r[k - 1].size >= taken[k - 1].size
            && Total(r) == Total(taken) + (r[k - 1].size - taken[k - 1].size)
            && (Total(r) as real <= budget <==>
                  (r[k - 1].size - taken[k - 1].size) as real <= budget - Total(taken) as real)
  {
    var sorted := BySize(live);
    BySizeSorts(live);
    var d: nat :| IsFirstDelisted(sorted, d) && r == sorted[..k - 1] + [sorted[d]];
    LaterThanThePrefix(sorted, k, d);
    assert r[..k - 1] == sorted[..k][..k - 1] == sorted[..k - 1];
  }

  /** A budget that the greedy plan keeps and the exchanged one breaks. */
  lemma ExchangeCanBreakTheBudget()
    ensures var live := [Candidate(0, false, 1000000000), Candidate(1, true, 3000000000)];
            var taken, r := [live[0]], [live[1]];
            && BySize(live) == live
            && IsGreedyCount(live, None, Budget(Some(2.0)), 1) && IsExchanged(live, 1, Some(r))
            && Total(taken) as real <= Budget(Some(2.0)) < Total(r) as real
  {
    var live := [Candidate(0, false, 1000000000), Candidate(1, true, 3000000000)];
    assert live[..1] == [live[0]] && BySize(live[..1]) == [live[0]];
    assert Insert(live[1], [live[0]]) == live;
    assert Total([live[0]]) == 1000000000 && Total([live[1]]) == 3000000000;
    assert live[..2] == live && live[..0] == [];
    assert Total(live) == 4000000000;
    assert TakesMore(live, None, Budget(Some(2.0)), 0);
    assert !TakesMore(live, None, Budget(Some(2.0)), 1);
    assert live[1] in live;
    assert IsFirstDelisted(live, 1) && live[..0] + [live[1]] == [live[1]];
  }
}
