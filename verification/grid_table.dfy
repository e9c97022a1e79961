/** The table of dequantized values of every id of a subtoken group: mixed-radix digits, column by column
    from the last. */
module GridTable {
  /** BSQ carries the square root of its dimension. */
  datatype Quantizer = Bsq(root: real) | Fsq

  predicate AreRadices(radix: seq<nat>) {
    forall i :: 0 <= i < |radix| ==> radix[i] > 0
  }

  // ------------------------------------------------------------------ digits

  /** What is left of an id when the columns from `pos` on have been taken off. */
  function Rest(id: nat, radix: seq<nat>, pos: nat): nat
    requires AreRadices(radix) && pos <= |radix|
    decreases |radix| - pos
  {
    if pos == |radix| then id else Rest(id, radix, pos + 1) / radix[pos]
  }

  function Digit(id: nat, radix: seq<nat>, pos: nat): nat
    requires AreRadices(radix) && pos < |radix|
  {
    Rest(id, radix, pos + 1) % radix[pos]
  }

  function Digits(id: nat, radix: seq<nat>): seq<nat>
    requires AreRadices(radix)
  {
    seq(|radix|, i requires 0 <= i < |radix| => Digit(id, radix, i))
  }

  /** `mixed_radix_flatten` after its first `n` columns. */
  function Flatten(codes: seq<nat>, radix: seq<nat>, n: nat): nat
    requires n <= |codes| == |radix|
  {
    if n == 0 then 0 else Flatten(codes, radix, n - 1) * radix[n - 1] + codes[n - 1]
  }

  function Product(radix: seq<nat>, n: nat): nat
    requires n <= |radix|
  {
    if n == 0 then 1 else Product(radix, n - 1) * radix[n - 1]
  }

  predicate InRange(codes: seq<nat>, radix: seq<nat>) {
    |codes| == |radix| && forall i :: 0 <= i < |codes| ==> codes[i] < radix[i]
  }

  // ------------------------------------------------------------------ arithmetic

  lemma DivMod(x: nat, c: nat, b: nat)
    requires c < b
    ensures (x * b + c) / b == x && (x * b + c) % b == c
  {
    var q, r := (x * b + c) / b, (x * b + c) % b;
    assert q * b + r == x * b + c;
    var m := q - x;
    assert m * b == c - r;
    assert m >= 1 ==> (m - 1) * b >= 0;
    assert m <= -1 ==> (m + 1) * b <= 0;
  }

  lemma DigitsInRange(id: nat, radix: seq<nat>)
    requires AreRadices(radix)
    ensures InRange(Digits(id, radix), radix)
  {
  }

  lemma {:induction false} FlatIsBelow(codes: seq<nat>, radix: seq<nat>, n: nat)
    requires n <= |codes| && InRange(codes, radix)
    ensures Flatten(codes, radix, n) < Product(radix, n)
  {
    if n > 0 {
      FlatIsBelow(codes, radix, n - 1);
      OneMoreColumn(Flatten(codes, radix, n - 1), Product(radix, n - 1), radix[n - 1], codes[n - 1]);
    }
  }

  lemma OneMoreColumn(f: nat, p: nat, b: nat, c: nat)
    requires f < p && c < b
    ensures f * b + c < p * b
  {
    Spread(f, p - 1 - f, b);
  }

  lemma Spread(f: nat, r: nat, b: nat)
    ensures (f + 1 + r) * b == f * b + b + r * b >= f * b + b
  {
  }

  /** An id is what is left of it, times the radices, plus its digits flattened again. */
  lemma {:induction false} DigitsAddUp(id: nat, radix: seq<nat>, n: nat)
    requires AreRadices(radix) && n <= |radix|
    ensures Rest(id, radix, n) == Rest(id, radix, 0) * Product(radix, n) + Flatten(Digits(id, radix), radix, n)
  {
    if n > 0 {
      DigitsAddUp(id, radix, n - 1);
      AddColumn(Rest(id, radix, n), Rest(id, radix, 0), Product(radix, n - 1),
          Flatten(Digits(id, radix), radix, n - 1), radix[n - 1]);
    }
  }

  lemma AddColumn(x: nat, r: nat, p: nat, f: nat, b: nat)
    requires b > 0 && x / b == r * p + f
    ensures x == r * (p * b) + (f * b + x % b)
  {
    assert x == (r * p + f) * b + x % b;
    assert (r * p + f) * b == r * (p * b) + f * b;
  }

  // ------------------------------------------------------------------ the bijection

  /** Below the product of the radices nothing is left over, and flattening the digits gives the id
      back; above it neither holds. */
  lemma FlattenInvertsDigits(id: nat, radix: seq<nat>)
    requires AreRadices(radix)
    ensures Rest(id, radix, 0) == 0 <==> id < Product(radix, |radix|)
    ensures Flatten(Digits(id, radix), radix, |radix|) == id <==> id < Product(radix, |radix|)
  {
    var k := |radix|;
    var r, p, f := Rest(id, radix, 0), Product(radix, k), Flatten(Digits(id, radix), radix, k);
    DigitsAddUp(id, radix, k);
    DigitsInRange(id, radix);
    FlatIsBelow(Digits(id, radix), radix, k);
    LeftOver(id, r, p, f);
  }

  lemma LeftOver(id: nat, r: nat, p: nat, f: nat)
    requires id == r * p + f && f < p
    ensures r == 0 <==> id < p
    ensures f == id <==> id < p
  {
    assert r > 0 ==> (r - 1) * p >= 0;
  }

  /** And the digits of a flattened code are the code. */
  lemma {:induction false} RestOfFlat(codes: seq<nat>, radix: seq<nat>, n: nat)
    requires n <= |codes| && InRange(codes, radix) && AreRadices(radix)
    ensures Rest(Flatten(codes, radix, |codes|), radix, n) == Flatten(codes, radix, n)
    decreases |codes| - n
  {
    if n < |codes| {
      RestOfFlat(codes, radix, n + 1);
      DivMod(Flatten(codes, radix, n), codes[n], radix[n]);
    }
  }

  lemma DigitsInvertFlatten(codes: seq<nat>, radix: seq<nat>)
    requires InRange(codes, radix) && AreRadices(radix)
    ensures Flatten(codes, radix, |codes|) < Product(radix, |radix|)
    ensures Digits(Flatten(codes, radix, |codes|), radix) == codes
  {
    FlatIsBelow(codes, radix, |codes|);
    forall i | 0 <= i < |codes|
      ensures Digit(Flatten(codes, radix, |codes|), radix, i) == codes[i]
    {
      RestOfFlat(codes, radix, i + 1);
      DivMod(Flatten(codes, radix, i), codes[i], radix[i]);
    }
  }

  // ------------------------------------------------------------------ the table

  function Dequantized(q: Quantizer, radix: nat, code: nat): real
    requires q.Bsq? ==> q.root > 0.0
  {
    match q
    case Bsq(root) => (2.0 * code as real - 1.0) / root
    case Fsq => code as real - (radix as real - 1.0) / 2.0
  }

  /** The levels: -1 and 1 over the root for BSQ; whole steps centred on zero for FSQ. */
  lemma LevelsAre(q: Quantizer, radix: nat, code: nat)
    requires q.Bsq? ==> q.root > 0.0
    ensures q.Bsq? && code <= 1 ==> Dequantized(q, radix, code) * q.root == if code == 0 then -1.0 else 1.0
    ensures q.Fsq? ==> Dequantized(q, radix, code + 1) == Dequantized(q, radix, code) + 1.0
    ensures q.Fsq? && code < radix ==> Dequantized(q, radix, radix - 1 - code) == -Dequantized(q, radix, code)
  {
    match q
    case Fsq =>
    case Bsq(root) =>
      var x := (2.0 * code as real - 1.0) / root;
      assert x * root == 2.0 * code as real - 1.0;
  }

  lemma DequantizeIsInjective(q: Quantizer, radix: nat, a: nat, b: nat)
    requires q.Bsq? ==> q.root > 0.0
    requires Dequantized(q, radix, a) == Dequantized(q, radix, b)
    ensures a == b
  {
    match q
    case Fsq =>
    case Bsq(root) =>
      var x := (2.0 * a as real - 1.0) / root;
      assert x * root == 2.0 * a as real - 1.0;
      assert x * root == 2.0 * b as real - 1.0;
  }

  lemma InitialRest(radix: seq<nat>)
    requires AreRadices(radix)
    ensures forall id: nat :: Rest(id, radix, |radix|) == id
  {
  }

  /** One turn of the column loop: the column's digits, and what is left of every id. */
  method PeelColumn(radix: seq<nat>, pos: nat, codes: array2<nat>, rem: array<nat>)
    requires AreRadices(radix) && pos < |radix| == codes.Length1 && codes.Length0 == rem.Length
    requires forall id: nat :: id < rem.Length ==> rem[id] == Rest(id, radix, pos + 1)
    modifies codes, rem
    ensures forall id: nat :: id < rem.Length ==> rem[id] == Rest(id, radix, pos)
    ensures forall id: nat :: id < rem.Length ==> codes[id, pos] == Digit(id, radix, pos)
    ensures forall id: nat, j: nat :: id < rem.Length && j < |radix| && j != pos ==> codes[id, j] == old(codes[id, j])
  {
    for id := 0 to rem.Length
      invariant forall i: nat :: i < id ==> rem[i] == Rest(i, radix, pos) && codes[i, pos] == Digit(i, radix, pos)
      invariant forall i: nat :: id <= i < rem.Length ==> rem[i] == Rest(i, radix, pos + 1)
      invariant forall i: nat, j: nat :: i < rem.Length && j < |radix| && j != pos ==> codes[i, j] == old(codes[i, j])
    {
      codes[id, pos] := rem[id] % radix[pos];
      rem[id] := rem[id] / radix[pos];
    }
  }

  method GroupGridTable(q: Quantizer, radix: seq<nat>, v: nat) returns (z: array2<real>, rem: array<nat>)
    requires AreRadices(radix) && (q.Bsq? ==> q.root > 0.0)
    ensures z.Length0 == v == rem.Length && z.Length1 == |radix|
    ensures forall id: nat, pos: nat :: id < v && pos < |radix| ==>
              z[id, pos] == Dequantized(q, radix[pos], Digit(id, radix, pos))
    ensures forall id: nat :: id < v ==> rem[id] == Rest(id, radix, 0)
  {
    hide Dequantized, Rest, Digit;
    InitialRest(radix);
    var codes := new nat[v, |radix|]((_, _) => 0);
    rem := new nat[v](i => i);
    var pos: nat := |radix|;
    while pos > 0
      invariant pos <= |radix|
      invariant forall id: nat :: id < v ==> rem[id] == Rest(id, radix, pos)
      invariant forall id: nat, j: nat :: id < v && pos <= j < |radix| ==> codes[id, j] == Digit(id, radix, j)
    {
      pos := pos - 1;
      PeelColumn(radix, pos, codes, rem);
    }
    z := new real[v, |radix|]((i, j) requires 0 <= i < v && 0 <= j < |radix| reads codes =>
                                Dequantized(q, radix[j], codes[i, j]));
  }

  /** Distinct ids have distinct rows, for both quantizers. */
  lemma RowsAreDistinct(q: Quantizer, radix: seq<nat>, a: nat, b: nat) returns (pos: nat)
    requires AreRadices(radix) && (q.Bsq? ==> q.root > 0.0)
    requires a < Product(radix, |radix|) && b < Product(radix, |radix|) && a != b
    ensures pos < |radix|
    ensures Dequantized(q, radix[pos], Digit(a, radix, pos)) != Dequantized(q, radix[pos], Digit(b, radix, pos))
  {
    FlattenInvertsDigits(a, radix);
    FlattenInvertsDigits(b, radix);
    assert Digits(a, radix) != Digits(b, radix);
    pos :| 0 <= pos < |radix| && Digits(a, radix)[pos] != Digits(b, radix)[pos];
    if Dequantized(q, radix[pos], Digit(a, radix, pos)) == Dequantized(q, radix[pos], Digit(b, radix, pos)) {
      DequantizeIsInjective(q, radix[pos], Digit(a, radix, pos), Digit(b, radix, pos));
    }
  }
}
