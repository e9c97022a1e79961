/** Reading and writing integers in decimal, as `int(text)` and `str(number)` do for ASCII text. */
module Decimal {
  import opened Options
  import opened ByteStrings

  /** The interpreter refuses to convert longer digit strings. */
  const MAX_DIGITS := 4300

  predicate IsDigit(c: char) {
    '0' <= c <= '9'
  }

  /** Digits with single underscores between them. */
  predicate DigitRun(s: Bytes) {
    && s != [] && IsDigit(s[0]) && IsDigit(s[|s| - 1])
    && (forall k :: 0 <= k < |s| ==> IsDigit(s[k]) || s[k] == '_')
    && (forall k :: 0 < k < |s| ==> s[k - 1] != '_' || s[k] != '_')
  }

  function DigitCount(s: Bytes): nat {
    if s == [] then 0 else DigitCount(s[..|s| - 1]) + (if IsDigit(s[|s| - 1]) then 1 else 0)
  }

  function Value(s: Bytes): nat {
    if s == [] then 0
    else
      var init, last := Value(s[..|s| - 1]), s[|s| - 1];
      if IsDigit(last) then 10 * init + (last as int - '0' as int) else init
  }

  function ParseNat(s: Bytes): Option<nat> {
    if DigitRun(s) && DigitCount(s) <= MAX_DIGITS then Some(Value(s)) else None
  }

  function Signed(negative: bool, n: Option<nat>): Option<int> {
    if n.None? then None
    else
      var v: int := n.value;
      Some(if negative then -v else v)
  }

  /** `int(text)`: surrounding space, a sign, and a digit run; None is the ValueError. */
  function ParseInt(text: Bytes): Option<int> {
    var s := StripSpace(text);
    if s == [] then None
    else if s[0] == '-' then Signed(true, ParseNat(s[1..]))
    else Signed(false, ParseNat(if s[0] == '+' then s[1..] else s))
  }

  function ShowNat(n: nat): (s: Bytes)
    ensures s != [] && forall c :: c in s ==> IsDigit(c)
  {
    var last := ('0' as int + n % 10) as char;
    if n < 10 then [last] else ShowNat(n / 10) + [last]
  }

  function ShowInt(n: int): Bytes {
    if n < 0 then "-" + ShowNat(-n) else ShowNat(n)
  }

  lemma {:induction false} ShowNatReadsBack(n: nat)
    ensures DigitRun(ShowNat(n)) && DigitCount(ShowNat(n)) == |ShowNat(n)| && Value(ShowNat(n)) == n
  {
    var s := ShowNat(n);
    if n < 10 {
      assert s[..0] == [];
    } else {
      ShowNatReadsBack(n / 10);
      assert s[..|s| - 1] == ShowNat(n / 10);
    }
  }

  lemma ParseNatReadsBack(n: nat)
    ensures ParseNat(ShowNat(n)) == if |ShowNat(n)| <= MAX_DIGITS then Some(n) else None
  {
    ShowNatReadsBack(n);
  }

  lemma DigitsAreTrimmed(n: int)
    ensures StripSpace(ShowInt(n)) == ShowInt(n)
    ensures n >= 0 ==> IsDigit(ShowInt(n)[0])
  {
    var digits := ShowNat(if n < 0 then -n else n);
    var s := ShowInt(n);
    assert digits[0] in digits && digits[|digits| - 1] in digits;
    assert s[|s| - 1] == digits[|digits| - 1];
    StripTrimmed(s, IsSpace);
  }

  /** Writing then reading gives the number back, up to the interpreter's limit and no further. */
  lemma IntRoundTrip(n: int)
    ensures ParseInt(ShowInt(n)) == if |ShowNat(if n < 0 then -n else n)| <= MAX_DIGITS then Some(n) else None
  {
    DigitsAreTrimmed(n);
    ParseNatReadsBack(if n < 0 then -n else n);
    if n < 0 {
      assert ShowInt(n)[1..] == ShowNat(-n);
    }
  }

  // ------------------------------------------------------------------ other ways to write a number

  /** Space around a number changes nothing. */
  lemma SpaceIsIgnored(left: Bytes, s: Bytes, right: Bytes)
    requires s != [] && Trimmed(s, IsSpace)
    requires (forall c :: c in left ==> IsSpace(c)) && (forall c :: c in right ==> IsSpace(c))
    ensures ParseInt(left + s + right) == ParseInt(s)
  {
    StripPadded(left, s, right, IsSpace);
    StripTrimmed(s, IsSpace);
  }

  /** A sign, a digit run of an allowed length, and its value: what is read of a trimmed text, and nothing
      else is a number. */
  lemma NumbersAre(s: Bytes)
    requires Trimmed(s, IsSpace)
    ensures ParseInt(s).Some? <==>
            s != [] && var digits := if s[0] == '-' || s[0] == '+' then s[1..] else s;
                       DigitRun(digits) && DigitCount(digits) <= 4300
    ensures ParseInt(s).Some? ==>
              if s[0] == '-' then ParseInt(s).value == -(Value(s[1..]) as int)
              else ParseInt(s).value == Value(if s[0] == '+' then s[1..] else s)
  {
    hide Strip, DigitRun, DigitCount, Value, Trimmed;
    StripTrimmed(s, IsSpace);
  }

  /** Zeros in front do not count, nor do underscores between digits. */
  lemma {:induction false} ZerosInFront(s: Bytes)
    ensures Value("0" + s) == Value(s)
  {
    var t := "0" + s;
    if s == [] {
      assert t[..0] == [] && t[0] == '0';
    } else {
      ZerosInFront(s[..|s| - 1]);
      assert t[..|t| - 1] == "0" + s[..|s| - 1];
    }
  }

  lemma {:induction false} UnderscoresBetween(a: Bytes, b: Bytes)
    ensures Value(a + "_" + b) == Value(a + b)
    decreases |b|
  {
    var t := a + "_" + b;
    if b == [] {
      assert t[..|t| - 1] == a && t[|t| - 1] == '_' && a + b == a;
    } else {
      UnderscoresBetween(a, b[..|b| - 1]);
      assert t[..|t| - 1] == a + "_" + b[..|b| - 1];
      assert (a + b)[..|a + b| - 1] == a + b[..|b| - 1];
    }
  }
}
