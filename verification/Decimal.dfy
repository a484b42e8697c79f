/** Decimal integers as strconv prints and parses them. */
module Decimal {
  import opened Wrappers
  import opened Bytes

  const MAX_INT64: int := 0x7fff_ffff_ffff_ffff
  const MIN_INT64: int := -0x8000_0000_0000_0000

  predicate IsDigit(b: byte) {
    48 <= b <= 57
  }

  ghost predicate AllDigits(s: bytes) {
    forall i :: 0 <= i < |s| ==> IsDigit(s[i])
  }

  /** strconv.AppendInt(nil, n, 10) for n >= 0. */
  function Print(n: nat): (s: bytes)
    ensures s != [] && AllDigits(s)
  {
    if n < 10 then [48 + n] else Print(n / 10) + [48 + n % 10]
  }

  /** The value of a digit string read left to right; None as soon as a byte is not a digit. */
  function Value(s: bytes): (r: Option<nat>)
    decreases |s|
  {
    if s == [] then Some(0)
    else
      var d := s[|s| - 1];
      var high := Value(s[..|s| - 1]);
      if IsDigit(d) && high.Some? then Some(10 * high.value + (d - 48)) else None
  }

  /** strconv.ParseInt(s, 10, 64): an optional sign, at least one digit, and the int64 range. */
  function ParseInt64(s: bytes): (r: Option<int>)
    ensures r.Some? ==> MIN_INT64 <= r.value <= MAX_INT64
  {
    if s == [] then None
    else
      var negative := s[0] == MINUS;
      var digits := if s[0] == MINUS || s[0] == PLUS then s[1..] else s;
      if digits == [] then None
      else
        var v := Value(digits);
        if v.None? then None
        else if negative then (var m: int := v.value; if 0 - m < MIN_INT64 then None else Some(0 - m))
        else if v.value > MAX_INT64 then None else Some(v.value)
  }

  lemma {:induction false} ValueOfPrint(n: nat)
    ensures Value(Print(n)) == Some(n)
  {
    if n < 10 {
      assert [48 + n][..0] == [];
    } else {
      ValueOfPrint(n / 10);
      var s := Print(n / 10) + [48 + n % 10];
      assert s[..|s| - 1] == Print(n / 10);
      assert s[|s| - 1] == 48 + n % 10;
    }
  }

  lemma {:induction false} ValueOfDigits(s: bytes)
    ensures Value(s).Some? <==> AllDigits(s)
    decreases |s|
  {
    if s != [] {
      ValueOfDigits(s[..|s| - 1]);
      assert AllDigits(s) <==> AllDigits(s[..|s| - 1]) && IsDigit(s[|s| - 1]);
    }
  }

  /** What is parsed: an optional sign and at least one digit, if the number is one of 64 bits. */
  lemma ParseIsExact(s: bytes, n: int)
    ensures ParseInt64(s) == Some(n) <==>
            && s != [] && -0x8000_0000_0000_0000 <= n <= 0x7fff_ffff_ffff_ffff
            && var digits := if s[0] == 43 || s[0] == 45 then s[1..] else s;
               digits != [] && AllDigits(digits) && Value(digits) == Some(if s[0] == 45 then -n else n)
  {
    if s != [] { ValueOfDigits(if s[0] == 43 || s[0] == 45 then s[1..] else s); }
  }

  /** Parsing undoes printing on the whole non-negative int64 range. */
  lemma ParseOfPrint(n: nat)
    requires n <= MAX_INT64
    ensures ParseInt64(Print(n)) == Some(n)
  {
    ValueOfPrint(n);
    var s := Print(n);
    assert IsDigit(s[0]);
  }

  /** Two numbers never share a decimal form. */
  lemma PrintInjective(m: nat, n: nat)
    requires Print(m) == Print(n)
    ensures m == n
  {
    ValueOfPrint(m);
    ValueOfPrint(n);
  }

  function Pow10(k: nat): nat {
    if k == 0 then 1 else 10 * Pow10(k - 1)
  }

  lemma {:induction false} PrintLength(n: nat, k: nat)
    requires 1 <= k && n < Pow10(k)
    ensures |Print(n)| <= k
  {
    if n >= 10 {
      assert Pow10(1) == 10;
      PrintLength(n / 10, k - 1);
    }
  }

  lemma PrintLengthInt64(n: nat)
    requires n <= MAX_INT64
    ensures |Print(n)| <= 19
  {
    assert Pow10(5) == 100000;
    assert Pow10(10) == 10000000000 by { assert Pow10(10) == 100000 * Pow10(5); }
    assert Pow10(15) == 1000000000000000 by { assert Pow10(15) == 100000 * Pow10(10); }
    assert Pow10(19) == 10000 * Pow10(15);
    PrintLength(n, 19);
  }

  lemma PrintIsNotNull(n: nat)
    ensures Print(n) != Null()
  {
    assert IsDigit(Print(n)[0]);
    assert "null"[0] == 'n';
    assert Null()[0] == 110;
  }
}
