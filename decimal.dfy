/**
 * Rust's `str::parse::<u64>()` on decimal text: an optional leading `+`,
 * then one or more ASCII digits whose value fits in 64 unsigned bits. The
 * empty string, a lone sign, a `-`, any other character and an overflowing
 * value are all errors.
 */
module Decimal {
  import opened Wrappers

  /** 2^64: the first value `u64` cannot hold. */
  const U64Limit: nat := 0x1_0000_0000_0000_0000

  predicate IsDigit(c: char) {
    '0' <= c <= '9'
  }

  predicate AllDigits(s: string) {
    forall k :: 0 <= k < |s| ==> IsDigit(s[k])
  }

  function DigitValue(c: char): (d: nat)
    requires IsDigit(c)
    ensures d < 10
  {
    (c as int) - ('0' as int)
  }

  function DigitChar(d: nat): (c: char)
    requires d < 10
    ensures IsDigit(c) && DigitValue(c) == d
  {
    (('0' as int) + d) as char
  }

  /** The value of a digit string, most significant digit first. */
  function Value(s: string): nat
    requires AllDigits(s)
  {
    if |s| == 0 then 0 else 10 * Value(s[..|s| - 1]) + DigitValue(s[|s| - 1])
  }

  /** The text after the optional leading `+`: the part that must be all digits. */
  function Unsigned(s: string): (d: string)
    ensures s == d || s == "+" + d
  {
    if |s| > 0 && s[0] == '+' then s[1..] else s
  }

  /**
   * The parse. Rust accumulates with checked arithmetic and fails on the first
   * overflow; since the running value never decreases, that happens exactly
   * when the whole value reaches 2^64.
   */
  function ParseU64(s: string): (r: Option<nat>)
    ensures r.Some? ==> r.value < U64Limit
    ensures r.Some? ==> |s| > 0 && (s[0] == '+' || IsDigit(s[0]))
  {
    var digits := Unsigned(s);
    if |digits| == 0 || !AllDigits(digits) then None
    else
      var v := Value(digits);
      if v < U64Limit then Some(v) else None
  }

  /** The shortest decimal text of `n`. */
  function ToDecimal(n: nat): (s: string)
    ensures |s| > 0 && AllDigits(s)
  {
    if n < 10 then [DigitChar(n)] else ToDecimal(n / 10) + [DigitChar(n % 10)]
  }

  lemma {:induction false} ValueOfDecimal(n: nat)
    ensures Value(ToDecimal(n)) == n
  {
    if n >= 10 {
      var s := ToDecimal(n);
      assert s[..|s| - 1] == ToDecimal(n / 10);
      ValueOfDecimal(n / 10);
    }
  }

  /** Every `u64` printed in decimal, with or without a `+`, parses back to itself. */
  lemma ParseRoundTrip(n: nat)
    requires n < U64Limit
    ensures ParseU64(ToDecimal(n)) == Some(n)
    ensures ParseU64("+" + ToDecimal(n)) == Some(n)
  {
    ValueOfDecimal(n);
    var s := ToDecimal(n);
    assert ("+" + s)[1..] == s;
  }

  /** A value of 2^64 or more is rejected, however it is written. */
  lemma ParseRejectsOverflow(n: nat)
    requires n >= U64Limit
    ensures ParseU64(ToDecimal(n)) == None
    ensures ParseU64("+" + ToDecimal(n)) == None
  {
    ValueOfDecimal(n);
    var s := ToDecimal(n);
    assert ("+" + s)[1..] == s;
  }

  /** `digits` without its leading zeros; an all-zero text keeps its last `0`. */
  function StripZeros(digits: string): (t: string)
    ensures |t| <= |digits| && t == digits[|digits| - |t|..]
    ensures |digits| > 0 ==> |t| > 0 && (|t| == 1 || t[0] != '0')
  {
    if |digits| > 1 && digits[0] == '0' then StripZeros(digits[1..]) else digits
  }

  lemma {:induction false} ValueDropZero(r: string)
    requires AllDigits(r)
    ensures AllDigits("0" + r) && Value("0" + r) == Value(r)
  {
    if |r| > 0 {
      var n := |r| - 1;
      assert ("0" + r)[..|r|] == "0" + r[..n];
      ValueDropZero(r[..n]);
    }
  }

  /** Leading zeros do not change the value. */
  lemma {:induction false} StripZerosValue(digits: string)
    requires AllDigits(digits)
    ensures AllDigits(StripZeros(digits)) && Value(StripZeros(digits)) == Value(digits)
  {
    if |digits| > 1 && digits[0] == '0' {
      assert digits == "0" + digits[1..];
      ValueDropZero(digits[1..]);
      StripZerosValue(digits[1..]);
    }
  }

  lemma {:induction false} ValuePositive(t: string)
    requires |t| > 0 && AllDigits(t) && t[0] != '0'
    ensures Value(t) > 0
  {
    if |t| > 1 {
      ValuePositive(t[..|t| - 1]);
    }
  }

  /** A digit text without leading zeros is the shortest decimal text of its value. */
  lemma {:induction false} CanonicalIsDecimal(t: string)
    requires |t| > 0 && AllDigits(t) && (|t| == 1 || t[0] != '0')
    ensures ToDecimal(Value(t)) == t
  {
    var n := |t| - 1;
    var c := t[n];
    assert DigitChar(DigitValue(c)) == c;
    if n > 0 {
      var pre := t[..n];
      ValuePositive(pre);
      CanonicalIsDecimal(pre);
      assert Value(t) / 10 == Value(pre) && Value(t) % 10 == DigitValue(c);
      assert t == pre + [c];
    }
  }

  /**
   * The converse of the round trip: an accepted text is an optional `+`
   * followed by digits only, and those digits, without their leading zeros,
   * are the shortest decimal text of the value.
   */
  lemma ParseInverse(s: string)
    requires ParseU64(s).Some?
    ensures s == Unsigned(s) || s == "+" + Unsigned(s)
    ensures |Unsigned(s)| > 0 && AllDigits(Unsigned(s))
    ensures StripZeros(Unsigned(s)) == ToDecimal(ParseU64(s).value)
  {
    var d := Unsigned(s);
    StripZerosValue(d);
    CanonicalIsDecimal(StripZeros(d));
  }

  /** Any character other than a digit, except a `+` in first place, makes the parse fail. */
  lemma ParseRejectsNonDigit(s: string, k: nat)
    requires k < |s| && !IsDigit(s[k]) && !(k == 0 && s[0] == '+')
    ensures ParseU64(s) == None
  {
    if |s| > 0 && s[0] == '+' {
      assert Unsigned(s)[k - 1] == s[k];
    } else {
      assert Unsigned(s)[k] == s[k];
    }
  }
}
