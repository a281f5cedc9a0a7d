/** intToStr of foki/vga.c: decimal digits produced backwards and reversed in place. */
module Numbers {
  import opened Base

  const ZERO: byte := 48

  ghost predicate Digit(c: byte) {
    '0' as int <= c <= '9' as int
  }

  /** The number that a string of digits denotes, most significant first. */
  function Parsed(s: seq<byte>): int
  {
    if s == [] then 0 else 10 * Parsed(s[..|s| - 1]) + (s[|s| - 1] - '0' as int)
  }

  /** The decimal numeral of a number, without leading zeros; "0" for zero. */
  ghost predicate Numeral(s: seq<byte>, num: int) {
    && s != [] && (forall k :: 0 <= k < |s| ==> Digit(s[k]))
    && Parsed(s) == num
    && (s[0] == '0' as int ==> s == ['0' as int])
  }

  function Reversed(s: seq<byte>): (r: seq<byte>)
    ensures |r| == |s|
    ensures forall k :: 0 <= k < |s| ==> r[k] == s[|s| - 1 - k]
  {
    seq(|s|, k requires 0 <= k < |s| => s[|s| - 1 - k])
  }

  /** How many digits a number takes. */
  function Digits(num: nat): (d: nat)
    ensures 1 <= d
    decreases num
  {
    if num < 10 then 1 else 1 + Digits(num / 10)
  }

  /** The digits of a positive number as the first loop produces them, lowest first. */
  function Backwards(num: nat): (s: seq<byte>)
    decreases num
  {
    if num == 0 then [] else [ZERO + num % 10] + Backwards(num / 10)
  }

  lemma {:induction false} BackwardsLength(num: nat)
    requires 0 < num
    ensures |Backwards(num)| == Digits(num)
    decreases num
  {
    if 10 <= num { BackwardsLength(num / 10); }
  }

  /** Read the other way round they are the numeral. */
  lemma {:induction false} BackwardsIsNumeral(num: nat)
    requires 0 < num
    ensures Numeral(Reversed(Backwards(num)), num) && Reversed(Backwards(num))[0] != ZERO
    decreases num
  {
    var s := Reversed(Backwards(num));
    if num < 10 {
      assert Backwards(num) == [ZERO + num];
      assert s[..0] == [];
    } else {
      BackwardsIsNumeral(num / 10);
      var high := Reversed(Backwards(num / 10));
      assert s == high + [ZERO + num % 10];
      assert s[..|s| - 1] == high;
    }
  }

  lemma {:induction false} ParsedPositive(s: seq<byte>)
    requires s != [] && (forall k :: 0 <= k < |s| ==> Digit(s[k])) && s[0] != ZERO
    ensures 1 <= Parsed(s)
  {
    if |s| > 1 { ParsedPositive(s[..|s| - 1]); }
  }

  /** The last digit of a numeral is the remainder by ten; what stands before it is the numeral of the
      tenth part. */
  lemma NumeralParts(s: seq<byte>, n: int)
    requires Numeral(s, n)
    ensures s[|s| - 1] as int - ZERO as int == n % 10 && (|s| == 1 <==> n < 10)
    ensures 1 < |s| ==> Numeral(s[..|s| - 1], n / 10)
  {
    var front := s[..|s| - 1];
    if |s| == 1 { assert front == [] && Parsed(front) == 0; } else { ParsedPositive(front); }
  }

  /** A number has one numeral only: what intToStr writes is the number's only decimal form. */
  lemma {:induction false} NumeralIsUnique(s: seq<byte>, t: seq<byte>, n: int)
    requires Numeral(s, n) && Numeral(t, n)
    ensures s == t
    decreases |s|
  {
    NumeralParts(s, n);
    NumeralParts(t, n);
    if |s| > 1 { NumeralIsUnique(s[..|s| - 1], t[..|t| - 1], n / 10); }
    assert s == s[..|s| - 1] + [s[|s| - 1]] && t == t[..|t| - 1] + [t[|t| - 1]];
  }

  lemma {:induction false} DigitsBound(num: nat, d: nat, power: int)
    requires 1 <= d && power == Power10(d)
    ensures Digits(num) <= d <==> num < power
    decreases d
  {
    if d > 1 && 10 <= num { DigitsBound(num / 10, d - 1, Power10(d - 1)); }
    else if d == 1 { assert Power10(1) == 10 * Power10(0); }
    else { PowerPositive(d - 1); }
  }

  function Power10(n: nat): int
    decreases n
  {
    if n == 0 then 1 else 10 * Power10(n - 1)
  }

  lemma {:induction false} PowerPositive(n: nat)
    ensures 1 <= Power10(n)
    decreases n
  {
    if n > 0 { PowerPositive(n - 1); }
  }

  /** Ten digits and the NUL are enough for 32 bits. The ten-byte buffer of printInt is enough
      exactly for numbers below 1000000000. */
  lemma DigitsOf32Bits(num: nat)
    requires num < ADDRESS_SPACE
    ensures Digits(num) + 1 <= 11
    ensures Digits(num) + 1 <= 10 <==> num < 1000000000
  {
    assert Power10(5) == 100000 by { assert Power10(2) == 100 && Power10(4) == 10000; }
    assert Power10(7) == 10000000 && Power10(9) == 1000000000;
    DigitsBound(num, 9, Power10(9));
    DigitsBound(num, 10, Power10(10));
  }

  /** The first loop of intToStr. */
  method StoreBackwards(num: nat, str: array<byte>) returns (i: nat)
    requires 0 < num && Digits(num) < str.Length
    modifies str
    ensures i == Digits(num) && str[..i] == Backwards(num)
    ensures forall k :: i <= k < str.Length ==> str[k] == old(str[k])
  {
    BackwardsLength(num);
    i := 0;
    var n := num;
    while n != 0
      invariant i <= Digits(num) && str[..i] + Backwards(n) == Backwards(num)
      invariant forall k :: i <= k < str.Length ==> str[k] == old(str[k])
      decreases n
    {
      ghost var rest := Backwards(n / 10);
      assert |Backwards(n)| == 1 + |rest|;
      ghost var before := str[..i];
      str[i] := ZERO + n % 10;
      i := i + 1;
      assert str[..i] == before + [ZERO + n % 10];
      n := n / 10;
    }
  }

  /** The second loop of intToStr: the first n bytes change places in pairs. */
  method ReverseInPlace(str: array<byte>, n: nat)
    requires n <= str.Length
    modifies str
    ensures str[..n] == Reversed(old(str[..n])) && str[n..] == old(str[n..])
  {
    var start, end := 0, n - 1;
    while start < end
      invariant 0 <= start <= end + 1 && start + end == n - 1
      invariant forall k :: 0 <= k < start ==> str[k] == old(str[n - 1 - k]) && str[n - 1 - k] == old(str[k])
      invariant forall k :: start <= k < n - start ==> str[k] == old(str[k])
      invariant forall k :: n <= k < str.Length ==> str[k] == old(str[k])
    {
      var temp := str[start];
      str[start] := str[end];
      str[end] := temp;
      start := start + 1;
      end := end - 1;
    }
  }

  /** intToStr: the buffer holds the numeral and a NUL, and nothing behind them has changed. */
  method IntToStr(num: nat, str: array<byte>)
    requires Digits(num) < str.Length
    modifies str
    ensures Numeral(str[..Digits(num)], num)
    ensures str[Digits(num)] == 0
    ensures str[Digits(num) + 1..] == old(str[Digits(num) + 1..])
  {
    if num == 0 {
      str[0] := ZERO;
      str[1] := 0;
      assert str[..1] == [ZERO] && [ZERO][..0] == [];
      return;
    }
    var i := StoreBackwards(num, str);
    str[i] := 0;
    assert str[..i] == Backwards(num);
    ReverseInPlace(str, i);
    BackwardsIsNumeral(num);
    assert str[i] == str[i..][0];
    assert str[i + 1..] == str[i..][1..];
  }
}
