/** Decimal text of integers and fields separated by a character, as the bank stores its records. */
module Text {
  import opened Arith

  const BAR: char := '|'

  function Digit(d: nat): char
    requires d < 10
  {
    "0123456789"[d]
  }

  function DigitValue(c: char): nat
    requires IsDigit(c)
  {
    (c - '0') as int
  }

  predicate IsDigit(c: char) {
    '0' <= c <= '9'
  }

  function NatText(n: nat): string {
    if n < 10 then [Digit(n)] else NatText(n / 10) + [Digit(n % 10)]
  }

  /** The decimal text of an integer. */
  function Itoa(n: int): string {
    if n < 0 then "-" + NatText(-n) else NatText(n)
  }

  predicate AllDigits(s: string) {
    forall i :: 0 <= i < |s| ==> IsDigit(s[i])
  }

  function ParseNat(s: string): nat
    requires AllDigits(s)
  {
    if s == [] then 0 else 10 * ParseNat(s[..|s| - 1]) + DigitValue(s[|s| - 1])
  }

  /** The integer that a text denotes; 0, with the error ignored, when it denotes none. */
  function Atoi(s: string): int {
    var digits := if s != [] && (s[0] == '-' || s[0] == '+') then s[1..] else s;
    if digits == [] || !AllDigits(digits) then 0
    else if s[0] == '-' then 0 - ParseNat(digits)
    else ParseNat(digits)
  }

  lemma ParseAppend(s: string, d: nat)
    requires AllDigits(s) && d < 10
    ensures AllDigits(s + [Digit(d)]) && ParseNat(s + [Digit(d)]) == 10 * ParseNat(s) + d
  {
    assert (s + [Digit(d)])[..|s|] == s;
    assert DigitValue(Digit(d)) == d;
  }

  lemma {:induction false} NatTextParses(n: nat)
    ensures NatText(n) != [] && AllDigits(NatText(n)) && ParseNat(NatText(n)) == n
  {
    if n >= 10 {
      NatTextParses(n / 10);
      ParseAppend(NatText(n / 10), n % 10);
    } else {
      ParseAppend([], n);
      assert NatText(n) == [] + [Digit(n)];
    }
  }

  function Tens(k: nat): nat {
    if k == 0 then 1 else 10 * Tens(k - 1)
  }

  /** A number below 10^k, and only such a number, has at most k digits. */
  lemma {:induction false} DigitCount(n: nat, k: nat)
    requires 1 <= k
    ensures |NatText(n)| <= k <==> n < Tens(k)
    decreases k
  {
    if k > 1 && n >= 10 {
      DigitCount(n / 10, k - 1);
    } else if n >= 10 {
      assert |NatText(n / 10)| >= 1;
    } else {
      TensPositive(k - 1);
    }
  }

  lemma {:induction false} TensPositive(k: nat)
    ensures 1 <= Tens(k)
  {
    if k > 0 {
      TensPositive(k - 1);
    }
  }

  /** The digit in place i, counted from the right, is that of 10^i, and there is no zero in front. */
  lemma {:induction false} DigitsInPlaces(n: nat, i: nat)
    requires i < |NatText(n)|
    ensures 1 <= Tens(i)
    ensures NatText(n)[|NatText(n)| - 1 - i] as int == '0' as int + (n / Tens(i)) % 10
    ensures n > 0 ==> NatText(n)[0] != '0'
    decreases n
  {
    TensPositive(i);
    if n >= 10 {
      assert |NatText(n / 10)| >= 1;
      DigitsInPlaces(n / 10, 0);
      if i > 0 {
        TensPositive(i - 1);
        DigitsInPlaces(n / 10, i - 1);
        DivTwice(n, 10, Tens(i - 1));
      }
    }
  }

  lemma AtoiDigits(s: string)
    requires s != [] && AllDigits(s)
    ensures Atoi(s) == Atoi("+" + s) == ParseNat(s) && Atoi("-" + s) == 0 - ParseNat(s)
  {
    assert IsDigit(s[0]);
    assert ("-" + s)[1..] == s == ("+" + s)[1..];
  }

  /** Every integer is read back from its text, negative ones too. */
  lemma AtoiItoa(n: int)
    ensures Atoi(Itoa(n)) == n
  {
    var m := if n < 0 then -n else n;
    NatTextParses(m);
    AtoiDigits(NatText(m));
  }

  lemma ItoaInjective(a: int, b: int)
    requires Itoa(a) == Itoa(b)
    ensures a == b
  {
    AtoiItoa(a);
    AtoiItoa(b);
  }

  lemma ItoaNoBar(n: int)
    ensures BAR !in Itoa(n)
  {
    var m := if n < 0 then -n else n;
    NatTextParses(m);
    forall i | 0 <= i < |NatText(m)|
      ensures NatText(m)[i] != BAR
    {
      assert IsDigit(NatText(m)[i]);
    }
  }

  /** The fields of a text between separators; a text always has at least one field. */
  function Split(s: string, sep: char): (r: seq<string>)
    ensures |r| >= 1
  {
    if s == [] then [[]]
    else
      var rest := Split(s[1..], sep);
      if s[0] == sep then [[]] + rest else [[s[0]] + rest[0]] + rest[1..]
  }

  lemma {:induction false} SplitOne(s: string, sep: char)
    requires sep !in s
    ensures Split(s, sep) == [s]
  {
    if s != [] {
      SplitOne(s[1..], sep);
      assert [s[0]] + s[1..] == s;
    }
  }

  /** A text with a separator has at least two fields. */
  lemma {:induction false} SplitTwice(s: string, sep: char)
    requires sep in s
    ensures |Split(s, sep)| >= 2
  {
    if s[0] != sep {
      SplitTwice(s[1..], sep);
    }
  }

  /** A field without separator is split off as it is. */
  lemma {:induction false} SplitField(a: string, sep: char, rest: string)
    requires sep !in a
    ensures Split(a + [sep] + rest, sep) == [a] + Split(rest, sep)
  {
    var s := a + [sep] + rest;
    if a == [] {
      assert s[1..] == rest;
    } else {
      SplitField(a[1..], sep, rest);
      assert s[1..] == a[1..] + [sep] + rest;
      assert [a[0]] + a[1..] == a;
    }
  }
}
