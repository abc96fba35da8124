/** The orders in which the translation database compares names: shorter strings first. */
module XlateOrder {

  /** The sign of the first difference of two strings of equal length. */
  function StrNCmp(a: string, b: string): int
    requires |a| == |b|
  {
    if a == [] then 0
    else if a[0] != b[0] then a[0] as int - b[0] as int
    else StrNCmp(a[1..], b[1..])
  }

  function StringCmp(a: string, b: string): int {
    if |a| == |b| then StrNCmp(a, b) else |a| - |b|
  }

  function Lower(c: char): char {
    if 'A' <= c <= 'Z' then c - 'A' + 'a' else c
  }

  function Fold(s: string): (r: string)
    ensures |r| == |s|
  {
    if s == [] then [] else [Lower(s[0])] + Fold(s[1..])
  }

  /** The comparison without regard to case. */
  function StringCaseCmp(a: string, b: string): int {
    if |a| == |b| then StrNCmp(Fold(a), Fold(b)) else |a| - |b|
  }

  lemma {:induction false} StrNCmpOrder(a: string, b: string)
    requires |a| == |b|
    ensures StrNCmp(a, b) == 0 <==> a == b
    ensures StrNCmp(b, a) == -StrNCmp(a, b)
    decreases |a|
  {
    if a != [] {
      StrNCmpOrder(a[1..], b[1..]);
      if a[0] == b[0] && a[1..] == b[1..] {
        assert a == [a[0]] + a[1..] == [b[0]] + b[1..] == b;
      }
    }
  }

  lemma {:induction false} StrNCmpTransitive(a: string, b: string, c: string)
    requires |a| == |b| == |c| && StrNCmp(a, b) < 0 && StrNCmp(b, c) < 0
    ensures StrNCmp(a, c) < 0
    decreases |a|
  {
    if a[0] == b[0] == c[0] {
      StrNCmpTransitive(a[1..], b[1..], c[1..]);
    }
  }

  /** Directories are compared by a total order whose only ties are equal strings. */
  lemma StringCmpTotal(a: string, b: string)
    ensures StringCmp(a, b) == 0 <==> a == b
    ensures StringCmp(b, a) == -StringCmp(a, b)
    ensures |a| < |b| ==> StringCmp(a, b) < 0
  {
    if |a| == |b| {
      StrNCmpOrder(a, b);
    }
  }

  /** Strings of one length are ordered by the first character in which they differ. */
  lemma {:induction false} FirstDifferenceDecides(a: string, b: string, k: nat)
    requires |a| == |b| && k < |a| && a[..k] == b[..k] && a[k] < b[k]
    ensures StringCmp(a, b) < 0
    decreases k
  {
    if k > 0 {
      assert a[0] == a[..k][0] == b[..k][0] == b[0];
      assert a[1..][..k - 1] == a[..k][1..] == b[..k][1..] == b[1..][..k - 1];
      FirstDifferenceDecides(a[1..], b[1..], k - 1);
    }
  }

  /** One of the two is a capital, and the other is the same letter as a small one. */
  predicate OtherCase(a: char, b: char) {
    || ('A' <= a <= 'Z' && b as int == a as int + 32)
    || ('A' <= b <= 'Z' && a as int == b as int + 32)
  }

  /** The names differ in nothing but the case of letters. */
  predicate Alike(a: string, b: string) {
    |a| == |b| && forall i :: 0 <= i < |a| ==> a[i] == b[i] || OtherCase(a[i], b[i])
  }

  lemma LowerAlike(a: char, b: char)
    ensures Lower(a) == Lower(b) <==> a == b || OtherCase(a, b)
  {
  }

  /** Names tie in the comparison exactly when they differ in nothing but the case of letters. */
  lemma TieIffAlike(a: string, b: string)
    ensures StringCaseCmp(a, b) == 0 <==> Alike(a, b)
    ensures Fold(a) == Fold(b) <==> Alike(a, b)
  {
    CaseCmpTotal(a, b);
    FoldEqualIff(a, b);
    forall i | 0 <= i < |a| && i < |b|
      ensures Lower(a[i]) == Lower(b[i]) <==> a[i] == b[i] || OtherCase(a[i], b[i])
    {
      LowerAlike(a[i], b[i]);
    }
  }

  predicate HasCapital(s: string) {
    exists i :: 0 <= i < |s| && 'A' <= s[i] <= 'Z'
  }

  /** Without capitals the order is that of the strings; so it is the order of the small letters that counts. */
  lemma NoCapitals(a: string, b: string)
    requires !HasCapital(a) && !HasCapital(b)
    ensures StringCaseCmp(a, b) == StringCmp(a, b)
  {
    CaseCmpTotal(a, b);
    SmallStays(a);
    SmallStays(b);
  }

  lemma SmallStays(s: string)
    requires !HasCapital(s)
    ensures Fold(s) == s
  {
    FoldAt(s);
  }

  /** Names fold to the same exactly when they differ in nothing but the case of letters. */
  lemma {:induction false} FoldEqualIff(a: string, b: string)
    ensures Fold(a) == Fold(b) <==> |a| == |b| && forall i :: 0 <= i < |a| ==> Lower(a[i]) == Lower(b[i])
  {
    FoldAt(a);
    FoldAt(b);
  }

  lemma {:induction false} FoldAt(s: string)
    ensures forall i :: 0 <= i < |s| ==> Fold(s)[i] == Lower(s[i])
  {
    if s != [] {
      FoldAt(s[1..]);
    }
  }

  lemma StringCmpTransitive(a: string, b: string, c: string)
    requires StringCmp(a, b) < 0 && StringCmp(b, c) < 0
    ensures StringCmp(a, c) < 0
  {
    if |a| == |b| == |c| {
      StrNCmpTransitive(a, b, c);
    }
  }

  /** Host names are compared by that order on their lower-case forms; ties are names that differ in case only. */
  lemma CaseCmpTotal(a: string, b: string)
    ensures StringCaseCmp(a, b) == StringCmp(Fold(a), Fold(b))
    ensures StringCaseCmp(a, b) == 0 <==> Fold(a) == Fold(b)
    ensures StringCaseCmp(b, a) == -StringCaseCmp(a, b)
  {
    StringCmpTotal(Fold(a), Fold(b));
  }
}
