/** The collation that reverses Hindi digits. */
module Hindi {
  import opened Collation

  /** The third byte of a character of the Devanagari block is subtracted from 341. */
  predicate Flips(s: seq<Byte>, i: nat)
    requires i < |s|
  {
    i % 3 == 2 && s[i - 2] == 224 && s[i - 1] == 165
  }

  function FlipByte(b: Byte): Byte {
    ((341 - b as int) % 256) as Byte
  }

  lemma FlipByteTwice(b: Byte)
    ensures FlipByte(FlipByte(b)) == b
  {
  }

  function Flip(s: seq<Byte>): (r: seq<Byte>)
    ensures |r| == |s|
  {
    seq(|s|, i requires 0 <= i < |s| => if Flips(s, i) then FlipByte(s[i]) else s[i])
  }

  /**
   The third byte of a character that begins with 224, 165 and its image add up to 341, or to 85 where that
   is too much for the byte; every other byte stays.
   */
  lemma FlipSums(s: seq<Byte>, i: nat)
    requires i < |s|
    ensures if i % 3 == 2 && s[i - 2] == 224 && s[i - 1] == 165
            then Flip(s)[i] as int + s[i] as int == (if s[i] <= 85 then 85 else 341)
            else Flip(s)[i] == s[i]
  {
  }

  /** The copy of a string as a C string: everything after the first NUL is NUL. */
  function NulCut(s: seq<Byte>): (r: seq<Byte>)
    ensures |r| == |s|
  {
    seq(|s|, i requires 0 <= i < |s| => if 0 in s[..i] then 0 else s[i])
  }

  function Xform(s: seq<Byte>): seq<Byte> {
    Flip(NulCut(s))
  }

  lemma FlipTwice(s: seq<Byte>)
    ensures Flip(Flip(s)) == s
  {
    forall i | 0 <= i < |s|
      ensures Flip(Flip(s))[i] == s[i]
    {
      assert Flips(Flip(s), i) == Flips(s, i);
      FlipByteTwice(s[i]);
    }
  }

  /** No byte but NUL comes after a NUL. */
  predicate Padded(s: seq<Byte>) {
    NulCut(s) == s
  }

  /** Nothing but NULs comes after a byte that flips to NUL. */
  predicate LosesNothing(s: seq<Byte>) {
    forall i, j :: 0 <= i < j < |s| && Flips(s, i) && s[i] == 85 ==> s[j] == 0
  }

  /** In terms of the string: a NUL comes before NULs only, and so does a flipped byte 85. */
  lemma XformTwiceIff(s: seq<Byte>)
    ensures Xform(Xform(s)) == s <==> NulsLast(s) && LosesNothing(s)
  {
    FlipTwice(s);
    PaddedIff(s);
    if Padded(s) {
      ImagePaddedIff(s);
    }
    if Xform(Xform(s)) == s {
      var w := NulCut(Xform(s));
      FlipTwice(w);
      CutIsPadded(Xform(s));
      assert w == Flip(s);
      XformKeepsOnlyPadded(s);
    }
  }

  predicate NulsLast(s: seq<Byte>) {
    forall i, j :: 0 <= i < j < |s| && s[i] == 0 ==> s[j] == 0
  }

  lemma PaddedIff(s: seq<Byte>)
    ensures Padded(s) <==> NulsLast(s)
  {
    if Padded(s) {
      forall i, j | 0 <= i < j < |s| && s[i] == 0
        ensures s[j] == 0
      {
        assert s[..j][i] == 0 && NulCut(s)[j] == 0;
      }
    }
    if NulsLast(s) {
      forall j | 0 <= j < |s|
        ensures NulCut(s)[j] == s[j]
      {
        if 0 in s[..j] {
          var i :| 0 <= i < j && s[..j][i] == 0;
          assert s[i] == 0;
        }
      }
    }
  }

  lemma FlipByteNul(b: Byte)
    ensures FlipByte(b) == 0 <==> b == 85
  {
  }

  lemma ImagePaddedIff(s: seq<Byte>)
    requires NulsLast(s)
    ensures Padded(Flip(s)) <==> LosesNothing(s)
  {
    PaddedIff(Flip(s));
    if NulsLast(Flip(s)) {
      forall i, j | 0 <= i < j < |s| && Flips(s, i) && s[i] == 85
        ensures s[j] == 0
      {
        FlipByteNul(s[i]);
        NulAfterNul(s, i, j);
      }
    }
    if LosesNothing(s) {
      forall i, j | 0 <= i < j < |s| && Flip(s)[i] == 0
        ensures Flip(s)[j] == 0
      {
        FlipByteNul(s[i]);
        assert s[j] == 0;
        if Flips(s, j) {
          NoFlipAfterNul(s, i, j);
        }
      }
    }
  }

  lemma NulAfterNul(s: seq<Byte>, i: nat, j: nat)
    requires NulsLast(Flip(s)) && i < j < |s| && i % 3 == 2 && Flip(s)[i] == 0
    ensures s[j] == 0
  {
    assert Flip(s)[j] == 0;
    assert i < j - 2 && j % 3 == 2 ==> Flip(s)[j - 2] == 0 && Flip(s)[j - 2] == s[j - 2];
  }

  lemma NoFlipAfterNul(s: seq<Byte>, i: nat, j: nat)
    requires NulsLast(s) && LosesNothing(s) && i < j < |s| && Flip(s)[i] == 0
    ensures !Flips(s, j)
  {
    FlipByteNul(s[i]);
    assert s[j] == 0 && (i < j - 1 ==> s[j - 1] == 0);
  }

  lemma CutIsPadded(s: seq<Byte>)
    ensures Padded(NulCut(s))
  {
    var r := NulCut(s);
    forall i | 0 <= i < |s|
      ensures NulCut(r)[i] == r[i]
    {
      if 0 in r[..i] {
        var k :| 0 <= k < i && r[k] == 0;
        assert 0 in s[..k + 1] && s[..k + 1] <= s[..i];
      }
    }
  }

  lemma NoNulBefore(s: seq<Byte>, m: nat)
    requires 0 < m <= |s| && NulCut(s)[m - 1] != 0
    ensures 0 !in s[..m]
  {
    assert s[..m] == s[..m - 1] + [s[m - 1]];
  }

  /** After a NUL the image is NUL. */
  lemma ImageNul(s: seq<Byte>, m: nat)
    requires m < |s| && 0 in s[..m]
    ensures Xform(s)[m] == 0 && NulCut(Xform(s))[m] == 0
  {
    if NulCut(s)[m - 1] != 0 {
      NoNulBefore(s, m);
    }
  }

  lemma XformKeepsOnlyPadded(s: seq<Byte>)
    requires NulCut(Xform(s)) == Flip(s)
    ensures Padded(s)
  {
    forall m | 0 <= m < |s| && 0 in s[..m]
      ensures s[m] == 0
    {
      ImageNul(s, m);
      assert Flip(s)[m] == 0;
      if Flips(s, m) {
        assert s[..m] == s[..m - 2] + [s[m - 2], s[m - 1]];
        ImageNul(s, m - 2);
      }
    }
    assert NulCut(s) == s;
  }

  /** A string of Hindi digits. */
  predicate HindiDigits(s: seq<Byte>) {
    && |s| % 3 == 0
    && forall i :: 0 <= i < |s| ==>
         (i % 3 == 0 ==> s[i] == 224) && (i % 3 == 1 ==> s[i] == 165) && (i % 3 == 2 ==> 166 <= s[i] <= 175)
  }

  /** The images of strings of digits are strings of digits again, which lead back to them. */
  lemma HindiDigitsTwice(s: seq<Byte>)
    requires HindiDigits(s)
    ensures Xform(s) == Flip(s) && HindiDigits(Xform(s)) && Xform(Xform(s)) == s
  {
    assert NulCut(s) == s;
    assert HindiDigits(Flip(s));
    assert NulCut(Flip(s)) == Flip(s);
    FlipTwice(s);
  }

  /** Equal first bytes do not decide the order. */
  lemma LessTail(a: seq<Byte>, b: seq<Byte>, n: nat)
    requires n <= |a| && n <= |b| && a[..n] == b[..n]
    ensures Less(a, b) <==> Less(a[n..], b[n..])
  {
    if n > 0 {
      assert a[0] == a[..n][0] == b[..n][0] == b[0];
      assert a[1..][..n - 1] == a[..n][1..] == b[..n][1..] == b[1..][..n - 1];
      LessTail(a[1..], b[1..], n - 1);
      assert a[1..][n - 1..] == a[n..] && b[1..][n - 1..] == b[n..];
    } else {
      assert a[0..] == a && b[0..] == b;
    }
  }

  /** The order of equally long strings of digits is turned round. */
  lemma {:induction false} HindiOrder(a: seq<Byte>, b: seq<Byte>)
    requires HindiDigits(a) && HindiDigits(b) && |a| == |b|
    ensures Less(Flip(a), Flip(b)) <==> Less(b, a)
    decreases |a|
  {
    if a != [] {
      var a', b' := Flip(a), Flip(b);
      FlipTail(a);
      FlipTail(b);
      LessTail(a', b', 2);
      LessTail(b, a, 2);
      if a[2] == b[2] {
        LessTail(a', b', 3);
        LessTail(b, a, 3);
        HindiOrder(a[3..], b[3..]);
      }
    }
  }

  lemma FlipTail(s: seq<Byte>)
    requires HindiDigits(s) && s != []
    ensures Flip(s)[..3] == [224, 165, FlipByte(s[2])] && s[..3] == [224, 165, s[2]]
    ensures HindiDigits(s[3..]) && Flip(s)[3..] == Flip(s[3..])
  {
    var t := s[3..];
    forall i | 0 <= i < |t|
      ensures Flip(s)[3..][i] == Flip(t)[i]
    {
      assert Flips(s, i + 3) == Flips(t, i);
    }
  }

  /**
   When the string fills the destination, and a character begins at its end but is not complete, the code
   looks behind the destination: for the second byte of a last 224, or for the third after a last 224, 165.
   */
  predicate LooksBehind(s: seq<Byte>, size: nat) {
    && |s| == size
    && (|s| % 3 == 1 ==> s[|s| - 1] == 224)
    && (|s| % 3 == 2 ==> s[|s| - 2] == 224 && s[|s| - 1] == 165)
    && |s| % 3 != 0
  }

  /** Of the three bytes from a character's first on only the last can flip. */
  lemma FlipCharacter(s: seq<Byte>, i: nat)
    requires i < |s| && i % 3 == 0
    ensures Flip(s)[i] == s[i] && (i + 1 < |s| ==> Flip(s)[i + 1] == s[i + 1])
    ensures i + 2 < |s| ==> Flip(s)[i + 2] == if s[i] == 224 && s[i + 1] == 165 then FlipByte(s[i + 2]) else s[i + 2]
  {
  }

  function Nuls(n: nat): (r: seq<Byte>)
    ensures |r| == n && forall i :: 0 <= i < n ==> r[i] == 0
  {
    seq(n, _ => 0)
  }

  /** The NULs behind a string do not change the image of the string. */
  lemma XformPadded(s: seq<Byte>, n: nat)
    ensures NulCut(s + Nuls(n)) == NulCut(s) + Nuls(n)
    ensures Xform(s + Nuls(n))[..|s|] == Xform(s)
  {
    var t := s + Nuls(n);
    forall i | 0 <= i < |t|
      ensures NulCut(t)[i] == (NulCut(s) + Nuls(n))[i]
    {
      if i < |s| {
        assert t[..i] == s[..i];
      }
    }
    forall i | 0 <= i < |s|
      ensures Xform(t)[i] == Xform(s)[i]
    {
      assert Flips(NulCut(t), i) == Flips(NulCut(s), i);
    }
  }

  /** Reverses Hindi digits in place, after copying the string like a C string. */
  method HindiNumReverse(src: seq<Byte>, dst: array<Byte>) returns (code: int, dstLen: nat, overrun: bool)
    modifies dst
    ensures code == if |src| > dst.Length then 12345678 else 0
    ensures overrun <==> LooksBehind(NulCut(src), dst.Length)
    ensures code == SUCCESS && !overrun ==> dstLen == |src| && dst[..] == Xform(src + Nuls(dst.Length - |src|))
    ensures code == SUCCESS && !overrun ==> dst[..dstLen] == Xform(src)
    ensures code != SUCCESS ==> dst[..] == Nuls(dst.Length)
  {
    forall i | 0 <= i < dst.Length {
      dst[i] := 0;
    }
    if src == [] {
      return SUCCESS, 0, false;
    }
    if |src| > dst.Length {
      return SUBSC2LONG, 0, false;
    }
    CopyAsCString(src, dst);
    XformPadded(src, dst.Length - |src|);
    assert dst[..] == NulCut(src) + Nuls(dst.Length - |src|);
    code, dstLen := SUCCESS, |src|;
    overrun := FlipInPlace(dst, |src|);
  }

  /** The loop over the first n bytes, which are followed by NULs. */
  method FlipInPlace(dst: array<Byte>, n: nat) returns (overrun: bool)
    requires n <= dst.Length && forall k :: n <= k < dst.Length ==> dst[k] == 0
    modifies dst
    ensures overrun <==> LooksBehind(old(dst[..n]), dst.Length)
    ensures !overrun ==> dst[..] == Flip(old(dst[..]))
  {
    ghost var copy := dst[..];
    assert forall k :: 0 <= k < n ==> copy[..n][k] == copy[k];
    var i := 0;
    while i < n
      invariant 0 <= i <= n + 2 && i % 3 == 0
      invariant forall k :: 0 <= k < dst.Length ==> dst[k] == if k < i then Flip(copy)[k] else copy[k]
      invariant i > n ==> !LooksBehind(copy[..n], dst.Length)
    {
      FlipCharacter(copy, i);
      assert dst[i] == copy[i];
      if dst[i] == 224 {
        if i + 1 == dst.Length {
          return true;
        }
        if dst[i + 1] == 165 {
          if i + 2 == dst.Length {
            return true;
          }
          dst[i + 2] := FlipByte(dst[i + 2]);
        }
      }
      i := i + 3;
    }
    NulsStay(copy, n, i);
    assert dst[..] == Flip(copy);
    overrun := false;
  }

  lemma NulsStay(s: seq<Byte>, n: nat, i: nat)
    requires n <= i && i % 3 == 0 && forall k :: n <= k < |s| ==> s[k] == 0
    ensures forall k :: i <= k < |s| ==> Flip(s)[k] == s[k]
  {
  }

  method CopyAsCString(src: seq<Byte>, dst: array<Byte>)
    requires |src| <= dst.Length
    modifies dst
    ensures dst[..|src|] == NulCut(src)
    ensures forall k :: |src| <= k < dst.Length ==> dst[k] == old(dst[k])
  {
    var n, ended := 0, false;
    while n < |src|
      invariant 0 <= n <= |src| && dst[..n] == NulCut(src)[..n]
      invariant ended <==> 0 in src[..n]
      invariant forall k :: |src| <= k < dst.Length ==> dst[k] == old(dst[k])
    {
      dst[n] := if ended then 0 else src[n];
      ended := ended || src[n] == 0;
      assert src[..n + 1] == src[..n] + [src[n]];
      n := n + 1;
    }
  }
}
