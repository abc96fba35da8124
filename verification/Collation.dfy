/** Alternative collations that replace every byte of a string through a table, and the reversing table. */
module Collation {

  newtype Byte = x: int | 0 <= x < 256

  const SUCCESS := 0
  const SUBSC2LONG := 12345678

  // ----- tables

  function Mapped(table: Byte -> Byte, s: seq<Byte>): (r: seq<Byte>)
    ensures |r| == |s|
  {
    seq(|s|, i requires 0 <= i < |s| => table(s[i]))
  }

  /** Replaces every byte, if the result fits. */
  method Transform(table: Byte -> Byte, src: seq<Byte>, dst: array<Byte>) returns (code: int, dstLen: nat)
    modifies dst
    ensures code == if |src| > dst.Length then 12345678 else 0
    ensures code == SUCCESS ==> dstLen == |src| && dst[..dstLen] == Mapped(table, src)
    ensures forall k :: (if code == SUCCESS then |src| else 0) <= k < dst.Length ==> dst[k] == old(dst[k])
  {
    if |src| > dst.Length {
      return SUBSC2LONG, 0;
    }
    var n := 0;
    while n < |src|
      invariant 0 <= n <= |src| && dst[..n] == Mapped(table, src)[..n]
      invariant forall k :: n <= k < dst.Length ==> dst[k] == old(dst[k])
    {
      dst[n] := table(src[n]);
      n := n + 1;
    }
    return SUCCESS, |src|;
  }

  /**
   The same with a NUL written behind the result. That write is past the end of the destination exactly
   when the result fills it.
   */
  method TransformTerminated(table: Byte -> Byte, src: seq<Byte>, dst: array<Byte>)
    returns (code: int, dstLen: nat, overrun: bool)
    modifies dst
    ensures code == if |src| > dst.Length then 12345678 else 0
    ensures overrun <==> |src| == dst.Length
    ensures code == SUCCESS ==> dstLen == |src| && dst[..dstLen] == Mapped(table, src)
    ensures code == SUCCESS && !overrun ==> dst[|src|] == 0
    ensures forall k :: (if code == SUCCESS then |src| + 1 else 0) <= k < dst.Length ==> dst[k] == old(dst[k])
  {
    code, dstLen := Transform(table, src, dst);
    overrun := |src| == dst.Length;
    if code == SUCCESS && !overrun {
      dst[|src|] := 0;
      assert dst[..|src|] == Mapped(table, src);
    }
  }

  /** With inverse tables the way back leads from every string to where it came from, and only then. */
  lemma BackUndoesForwardIff(forward: Byte -> Byte, back: Byte -> Byte)
    ensures (forall s :: Mapped(back, Mapped(forward, s)) == s) <==> (forall b :: back(forward(b)) == b)
  {
    if forall s :: Mapped(back, Mapped(forward, s)) == s {
      forall b
        ensures back(forward(b)) == b
      {
        assert Mapped(back, Mapped(forward, [b]))[0] == back(forward(b));
      }
    }
    if forall b :: back(forward(b)) == b {
      forall s: seq<Byte>
        ensures Mapped(back, Mapped(forward, s)) == s
      {
        forall i | 0 <= i < |s|
          ensures Mapped(back, Mapped(forward, s))[i] == s[i]
        {
          assert Mapped(forward, s)[i] == forward(s[i]);
        }
      }
    }
  }

  /** Strings are ordered by the first byte in which they differ, and a string comes before its extensions. */
  predicate Less(a: seq<Byte>, b: seq<Byte>) {
    b != [] && (a == [] || a[0] < b[0] || (a[0] == b[0] && Less(a[1..], b[1..])))
  }

  function Reverse(b: Byte): Byte {
    255 - b
  }

  function Reversed(s: seq<Byte>): seq<Byte> {
    Mapped(Reverse, s)
  }

  lemma ReversedTwice(s: seq<Byte>)
    ensures Reversed(Reversed(s)) == s
  {
    BackUndoesForwardIff(Reverse, Reverse);
  }

  /** The reversing table turns the order round, except that a string still comes before its extensions. */
  lemma {:induction false} ReversedOrderIff(a: seq<Byte>, b: seq<Byte>)
    ensures Less(Reversed(a), Reversed(b)) <==> if a <= b || b <= a then Less(a, b) else Less(b, a)
  {
    if a != [] && b != [] {
      var a', b' := Reversed(a), Reversed(b);
      assert a'[0] == Reverse(a[0]) && b'[0] == Reverse(b[0]);
      assert a'[1..] == Reversed(a[1..]) && b'[1..] == Reversed(b[1..]);
      ReversedOrderIff(a[1..], b[1..]);
      PrefixTail(a, b);
      PrefixTail(b, a);
    }
  }

  lemma PrefixTail(a: seq<Byte>, b: seq<Byte>)
    requires a != [] && b != []
    ensures a <= b <==> a[0] == b[0] && a[1..] <= b[1..]
  {
    if a[0] == b[0] && a[1..] <= b[1..] {
      assert forall i :: 0 < i < |a| ==> a[i] == a[1..][i - 1] == b[1..][i - 1] == b[i];
    }
    if a <= b {
      assert forall i :: 0 <= i < |a| - 1 ==> a[1..][i] == a[i + 1] == b[i + 1] == b[1..][i];
    }
  }
}
