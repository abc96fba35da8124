/** The escaping of audit messages: every message becomes one line of text without NUL characters. */
module Escaping {
  import opened Options

  predicate IsSpecial(c: char) {
    c == '\\' || c == '\n' || c == '\0'
  }

  /** The letter that stands for a special character after a backslash. */
  function Letter(c: char): char
    requires IsSpecial(c)
  {
    if c == '\n' then 'n' else if c == '\0' then '0' else '\\'
  }

  function EscapeChar(c: char): string {
    if IsSpecial(c) then ['\\', Letter(c)] else [c]
  }

  function Escape(s: string): string {
    if s == [] then [] else EscapeChar(s[0]) + Escape(s[1..])
  }

  /** The decoder: None if the text is not an escaped message. */
  function Unescape(t: string): Option<string> {
    if t == [] then Some([])
    else if t[0] != '\\' then Prepend(t[0], Unescape(t[1..]))
    else if |t| == 1 then None
    else if t[1] == 'n' then Prepend('\n', Unescape(t[2..]))
    else if t[1] == '0' then Prepend('\0', Unescape(t[2..]))
    else if t[1] == '\\' then Prepend('\\', Unescape(t[2..]))
    else None
  }

  function Prepend(c: char, s: Option<string>): Option<string> {
    match s
    case None => None
    case Some(r) => Some([c] + r)
  }

  /** The decoder gives back every message. */
  lemma {:induction false} UnescapeEscape(s: string)
    ensures Unescape(Escape(s)) == Some(s)
  {
    if s != [] {
      UnescapeEscape(s[1..]);
      var t := Escape(s);
      assert t[|EscapeChar(s[0])|..] == Escape(s[1..]);
      assert [s[0]] + s[1..] == s;
    }
  }

  /** Escaped text has neither newlines nor NUL characters in it. */
  lemma {:induction false} EscapeIsPlain(s: string)
    ensures '\n' !in Escape(s) && '\0' !in Escape(s)
  {
    if s != [] {
      EscapeIsPlain(s[1..]);
    }
  }

  lemma {:induction false} EscapeConcat(a: string, b: string)
    ensures Escape(a + b) == Escape(a) + Escape(b)
  {
    if a == [] {
      assert a + b == b;
    } else {
      EscapeConcat(a[1..], b);
      assert (a + b)[0] == a[0] && (a + b)[1..] == a[1..] + b;
      ConcatAssociates(EscapeChar(a[0]), Escape(a[1..]), Escape(b));
    }
  }

  lemma ConcatAssociates(a: string, b: string, c: string)
    ensures a + (b + c) == (a + b) + c
  {
  }

  lemma EscapeAppend(s: string, i: nat)
    requires i < |s|
    ensures Escape(s[..i + 1]) == Escape(s[..i]) + EscapeChar(s[i])
  {
    assert s[..i + 1] == s[..i] + [s[i]];
    EscapeConcat(s[..i], [s[i]]);
    assert Escape([s[i]]) == EscapeChar(s[i]);
  }

  /** Character by character: a backslash, a newline and a NUL become pairs, every other character stays. */
  lemma EscapeIs(a: string, c: char, b: string)
    ensures Escape(a + [c] + b) == Escape(a) +
      (if c == '\\' then "\\\\" else if c == '\n' then "\\n" else if c == '\0' then "\\0" else [c]) + Escape(b)
  {
    EscapeConcat(a + [c], b);
    EscapeConcat(a, [c]);
    EscapeOne(c);
  }

  lemma EscapeOne(c: char)
    ensures Escape([c]) == EscapeChar(c)
  {
    assert Escape([]) == [];
  }

  predicate AllSpecial(s: string) {
    forall i :: 0 <= i < |s| ==> IsSpecial(s[i])
  }

  lemma {:induction false} EscapeLength(s: string)
    ensures |s| <= |Escape(s)| <= 2 * |s|
    ensures |Escape(s)| == 2 * |s| <==> AllSpecial(s)
  {
    if s != [] {
      EscapeLength(s[1..]);
      assert AllSpecial(s) <==> IsSpecial(s[0]) && AllSpecial(s[1..]);
    }
  }

  /** The room that the writes need: a pair is written with a terminator, which the next character overwrites. */
  function Room(s: string): nat {
    |Escape(s)| + if s != [] && IsSpecial(s[|s| - 1]) then 1 else 0
  }

  /** Twice the length of the message is enough exactly when there is an ordinary character in it, or nothing at all. */
  lemma TwiceIsEnoughIff(s: string)
    ensures Room(s) <= 2 * |s| <==> s == [] || !AllSpecial(s)
    ensures Room(s) <= 2 * |s| + 1
  {
    EscapeLength(s);
  }

  /** One newline needs three bytes. */
  lemma TwiceIsNotEnough()
    ensures Room("\n") == 3
  {
    assert Escape("\n") == EscapeChar('\n');
  }

  function WithPair(t: seq<char>, at: nat, c: char): seq<char>
    requires at + 3 <= |t|
  {
    t[at := '\\'][at + 1 := c][at + 2 := '\0']
  }

  /** Writes an escaped pair and a terminator. */
  method PutPair(target: array<char>, at: nat, c: char)
    requires at + 3 <= target.Length
    modifies target
    ensures target[..] == WithPair(old(target[..]), at, c)
  {
    target[at], target[at + 1], target[at + 2] := '\\', c, '\0';
  }

  /** What the escaping of a message leaves in the target: the text, a terminator after a pair, and the rest as it was. */
  ghost predicate Holds(target: seq<char>, before: seq<char>, s: string)
    requires |target| == |before|
  {
    && Room(s) <= |target| && Escape(s) <= target
    && (Room(s) > |Escape(s)| ==> target[|Escape(s)|] == '\0')
    && forall k :: Room(s) <= k < |target| ==> target[k] == before[k]
  }

  lemma PairHolds(was: seq<char>, before: seq<char>, s: string, i: nat)
    requires i < |s| && IsSpecial(s[i]) && |was| == |before| && Holds(was, before, s[..i])
    ensures var at := |Escape(s[..i])|;
      && |Escape(s[..i + 1])| == at + 2 && Room(s[..i + 1]) == at + 3
      && (at + 3 <= |was| ==> Holds(WithPair(was, at, Letter(s[i])), before, s[..i + 1]))
  {
    EscapeAppend(s, i);
    assert s[..i + 1][i] == s[i];
    var at := |Escape(s[..i])|;
    if at + 3 <= |was| {
      assert WithPair(was, at, Letter(s[i]))[..at] == was[..at] == Escape(s[..i]);
    }
  }

  lemma CharHolds(was: seq<char>, before: seq<char>, s: string, i: nat)
    requires i < |s| && !IsSpecial(s[i]) && |was| == |before| && Holds(was, before, s[..i])
    ensures var at := |Escape(s[..i])|;
      && |Escape(s[..i + 1])| == Room(s[..i + 1]) == at + 1
      && (at + 1 <= |was| ==> Holds(was[at := s[i]], before, s[..i + 1]))
  {
    EscapeAppend(s, i);
    assert s[..i + 1][i] == s[i];
    var at := |Escape(s[..i])|;
    if at + 1 <= |was| {
      assert was[at := s[i]][..at] == was[..at] == Escape(s[..i]);
    }
  }

  /** Escapes a message. The writing stays within the target exactly when the target has the room for the message. */
  method EscapeString(source: array<char>, target: array<char>, maxlen: nat) returns (overrun: bool)
    requires source != target && maxlen <= source.Length
    modifies target
    ensures overrun <==> target.Length < Room(source[..maxlen])
    ensures !overrun ==> Holds(target[..], old(target[..]), source[..maxlen])
  {
    ghost var s, before := source[..maxlen], target[..];
    var i, optr := 0, 0;
    assert s[..0] == [];
    while i < maxlen
      invariant 0 <= i <= maxlen && s == source[..maxlen]
      invariant optr == |Escape(s[..i])| && Holds(target[..], before, s[..i])
    {
      RoomGrows(s, i + 1);
      ghost var was := target[..];
      if source[i] == '\\' || source[i] == '\n' || source[i] == '\0' {
        PairHolds(was, before, s, i);
        if target.Length < optr + 3 {
          return true;
        }
        PutPair(target, optr, Letter(source[i]));
        optr := optr + 2;
      } else {
        CharHolds(was, before, s, i);
        if target.Length < optr + 1 {
          return true;
        }
        target[optr] := source[i];
        assert target[..] == was[optr := s[i]];
        optr := optr + 1;
      }
      i := i + 1;
    }
    assert s[..maxlen] == s;
    overrun := false;
  }

  /** A message needs no less room than its beginning. */
  lemma RoomGrows(s: string, i: nat)
    requires i <= |s|
    ensures Room(s[..i]) <= Room(s)
  {
    if i < |s| {
      EscapeConcat(s[..i], s[i..]);
      assert s[..i] + s[i..] == s;
      EscapeLength(s[i..]);
    } else {
      assert s[..i] == s;
    }
  }
}
