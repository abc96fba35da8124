/** The audit log: one line for each message, with the date in front of it. */
module AuditLog {
  import opened Options
  import opened Escaping
  import opened Text

  const MAX_BUF_SIZE := 2048
  const NL: char := '\n'
  const SEMICOLON: char := ';'

  /** The characters of a date in the format of the log. */
  predicate IsDate(d: string) {
    forall i :: 0 <= i < |d| ==> IsDigit(d[i]) || d[i] in "-: "
  }

  datatype Entry = Entry(date: string, message: string)

  /** The text of an array of characters up to its first NUL. */
  function CString(s: string): string {
    if s == [] || s[0] == '\0' then [] else [s[0]] + CString(s[1..])
  }

  lemma {:induction false} CStringStops(a: string, b: string)
    requires '\0' !in a
    ensures CString(a + ['\0'] + b) == a
  {
    var s := a + ['\0'] + b;
    if a != [] {
      CStringStops(a[1..], b);
      assert s[1..] == a[1..] + ['\0'] + b;
      assert [a[0]] + a[1..] == a;
    }
  }

  lemma {:induction false} CStringIs(s: string)
    ensures '\0' !in CString(s) && CString(s) <= s
    ensures CString(s) == s <==> '\0' !in s
  {
    if s != [] && s[0] != '\0' {
      CStringIs(s[1..]);
      assert [s[0]] + s[1..] == s;
    }
  }

  /** A line of the log of a listener on a Unix socket, which escapes messages, or of the others, which do not. */
  function Line(e: Entry, unix: bool): string {
    e.date + "; " + (if unix then Escape(e.message) else CString(e.message)) + "\n"
  }

  /** What a message adds to the log; an empty one is not logged. */
  function Added(e: Entry, unix: bool): string {
    if e.message == "" then "" else Line(e, unix)
  }

  function LogOf(entries: seq<Entry>, unix: bool): string {
    if entries == [] then [] else Line(entries[0], unix) + LogOf(entries[1..], unix)
  }

  // ----- reading a log

  function ReadLine(line: string, unix: bool): Option<Entry> {
    var date := Split(line, SEMICOLON)[0];
    if |line| < |date| + 2 || line[..|date| + 2] != date + "; " then None
    else
      var text := line[|date| + 2..];
      match if unix then Unescape(text) else Some(text)
      case None => None
      case Some(message) => Some(Entry(date, message))
  }

  /** All lines but the last, empty one. */
  function ReadLines(lines: seq<string>, unix: bool): Option<seq<Entry>> {
    if lines == [] then None
    else if |lines| == 1 then if lines[0] == "" then Some([]) else None
    else
      match ReadLine(lines[0], unix)
      case None => None
      case Some(e) =>
        match ReadLines(lines[1..], unix)
        case None => None
        case Some(rest) => Some([e] + rest)
  }

  function ReadLog(log: string, unix: bool): Option<seq<Entry>> {
    ReadLines(Split(log, NL), unix)
  }

  lemma LineIsRead(e: Entry, text: string, unix: bool)
    requires IsDate(e.date)
    requires if unix then Unescape(text) == Some(e.message) else text == e.message
    ensures ReadLine(e.date + "; " + text, unix) == Some(e)
  {
    var line := e.date + "; " + text;
    SplitField(e.date, SEMICOLON, " " + text);
    assert line == e.date + [SEMICOLON] + (" " + text);
    assert line[..|e.date| + 2] == e.date + "; ";
    assert line[|e.date| + 2..] == text;
  }

  /** The first line of a log is read, and then the rest. */
  lemma FirstLineIsRead(e: Entry, text: string, rest: string, unix: bool)
    requires IsDate(e.date) && NL !in text
    requires if unix then Unescape(text) == Some(e.message) else text == e.message
    ensures ReadLog(e.date + "; " + text + "\n" + rest, unix) ==
      match ReadLog(rest, unix) case None => None case Some(es) => Some([e] + es)
  {
    var line := e.date + "; " + text;
    LineIsRead(e, text, unix);
    SplitField(line, NL, rest);
    assert line + [NL] + rest == e.date + "; " + text + "\n" + rest;
    assert Split(line + [NL] + rest, NL)[1..] == Split(rest, NL);
  }

  /** The log of any messages on a Unix socket is read back as those messages. */
  lemma {:induction false} LogIsRead(entries: seq<Entry>)
    requires forall e :: e in entries ==> IsDate(e.date)
    ensures ReadLog(LogOf(entries, true), true) == Some(entries)
  {
    if entries == [] {
      SplitOne("", NL);
    } else {
      var e := entries[0];
      LogIsRead(entries[1..]);
      UnescapeEscape(e.message);
      EscapeIsPlain(e.message);
      FirstLineIsRead(e, Escape(e.message), LogOf(entries[1..], true), true);
      assert Line(e, true) + LogOf(entries[1..], true) ==
        e.date + "; " + Escape(e.message) + "\n" + LogOf(entries[1..], true);
      assert [entries[0]] + entries[1..] == entries;
    }
  }

  // ----- the listeners that do not escape

  lemma {:induction false} ReadLinesLength(lines: seq<string>, unix: bool)
    requires ReadLines(lines, unix).Some?
    ensures |ReadLines(lines, unix).value| == |lines| - 1
  {
    if |lines| > 1 {
      ReadLinesLength(lines[1..], unix);
    }
  }

  lemma {:induction false} SplitCount(a: string, sep: char, b: string)
    ensures |Split(a + [sep] + b, sep)| == |Split(a, sep)| + |Split(b, sep)|
  {
    var s := a + [sep] + b;
    if a == [] {
      assert s[1..] == b;
    } else {
      SplitCount(a[1..], sep, b);
      assert s[1..] == a[1..] + [sep] + b;
    }
  }

  /** The message is logged as one line. */
  predicate OneLine(e: Entry) {
    NL !in CString(e.message)
  }

  /** Every message makes a line, and a newline in it makes more. */
  lemma {:induction false} RawLines(entries: seq<Entry>)
    ensures |Split(LogOf(entries, false), NL)| >= |entries| + 1
    ensures |Split(LogOf(entries, false), NL)| == |entries| + 1 ==> forall e :: e in entries ==> OneLine(e)
  {
    if entries != [] {
      var e, rest := entries[0], LogOf(entries[1..], false);
      var line := e.date + "; " + CString(e.message);
      assert LogOf(entries, false) == line + [NL] + rest;
      SplitCount(line, NL, rest);
      RawLines(entries[1..]);
      if NL in CString(e.message) {
        SplitTwice(line, NL);
      }
    }
  }

  /** What is left of the messages in a log without escaping. */
  function Texts(entries: seq<Entry>): seq<Entry> {
    if entries == [] then [] else [Entry(entries[0].date, CString(entries[0].message))] + Texts(entries[1..])
  }

  lemma {:induction false} TextsAreRead(entries: seq<Entry>)
    requires forall e :: e in entries ==> IsDate(e.date) && OneLine(e)
    ensures ReadLog(LogOf(entries, false), false) == Some(Texts(entries))
  {
    if entries == [] {
      SplitOne("", NL);
    } else {
      var e, rest := entries[0], LogOf(entries[1..], false);
      var text := CString(e.message);
      assert e in entries;
      TextsAreRead(entries[1..]);
      FirstLineIsRead(Entry(e.date, text), text, rest, false);
      assert LogOf(entries, false) == e.date + "; " + text + "\n" + rest;
    }
  }

  lemma {:induction false} TextsAreMessagesIff(entries: seq<Entry>)
    ensures Texts(entries) == entries <==> forall e :: e in entries ==> '\0' !in e.message
  {
    if entries != [] {
      var e, t := entries[0], Texts(entries);
      CStringIs(e.message);
      TextsAreMessagesIff(entries[1..]);
      assert t[0] == Entry(e.date, CString(e.message)) && t[1..] == Texts(entries[1..]);
      assert entries == [e] + entries[1..];
    }
  }

  /** Elsewhere the log of any messages is read back as those messages exactly when none has a newline or a NUL. */
  lemma RawLogIsReadIff(entries: seq<Entry>)
    requires forall e :: e in entries ==> IsDate(e.date)
    ensures ReadLog(LogOf(entries, false), false) == Some(entries)
      <==> forall e :: e in entries ==> NL !in e.message && '\0' !in e.message
  {
    TextsAreMessagesIff(entries);
    if ReadLog(LogOf(entries, false), false) == Some(entries) {
      ReadLinesLength(Split(LogOf(entries, false), NL), false);
      RawLines(entries);
      TextsAreRead(entries);
    }
    forall e | e in entries && '\0' !in e.message
      ensures CString(e.message) == e.message
    {
      CStringIs(e.message);
    }
    if forall e :: e in entries ==> OneLine(e) {
      TextsAreRead(entries);
    }
  }

  // ----- the listeners

  /** Puts a message at the beginning of the buffer. */
  method CopyIn(buf: array<char>, message: string)
    requires |message| < buf.Length
    modifies buf
    ensures buf[..|message|] == message
  {
    forall i | 0 <= i < |message| {
      buf[i] := message[i];
    }
  }

  /** Clears the target and escapes the message in the buffer; the target then holds the escaped message as a C string. */
  method EscapeMessage(buf: array<char>, escaped: array<char>, length: nat, ghost message: string)
    requires buf != escaped && length == |message| < buf.Length && 2 * buf.Length <= escaped.Length
    requires buf[..length] == message
    modifies escaped
    ensures CString(escaped[..]) == Escape(message)
  {
    forall i | 0 <= i < escaped.Length {
      escaped[i] := '\0';
    }
    ghost var zeros := escaped[..];
    assert buf[..length] == message;
    TwiceIsEnoughIff(message);
    EscapeLength(message);
    var overrun := EscapeString(buf, escaped, length);
    assert buf[..length] == message;
    ReadEscaped(escaped[..], zeros, message);
  }

  /** A listener: its two buffers and the log. */
  class Listener {
    const unix: bool
    const buf: array<char>
    const escaped: array<char>
    var log: string

    ghost predicate Valid() {
      buf != escaped && buf.Length == MAX_BUF_SIZE && escaped.Length == 2 * MAX_BUF_SIZE
    }

    constructor (unix: bool)
      ensures Valid() && this.unix == unix && log == "" && fresh(buf) && fresh(escaped)
    {
      this.unix := unix;
      buf := new char[MAX_BUF_SIZE];
      escaped := new char[2 * MAX_BUF_SIZE];
      log := "";
    }

    /** Receives a message, which leaves room for one more character in the buffer, and logs it unless it is empty. */
    method Receive(date: string, message: string)
      requires Valid() && |message| <= 2047
      modifies this, buf, escaped
      ensures log == old(log) + Added(Entry(date, message), unix)
      ensures unix && message != "" ==> log == old(log) + (date + "; " + Escape(message) + "\n")
      ensures !unix && message != "" ==> log == old(log) + (date + "; " + CString(message) + "\n")
    {
      var length := |message|;
      CopyIn(buf, message);
      if 0 < length {
        if !unix {
          buf[length] := '\0';
          assert buf[..length] == message;
        }
        EscapeMessage(buf, escaped, length, message);
        if !unix {
          ReadRaw(buf[..], message);
        }
        var line := date + "; " + CString(if unix then escaped[..] else buf[..]) + "\n";
        log := log + line;
      }
    }

    /** Serves one message after the other; empty ones are not logged. */
    method Serve(entries: seq<Entry>)
      requires Valid() && forall e :: e in entries ==> |e.message| <= 2047
      modifies this, buf, escaped
      ensures log == old(log) + LogOf(Logged(entries), unix)
    {
      var n := 0;
      ghost var before, added := log, "";
      while n < |entries|
        invariant 0 <= n <= |entries|
        invariant log == before + added && added == LogOf(Logged(entries[..n]), unix)
      {
        Receive(entries[n].date, entries[n].message);
        LoggedNext(entries, n, unix);
        ConcatAssociates(before, added, Added(entries[n], unix));
        added := added + Added(entries[n], unix);
        n := n + 1;
      }
      assert entries[..n] == entries;
    }
  }

  function Logged(entries: seq<Entry>): seq<Entry> {
    if entries == [] then []
    else
      var last := entries[|entries| - 1];
      Logged(entries[..|entries| - 1]) + if last.message == "" then [] else [last]
  }

  lemma LoggedNext(entries: seq<Entry>, n: nat, unix: bool)
    requires n < |entries|
    ensures LogOf(Logged(entries[..n + 1]), unix) ==
      LogOf(Logged(entries[..n]), unix) + Added(entries[n], unix)
  {
    var some := entries[..n + 1];
    assert some[..|some| - 1] == entries[..n];
    LogAppend(Logged(entries[..n]), entries[n], unix);
    assert Logged(entries[..n]) + [] == Logged(entries[..n]);
  }

  lemma {:induction false} LogAppend(entries: seq<Entry>, e: Entry, unix: bool)
    ensures LogOf(entries + [e], unix) == LogOf(entries, unix) + Line(e, unix)
  {
    if entries != [] {
      LogAppend(entries[1..], e, unix);
      assert (entries + [e])[1..] == entries[1..] + [e];
    }
  }

  /** In the cleared target the escaped message ends with a NUL. */
  lemma ReadEscaped(target: string, zeros: string, message: string)
    requires |target| == |zeros| && (forall k :: 0 <= k < |zeros| ==> zeros[k] == '\0')
    requires |Escape(message)| < |target| && Holds(target, zeros, message)
    ensures CString(target) == Escape(message)
  {
    var n := |Escape(message)|;
    EscapeIsPlain(message);
    CStringStops(Escape(message), target[n + 1..]);
    assert target == Escape(message) + ['\0'] + target[n + 1..];
  }

  lemma ReadRaw(buf: string, message: string)
    requires message + ['\0'] <= buf
    ensures CString(buf) == CString(message)
  {
    var rest := buf[|message| + 1..];
    assert buf == message + ['\0'] + rest;
    CStringCut(message, rest);
  }

  lemma {:induction false} CStringCut(a: string, b: string)
    ensures CString(a + ['\0'] + b) == CString(a)
  {
    if a != [] {
      CStringCut(a[1..], b);
      assert (a + ['\0'] + b)[1..] == a[1..] + ['\0'] + b;
    }
  }
}
