/** The translation service as it should answer: a function of what it finds at its start and of the request. */
module XlateService {
  import opened Options
  import opened XlateOrder
  import opened XlateRecords
  import opened XlateLayout

  const MSGBUFSIZE := 4096

  /** The translation file: its records, and whether the reading came to the end of the file. */
  datatype TransFile = NoFile | File(records: seq<Record>, readable: bool)

  /** What the first call finds: the memory functions, the name and the address of our host, and the file. */
  datatype Env = Env(functable: bool, hostname: Option<string>, ipaddr: nat, file: TransFile)

  datatype Failure = Broken | NotInitialized | NoCurrentDirectory | NoTranslation | NoLocalTranslation

  datatype Reply = Found(path: string) | Error(failure: Failure)

  /** What is found is cut to the size of the reply buffer. */
  function Cut(s: string): (r: string)
    ensures r <= s && |r| <= MSGBUFSIZE && (|r| < MSGBUFSIZE ==> r == s)
  {
    if |s| <= MSGBUFSIZE then s else s[..MSGBUFSIZE]
  }

  /** A host name up to the first dot that comes after another character. */
  function Chop(name: string): string {
    if name == "" then "" else if name[0] == '.' then "." + Chop(name[1..]) else UpToDot(name)
  }

  function UpToDot(name: string): string {
    if name == "" || name[0] == '.' then "" else [name[0]] + UpToDot(name[1..])
  }

  /** Of dots, a first part, and what a further dot begins, the dots and the part stay. */
  lemma {:induction false} ChopKeepsFirstPart(dots: string, part: string, rest: string)
    requires (forall i :: 0 <= i < |dots| ==> dots[i] == '.') && '.' !in part
    requires if part == "" then rest == "" else rest == "" || rest[0] == '.'
    ensures Chop(dots + part + rest) == dots + part
    decreases |dots|
  {
    var name := dots + part + rest;
    if dots == "" {
      assert name == part + rest;
      UpToDotKeeps(part, rest);
    } else {
      assert name[1..] == dots[1..] + part + rest;
      ChopKeepsFirstPart(dots[1..], part, rest);
      assert "." + (dots[1..] + part) == dots + part;
    }
  }

  lemma {:induction false} UpToDotKeeps(part: string, rest: string)
    requires '.' !in part && (rest == "" || rest[0] == '.')
    ensures UpToDot(part + rest) == part
  {
    if part != "" {
      assert (part + rest)[1..] == part[1..] + rest;
      UpToDotKeeps(part[1..], rest);
    } else {
      assert part + rest == rest;
    }
  }

  /** The file can be read to its end, and every record is complete and clashes with none before. */
  predicate Readable(file: TransFile, our: string, addr: nat) {
    file.File? && file.readable && FitUpTo(our, addr, file.records, |file.records|)
  }

  /** The start goes well. */
  predicate Startable(env: Env) {
    && env.functable && env.hostname.Some? && env.ipaddr != 0
    && Readable(env.file, Chop(env.hostname.value), env.ipaddr)
  }

  function Ours(env: Env): string
    requires env.hostname.Some?
  {
    Chop(env.hostname.value)
  }

  /** The layout of all records. */
  function Final(env: Env): Layout
    requires env.hostname.Some? && env.file.File?
  {
    LayoutAfter(Ours(env), env.ipaddr, env.file.records, |env.file.records|)
  }

  /** The record says something of the path, for a name that has the table. */
  predicate TellsOf(t: Layout, our: string, r: Record, table: nat, path: string) {
    r.Complete() && !IsDummy(r.directory) && Strip(r.directory) == path && TableIn(t, r.Name(our)) == Some(table)
  }

  /** Some record says that the path has the global directory g in the table. */
  predicate SomeTells(t: Layout, our: string, records: seq<Record>, table: nat, path: string, g: string) {
    exists j :: 0 <= j < |records| && records[j].gblpath == Some(g) && TellsOf(t, our, records[j], table, path)
  }

  /** The global directory that the first of the n records gives the path in the table. */
  function Translation(t: Layout, our: string, records: seq<Record>, n: nat, table: nat, path: string): Option<string>
    requires n <= |records|
  {
    if n == 0 then None
    else
      var before := Translation(t, our, records, n - 1, table, path);
      if before.Some? || !TellsOf(t, our, records[n - 1], table, path) then before else records[n - 1].gblpath
  }

  /** The name that a request is about: ours if it names none. */
  function Asked(env: Env, host: Option<string>): Option<Known>
    requires env.hostname.Some? && env.file.File?
  {
    if host.None? || host.value == "" then Find(Final(env), Ours(env))
    else Find(Final(env), NameFor(Ours(env), host.value))
  }

  /** The answer for a path, which is or is not a file of our host. */
  function Expected(env: Env, path: string, host: Option<string>, isFile: bool): Reply
    requires env.hostname.Some? && env.file.File?
  {
    match Asked(env, host)
    case None => Error(NoTranslation)
    case Some(k) =>
      if k.addr == env.ipaddr && isFile then Found(Cut(path))
      else if k.addr == env.ipaddr && !OursNamed(Ours(env), env.file.records, |env.file.records|)
      then Error(NoLocalTranslation)
      else if k.table.None? then Error(NoTranslation)
      else
        var g := Translation(Final(env), Ours(env), env.file.records, |env.file.records|, k.table.value, path);
        if g.None? then Error(NoTranslation) else Found(Cut(g.value))
  }

  /** An empty path stands for the current directory, and a trailing slash does not count. */
  function Response(env: Env, dir: Option<string>, host: Option<string>, cwd: Option<string>, isFile: string -> bool): Reply
    requires env.hostname.Some? && env.file.File?
  {
    var path := if dir.None? || dir.value == "" then cwd else dir;
    if path.None? then Error(NoCurrentDirectory)
    else Expected(env, Strip(path.value), host, isFile(Strip(path.value)))
  }

  // ----- what the answers are

  lemma {:induction false} TranslationIs(t: Layout, our: string, records: seq<Record>, n: nat, table: nat, path: string)
    returns (i: nat)
    requires n <= |records|
    ensures var g := Translation(t, our, records, n, table, path);
      if g.None? then forall j :: 0 <= j < n ==> !TellsOf(t, our, records[j], table, path)
      else i < n && TellsOf(t, our, records[i], table, path) && records[i].gblpath == g
    decreases n
  {
    i := 0;
    if n > 0 {
      i := TranslationIs(t, our, records, n - 1, table, path);
      if Translation(t, our, records, n - 1, table, path).None? {
        i := n - 1;
        assert TellsOf(t, our, records[i], table, path) ==> records[i].gblpath.Some?;
      }
    }
  }

  /** After a good start all records of a table that tell of one path agree. */
  lemma TellersAgree(env: Env, i: nat, j: nat, table: nat, path: string)
    requires Startable(env) && i < j < |env.file.records|
    requires TellsOf(Final(env), Ours(env), env.file.records[i], table, path)
    requires TellsOf(Final(env), Ours(env), env.file.records[j], table, path)
    ensures env.file.records[i].gblpath == env.file.records[j].gblpath
  {
    var our, addr, records := Ours(env), env.ipaddr, env.file.records;
    FitUpToIff(our, addr, records, |records|);
    assert Fits(our, addr, records, j);
    RecordIsMet(our, addr, records, i, j + 1);
    RecordIsMet(our, addr, records, j, j + 1);
    LayoutKeeps(our, addr, records, j + 1, |records|);
  }

  /**
   Every record is answered for its host, with two exceptions: a file of our own host is its own answer,
   and nothing is found on our host, under any name, as long as no record names our host itself.
   */
  lemma EachRecordAnswered(env: Env, j: nat, isFile: bool)
    requires Startable(env) && j < |env.file.records|
    requires !IsDummy(env.file.records[j].directory) && env.file.records[j].host != Some("")
    ensures var r := env.file.records[j]; Asked(env, r.host).Some? && r.Complete()
    ensures var r := env.file.records[j]; var ours := Asked(env, r.host).value.addr == env.ipaddr;
      Expected(env, Strip(r.directory), r.host, isFile) ==
        if ours && isFile then Found(Cut(Strip(r.directory)))
        else if ours && !OursNamed(Ours(env), env.file.records, |env.file.records|) then Error(NoLocalTranslation)
        else Found(Cut(r.gblpath.value))
  {
    var our, addr, records := Ours(env), env.ipaddr, env.file.records;
    FitUpToIff(our, addr, records, |records|);
    assert Fits(our, addr, records, j);
    RecordIsMet(our, addr, records, j, |records|);
    var table, path := TableIn(Final(env), records[j].Name(our)).value, Strip(records[j].directory);
    assert TellsOf(Final(env), our, records[j], table, path);
    var i := TranslationIs(Final(env), our, records, |records|, table, path);
    if i < j { TellersAgree(env, i, j, table, path); }
    if j < i { TellersAgree(env, j, i, table, path); }
  }

  /** A path is translated only as a record says, for a name with the same table, which has the same address. */
  lemma OnlyRecordsAnswer(env: Env, path: string, host: Option<string>)
    returns (j: nat)
    requires env.hostname.Some? && env.file.File? && Expected(env, path, host, false).Found?
    ensures j < |env.file.records|
    ensures TellsOf(Final(env), Ours(env), env.file.records[j], Asked(env, host).value.table.value, path)
    ensures Expected(env, path, host, false) == Found(Cut(env.file.records[j].gblpath.value))
    ensures Find(Final(env), env.file.records[j].Name(Ours(env))).value.addr == Asked(env, host).value.addr
  {
    var our, records := Ours(env), env.file.records;
    var k := Asked(env, host).value;
    j := TranslationIs(Final(env), our, records, |records|, k.table.value, path);
    var asked := if host.None? || host.value == "" then our else NameFor(our, host.value);
    TableIsOpened(our, env.ipaddr, records, |records|, asked);
    TableIsOpened(our, env.ipaddr, records, |records|, records[j].Name(our));
  }

  /** Names that share a table have one address and get the same answers. */
  lemma SharersAnswer(env: Env, host: Option<string>, host': Option<string>, path: string, isFile: bool)
    requires env.hostname.Some? && env.file.File? && Asked(env, host).Some? && Asked(env, host').Some?
    requires Asked(env, host).value.table == Asked(env, host').value.table != None
    ensures Asked(env, host).value.addr == Asked(env, host').value.addr
    ensures Expected(env, path, host, isFile) == Expected(env, path, host', isFile)
  {
    var our, records := Ours(env), env.file.records;
    var a := if host.None? || host.value == "" then our else NameFor(our, host.value);
    var b := if host'.None? || host'.value == "" then our else NameFor(our, host'.value);
    TableIsOpened(our, env.ipaddr, records, |records|, a);
    TableIsOpened(our, env.ipaddr, records, |records|, b);
  }

  /** A file with one record, for another name of our host, with which the service starts but does not find the path. */
  lemma AliasExpected(env: Env, isFile: string -> bool)
    requires env == Env(true, Some("h"), 1, File([Record("/d", Some("alias"), 1, Some("/d/a.gld"))], true))
    requires !isFile("/d")
    ensures Startable(env) && Response(env, Some("/d"), Some("alias"), None, isFile) == Error(NoLocalTranslation)
  {
    var our, records := Ours(env), env.file.records;
    assert Fits(our, 1, records, 0);
    FitUpToIff(our, 1, records, 1);
    EachRecordAnswered(env, 0, false);
    var t := LayoutAfter(our, 1, records, 0);
    FindNext(t, our, records[0], 0, "alias");
  }
}
