/** What is asked and what is answered, in the letters of the translation file and of the request. */
module XlateAnswers {
  import opened Options
  import opened XlateOrder
  import opened XlateRecords
  import opened XlateLayout
  import opened XlateService

  /** The text stands for the path: a slash at its end does not count, unless it is all there is. */
  predicate StandsFor(text: string, p: string) {
    (text == p && !(|p| > 1 && p[|p| - 1] == '/')) || (text == p + "/" && p != "")
  }

  lemma StripIs(text: string, p: string)
    ensures StandsFor(text, p) <==> Strip(text) == p
  {
    if |text| > 1 && text[|text| - 1] == '/' {
      assert text == text[..|text| - 1] + "/";
    }
  }

  /** What fits into the reply. */
  function Reported(s: string): Reply {
    Found(if |s| <= 4096 then s else s[..4096])
  }

  /** Our own name ends at the first dot behind its first part. */
  lemma OursIs(env: Env, dots: string, part: string, rest: string)
    requires env.hostname == Some(dots + part + rest)
    requires (forall i :: 0 <= i < |dots| ==> dots[i] == '.') && '.' !in part
    requires if part == "" then rest == "" else rest == "" || rest[0] == '.'
    ensures Ours(env) == dots + part
  {
    ChopKeepsFirstPart(dots, part, rest);
  }

  /** The name stands for our own host. */
  predicate IsOurs(our: string, name: string) {
    Alike(name, "localhost") || Alike(name, our)
  }

  /** The request is about the host of this name, which it may spell in another case. */
  predicate AsksFor(our: string, name: string, host: Option<string>) {
    if IsOurs(our, name) then host.None? || host.value == "" || IsOurs(our, host.value)
    else host.Some? && host.value != "" && Alike(host.value, name)
  }

  lemma NamesAlike(our: string, name: string)
    ensures SameName(NameFor(our, name), our) <==> IsOurs(our, name)
    ensures !IsOurs(our, name) ==> NameFor(our, name) == name
  {
    TieIffAlike(name, "localhost");
    TieIffAlike(name, our);
  }

  lemma AskedIs(env: Env, name: string, host: Option<string>)
    requires env.hostname.Some? && env.file.File? && AsksFor(Ours(env), name, host)
    ensures Asked(env, host) == Find(Final(env), NameFor(Ours(env), name))
  {
    var our := Ours(env);
    NamesAlike(our, name);
    if host.Some? && host.value != "" {
      NamesAlike(our, host.value);
      TieIffAlike(host.value, name);
      FindSame(Final(env), NameFor(our, host.value), NameFor(our, name));
    } else {
      FindSame(Final(env), our, NameFor(our, name));
    }
  }

  /** Some record gives a path to our own host. */
  predicate OurHostNamed(env: Env)
    requires env.hostname.Some? && env.file.File?
  {
    exists i :: 0 <= i < |env.file.records| && env.file.records[i].host.Some?
      && IsOurs(Ours(env), env.file.records[i].host.value) && !Alike(env.file.records[i].directory, "dummy")
  }

  lemma AllComplete(env: Env)
    requires Startable(env)
    ensures forall i :: 0 <= i < |env.file.records| ==> env.file.records[i].Complete()
  {
    FitUpToIff(Ours(env), env.ipaddr, env.file.records, |env.file.records|);
    forall i | 0 <= i < |env.file.records|
      ensures env.file.records[i].Complete()
    {
      assert Fits(Ours(env), env.ipaddr, env.file.records, i);
    }
  }

  lemma OurHostNamedIff(env: Env)
    requires Startable(env)
    ensures OurHostNamed(env) <==> OursNamed(Ours(env), env.file.records, |env.file.records|)
  {
    AllComplete(env);
    forall i | 0 <= i < |env.file.records|
      ensures SameName(env.file.records[i].Name(Ours(env)), Ours(env))
        <==> IsOurs(Ours(env), env.file.records[i].host.value)
      ensures IsDummy(env.file.records[i].directory) <==> Alike(env.file.records[i].directory, "dummy")
    {
      NamesAlike(Ours(env), env.file.records[i].host.value);
      TieIffAlike(env.file.records[i].directory, "dummy");
    }
  }

  /** The path that a request is for: the current directory if it names none. */
  function PathAsked(dir: Option<string>, cwd: Option<string>): Option<string> {
    if dir.None? || dir.value == "" then cwd else dir
  }

  /**
   After a good start a request for the path of a record on the host of the record is answered with its
   global directory, however the two spell the host and end the path. A file of our own host is its own
   answer, and on our own host nothing is found as long as no record names that.
   */
  lemma RecordIsFound(env: Env, j: nat, p: string, dir: Option<string>, host: Option<string>, cwd: Option<string>,
                      isFile: string -> bool)
    requires Startable(env) && j < |env.file.records|
    requires var r := env.file.records[j];
      && r.host.Some? && r.host.value != "" && AsksFor(Ours(env), r.host.value, host)
      && StandsFor(r.directory, p) && !Alike(r.directory, "dummy")
    requires PathAsked(dir, cwd).Some? && StandsFor(PathAsked(dir, cwd).value, p)
    ensures Asked(env, host).Some? && env.file.records[j].gblpath.Some?
    ensures var ours := Asked(env, host).value.addr == env.ipaddr;
      Response(env, dir, host, cwd, isFile) ==
        if ours && isFile(p) then Reported(p)
        else if ours && !OurHostNamed(env) then Error(NoLocalTranslation)
        else Reported(env.file.records[j].gblpath.value)
  {
    var r, our := env.file.records[j], Ours(env);
    TieIffAlike(r.directory, "dummy");
    StripIs(r.directory, p);
    StripIs(PathAsked(dir, cwd).value, p);
    EachRecordAnswered(env, j, isFile(p));
    AskedAlike(env, r.host.value, host, p, isFile(p));
    OurHostNamedIff(env);
  }

  lemma AskedAlike(env: Env, name: string, host: Option<string>, p: string, isFile: bool)
    requires env.hostname.Some? && env.file.File? && AsksFor(Ours(env), name, host) && name != ""
    ensures Asked(env, host) == Asked(env, Some(name))
    ensures Expected(env, p, host, isFile) == Expected(env, p, Some(name), isFile)
  {
    AskedIs(env, name, host);
    assert Asked(env, Some(name)) == Find(Final(env), NameFor(Ours(env), name));
  }

  /** A record for our own host, by its name or as localhost, is found by a request that names our host or none. */
  lemma OwnRecordIsFound(env: Env, j: nat, p: string, dir: Option<string>, host: Option<string>, cwd: Option<string>,
                         isFile: string -> bool)
    requires Startable(env) && j < |env.file.records|
    requires var r := env.file.records[j];
      && r.host.Some? && r.host.value != "" && IsOurs(Ours(env), r.host.value)
      && StandsFor(r.directory, p) && !Alike(r.directory, "dummy")
    requires host.None? || host.value == "" || IsOurs(Ours(env), host.value)
    requires PathAsked(dir, cwd).Some? && StandsFor(PathAsked(dir, cwd).value, p)
    ensures env.file.records[j].gblpath.Some?
    ensures Response(env, dir, host, cwd, isFile) ==
      if isFile(p) then Reported(p) else Reported(env.file.records[j].gblpath.value)
  {
    var our, records := Ours(env), env.file.records;
    RecordIsFound(env, j, p, dir, host, cwd, isFile);
    assert OurHostNamed(env);
    AskedIs(env, records[j].host.value, host);
    NamesAlike(our, records[j].host.value);
    FindSame(Final(env), NameFor(our, records[j].host.value), our);
    OwnTableIff(our, env.ipaddr, records, |records|);
  }

  /** When the file system knows none of its files, whatever is found is the global directory of a record for the path. */
  lemma FoundIsRecorded(env: Env, p: string, host: Option<string>) returns (j: nat)
    requires Startable(env) && StandsFor(p, p) && p != "" && Response(env, Some(p), host, None, _ => false).Found?
    ensures j < |env.file.records|
    ensures var r := env.file.records[j];
      && r.gblpath.Some? && Response(env, Some(p), host, None, _ => false) == Reported(r.gblpath.value)
      && !Alike(r.directory, "dummy") && StandsFor(r.directory, p)
  {
    StripIs(p, p);
    j := OnlyRecordsAnswer(env, p, host);
    var r := env.file.records[j];
    TieIffAlike(r.directory, "dummy");
    StripIs(r.directory, p);
  }

  // ----- hosts that are known

  /** One of the first n records is complete and for the host of the name. */
  predicate Named(our: string, records: seq<Record>, n: nat, name: string)
    requires n <= |records|
  {
    exists i :: 0 <= i < n && records[i].Complete() && SameName(records[i].Name(our), name)
  }

  lemma NamedStep(our: string, records: seq<Record>, n: nat, name: string)
    requires 0 < n <= |records|
    ensures Named(our, records, n, name) <==>
      Named(our, records, n - 1, name) || (records[n - 1].Complete() && SameName(records[n - 1].Name(our), name))
  {
  }

  lemma KnownNext(t: Layout, our: string, r: Record, n: nat, name: string)
    requires r.Complete()
    ensures Find(Next(t, our, r, n), name).Some? <==> Find(t, name).Some? || SameName(r.Name(our), name)
  {
    FindNext(t, our, r, n, name);
  }

  lemma {:induction false} KnownIff(our: string, addr: nat, records: seq<Record>, n: nat, name: string)
    requires n <= |records|
    ensures Find(LayoutAfter(our, addr, records, n), name).Some? == (SameName(our, name) || Named(our, records, n, name))
    decreases n
  {
    if n == 0 {
      OwnIsKnown(our, addr, records, name);
    } else {
      KnownIff(our, addr, records, n - 1, name);
      KnownStep(our, addr, records, n, name);
    }
  }

  lemma KnownStep(our: string, addr: nat, records: seq<Record>, n: nat, name: string)
    requires 0 < n <= |records|
    requires Find(LayoutAfter(our, addr, records, n - 1), name).Some?
      == (SameName(our, name) || Named(our, records, n - 1, name))
    ensures Find(LayoutAfter(our, addr, records, n), name).Some? == (SameName(our, name) || Named(our, records, n, name))
  {
    if records[n - 1].Complete() {
      KnownNext(LayoutAfter(our, addr, records, n - 1), our, records[n - 1], n - 1, name);
    }
    NamedStep(our, records, n, name);
  }

  lemma OwnIsKnown(our: string, addr: nat, records: seq<Record>, name: string)
    ensures Find(LayoutAfter(our, addr, records, 0), name).Some? == (SameName(our, name) || Named(our, records, 0, name))
  {
    CaseCmpTotal(our, name);
  }

  /** The request names a host that neither is ours nor stands in any record, be it one for a dummy path. */
  predicate IsUnknown(env: Env, host: Option<string>)
    requires env.hostname.Some? && env.file.File?
  {
    && host.Some? && host.value != "" && !IsOurs(Ours(env), host.value)
    && forall i :: 0 <= i < |env.file.records| && env.file.records[i].host.Some? ==>
         !Alike(host.value, env.file.records[i].host.value)
  }

  lemma RecordNames(our: string, r: Record, name: string)
    requires r.host.Some? && !IsOurs(our, name)
    ensures SameName(r.Name(our), name) <==> Alike(name, r.host.value)
  {
    NamesAlike(our, r.host.value);
    TieIffAlike(name, r.host.value);
    TieIffAlike(name, our);
    TieIffAlike(name, "localhost");
    TieIffAlike(r.host.value, "localhost");
  }

  /** After a good start a host is not found exactly when it is unknown. */
  lemma UnknownIff(env: Env, host: Option<string>)
    requires Startable(env)
    ensures Asked(env, host).None? <==> IsUnknown(env, host)
  {
    var our, records := Ours(env), env.file.records;
    AllComplete(env);
    if host.Some? && host.value != "" {
      var name := NameFor(our, host.value);
      NamesAlike(our, host.value);
      KnownIff(our, env.ipaddr, records, |records|, name);
      if !IsOurs(our, host.value) {
        forall i | 0 <= i < |records|
          ensures SameName(records[i].Name(our), name) <==> Alike(name, records[i].host.value)
        {
          RecordNames(our, records[i], name);
        }
      }
    } else {
      OwnTableIff(our, env.ipaddr, records, |records|);
    }
  }

  /** A request for an unknown host finds nothing, and neither does one without a path or a current directory. */
  lemma NothingFound(env: Env, dir: Option<string>, host: Option<string>, cwd: Option<string>, isFile: string -> bool)
    requires Startable(env)
    ensures PathAsked(dir, cwd).None? ==> Response(env, dir, host, cwd, isFile) == Error(NoCurrentDirectory)
    ensures PathAsked(dir, cwd).Some? && IsUnknown(env, host) ==>
      Response(env, dir, host, cwd, isFile) == Error(NoTranslation)
  {
    UnknownIff(env, host);
  }

  /** Why a request fails, whatever it is for. */
  lemma ErrorIs(env: Env, dir: Option<string>, host: Option<string>, cwd: Option<string>, isFile: string -> bool)
    requires Startable(env) && Response(env, dir, host, cwd, isFile).Error?
    ensures Response(env, dir, host, cwd, isFile) == Error(
      if PathAsked(dir, cwd).None? then NoCurrentDirectory
      else if IsUnknown(env, host) then NoTranslation
      else if Asked(env, host).Some? && Asked(env, host).value.addr == env.ipaddr && !OurHostNamed(env)
      then NoLocalTranslation
      else NoTranslation)
  {
    UnknownIff(env, host);
    OurHostNamedIff(env);
  }

  // ----- files with which the service starts

  /** Two records give the path p two global directories. */
  predicate Disagree(r: Record, r': Record, p: string) {
    && StandsFor(r.directory, p) && StandsFor(r'.directory, p)
    && !Alike(r.directory, "dummy") && !Alike(r'.directory, "dummy")
    && r.gblpath.Some? && r'.gblpath.Some? && r.gblpath != r'.gblpath
  }

  lemma DisagreeClash(r: Record, r': Record, p: string)
    requires Disagree(r, r', p)
    ensures Clash(r, r')
  {
    StripIs(r.directory, p);
    StripIs(r'.directory, p);
    TieIffAlike(r.directory, "dummy");
    TieIffAlike(r'.directory, "dummy");
  }

  lemma ClashDisagrees(r: Record, r': Record)
    requires Clash(r, r')
    ensures Disagree(r, r', Strip(r.directory))
  {
    var p := Strip(r.directory);
    TieIffAlike(r.directory, "dummy");
    TieIffAlike(r'.directory, "dummy");
    StripIs(r.directory, p);
    StripIs(r'.directory, p);
  }

  /** The record lacks its host, the address of that, or the global directory. */
  predicate Lacks(r: Record) {
    r.host.None? || r.ipaddr == 0 || r.gblpath.None?
  }

  /** The start fails when something is missing, or when two records for one host disagree. */
  lemma StartFails(env: Env, i: nat, j: nat, p: string)
    requires
      || !env.functable || env.hostname.None? || env.ipaddr == 0 || env.file.NoFile? || !env.file.readable
      || (i < |env.file.records| && Lacks(env.file.records[i]))
      || (i < j < |env.file.records| && Disagree(env.file.records[i], env.file.records[j], p)
          && env.file.records[i].host.Some? && env.file.records[j].host.Some?
          && AsksFor(Ours(env), env.file.records[i].host.value, env.file.records[j].host)
          && env.file.records[j].host.value != "")
    ensures !Startable(env)
  {
    if Startable(env) {
      var our, records := Ours(env), env.file.records;
      AllComplete(env);
      FitUpToIff(our, env.ipaddr, records, |records|);
      assert Fits(our, env.ipaddr, records, j);
      DisagreeClash(records[i], records[j], p);
      NamesAlike(our, records[i].host.value);
      NamesAlike(our, records[j].host.value);
      TieIffAlike(records[j].host.value, records[i].host.value);
      var t := LayoutAfter(our, env.ipaddr, records, j + 1);
      FindSame(t, records[i].Name(our), records[j].Name(our));
      assert false;
    }
  }

  /** It goes well when nothing is missing and no two records for one path disagree, on whatever hosts. */
  lemma StartsWell(env: Env)
    requires env.functable && env.hostname.Some? && env.ipaddr != 0 && env.file.File? && env.file.readable
    requires forall i :: 0 <= i < |env.file.records| ==> !Lacks(env.file.records[i])
    requires forall i, j, p :: 0 <= i < j < |env.file.records| ==>
      !Disagree(env.file.records[i], env.file.records[j], p)
    ensures Startable(env)
  {
    FitUpToIff(Ours(env), env.ipaddr, env.file.records, |env.file.records|);
    forall i, j | 0 <= i < j < |env.file.records|
      ensures !Clash(env.file.records[i], env.file.records[j])
    {
      if Clash(env.file.records[i], env.file.records[j]) {
        ClashDisagrees(env.file.records[i], env.file.records[j]);
      }
    }
  }
}
