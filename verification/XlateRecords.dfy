/** The records of the translation file. */
module XlateRecords {
  import opened Options
  import opened XlateOrder

  const LOCALHOST := "localhost"
  const DUMMY := "dummy"

  /** Two names are the same whatever the case of their letters. */
  predicate SameName(a: string, b: string) {
    Fold(a) == Fold(b)
  }

  /** A record for this path only makes its host known. */
  predicate IsDummy(dir: string) {
    StringCaseCmp(dir, DUMMY) == 0
  }

  /** A path without a trailing slash, unless it is the root itself. */
  function Strip(dir: string): string {
    if |dir| > 1 && dir[|dir| - 1] == '/' then dir[..|dir| - 1] else dir
  }

  /** The name that a host name stands for on the host called `our`. */
  function NameFor(our: string, hostname: string): string {
    if StringCaseCmp(hostname, LOCALHOST) == 0 then our else hostname
  }

  /** A record, with the address that its host's name has, or 0 if it has none. */
  datatype Record = Record(directory: string, host: Option<string>, ipaddr: nat, gblpath: Option<string>) {
    predicate Complete() {
      host.Some? && ipaddr != 0 && gblpath.Some?
    }

    /** The name of the host that a complete record is about. */
    function Name(our: string): string
      requires host.Some?
    {
      NameFor(our, host.value)
    }

    predicate Gives(d: string, g: string) {
      !IsDummy(directory) && Strip(directory) == d && gblpath == Some(g)
    }
  }

  /** The records give one path two global directories. */
  predicate Clash(r: Record, r': Record) {
    && !IsDummy(r.directory) && !IsDummy(r'.directory) && Strip(r.directory) == Strip(r'.directory)
    && r.gblpath.Some? && r'.gblpath.Some? && r.gblpath != r'.gblpath
  }
}
