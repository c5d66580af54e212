/**
 * Registry: how the runner builds its table of migrations from the working
 * directory. Each visible directory `VERSION-code` is one migration; its
 * files are validated into a table of parts.
 */
module Registry {
  import opened Wrappers
  import opened Errors
  import opened Versions

  /** The probe script every multi-part migration carries. */
  const STATE_FILE: string := "state.sql"
  /** The two scripts of the baseline migration. */
  const INIT_UP: string := "up.sql"
  const INIT_DOWN: string := "down.sql"
  const UP_SUFFIX: string := ".up.sql"
  const DOWN_SUFFIX: string := ".down.sql"
  /** Scripts of this many bytes or fewer are rejected. */
  const MIN_SCRIPT_SIZE: nat := 32

  /** The two script names of one part. */
  datatype Part = Part(up: string, down: string)

  /** A directory name split at its first dash. */
  datatype Name = Name(version: string, code: Option<string>)

  /** One registered migration: its code, its directory and its parts keyed by part number. */
  datatype Migration = Migration(code: Option<string>, dir: string, parts: map<string, Part>)

  /**
   * One entry of the working directory: its name, whether it is a directory,
   * and for a directory the sizes of its files and what the two globs list.
   */
  datatype Entry = Entry(name: string, isDir: bool, files: map<string, nat>, ups: seq<string>, downs: seq<string>)

  /**
   * validateSqlFile: the file is there and larger than 32 bytes, so in
   * particular file_get_contents reads it as a non-empty script.
   */
  predicate ValidSqlFile(files: map<string, nat>, name: string)
    ensures ValidSqlFile(files, name) ==> name in files && files[name] > 0
  {
    name in files && files[name] > MIN_SCRIPT_SIZE
  }

  /**
   * `explode('-', $name, 2)`: the text before the first dash and the text
   * after it, or the whole name and no code when there is no dash.
   */
  function SplitName(name: string): (n: Name)
    ensures '-' !in n.version
    ensures n.code.None? ==> n.version == name
    ensures n.code.Some? ==> name == n.version + "-" + n.code.value
  {
    if |name| == 0 then Name("", None)
    else if name[0] == '-' then Name("", Some(name[1..]))
    else
      var rest := SplitName(name[1..]);
      Name([name[0]] + rest.version, rest.code)
  }

  /** Joining a dash-free version and a code with a dash and splitting again gives both back. */
  lemma {:induction false} SplitJoin(version: string, code: string)
    requires '-' !in version
    ensures SplitName(version + "-" + code) == Name(version, Some(code))
  {
    var name := version + "-" + code;
    if |version| == 0 {
      assert name == "-" + code;
      assert name[1..] == code;
    } else {
      SplitJoin(version[1..], code);
      assert name[1..] == version[1..] + "-" + code;
    }
  }

  /** A name glob('*.up.sql') can list. */
  predicate IsUpName(u: string)
  {
    |u| >= |UP_SUFFIX| && u[|u| - |UP_SUFFIX|..] == UP_SUFFIX
  }

  /**
   * `substr($upFile, 0, -strlen('.up.sql'))`: the part number of an up
   * script (the empty string for a name shorter than the suffix).
   */
  function Num(u: string): (n: string)
    ensures IsUpName(u) ==> n + UP_SUFFIX == u
  {
    if |u| >= |UP_SUFFIX| then u[..|u| - |UP_SUFFIX|] else ""
  }

  /** The part table entry for part number `n`. */
  function PartOf(n: string): Part
  {
    Part(n + UP_SUFFIX, n + DOWN_SUFFIX)
  }

  /**
   * The checks on one up script, in the code's order: its down script must
   * exist, then both must be valid SQL files.
   */
  function PartError(files: map<string, nat>, u: string): (e: Option<Error>)
    ensures e.None? <==> Num(u) + DOWN_SUFFIX in files && ValidSqlFile(files, u) && ValidSqlFile(files, Num(u) + DOWN_SUFFIX)
  {
    var n := Num(u);
    if n + DOWN_SUFFIX !in files then Some(MissingDown(n))
    else if !ValidSqlFile(files, u) then Some(InvalidUp(n))
    else if !ValidSqlFile(files, n + DOWN_SUFFIX) then Some(InvalidDown(n))
    else None
  }

  /** The part loop over the up scripts in glob order, stopping at the first bad one. */
  function PartsFold(files: map<string, nat>, ups: seq<string>): Result<map<string, Part>, Error>
    decreases |ups|
  {
    if ups == [] then Success(map[])
    else
      var r := PartsFold(files, ups[..|ups| - 1]);
      var u := ups[|ups| - 1];
      if r.Failure? then r
      else match PartError(files, u)
        case Some(e) => Failure(e)
        case None => Success(r.value[Num(u) := PartOf(Num(u))])
  }

  /** Whether part number `n` is the number of some listed up script. */
  predicate Numbered(ups: seq<string>, n: string)
  {
    exists u :: u in ups && Num(u) == n
  }

  /**
   * The part loop succeeds exactly when every up script passes its checks,
   * and then the table has one entry per part number, naming that part's
   * two scripts.
   */
  lemma {:induction false} PartsFoldSuccess(files: map<string, nat>, ups: seq<string>)
    ensures PartsFold(files, ups).Success? <==> forall u :: u in ups ==> PartError(files, u).None?
    ensures PartsFold(files, ups).Success? ==>
      (forall n :: n in PartsFold(files, ups).value <==> Numbered(ups, n)) &&
      (forall n :: n in PartsFold(files, ups).value ==> PartsFold(files, ups).value[n] == PartOf(n))
    decreases |ups|
  {
    if ups != [] {
      var front := ups[..|ups| - 1];
      var u := ups[|ups| - 1];
      assert ups == front + [u];
      PartsFoldSuccess(files, front);
      if PartsFold(files, ups).Success? {
        var m := PartsFold(files, ups).value;
        forall n | Numbered(ups, n)
          ensures n in m
        {
          var w :| w in ups && Num(w) == n;
          if w != u {
            assert w in front;
          }
        }
        forall n | n in m
          ensures Numbered(ups, n)
        {
          if n != Num(u) {
            var w :| w in front && Num(w) == n;
          }
        }
      }
    }
  }

  /** Whether the first `n` up scripts pass their checks. */
  predicate AllGood(files: map<string, nat>, ups: seq<string>, n: nat)
    requires n <= |ups|
  {
    forall j :: 0 <= j < n ==> PartError(files, ups[j]).None?
  }

  /** When the first bad up script, in glob order, is `ups[i]`, the part loop fails with its error. */
  lemma {:induction false} PartsFoldFirstError(files: map<string, nat>, ups: seq<string>, i: nat)
    requires i < |ups| && AllGood(files, ups, i) && PartError(files, ups[i]).Some?
    ensures PartsFold(files, ups) == Failure(PartError(files, ups[i]).value)
    decreases |ups|
  {
    var front := ups[..|ups| - 1];
    if i < |ups| - 1 {
      assert AllGood(files, front, i) by {
        assert forall j :: 0 <= j < i ==> front[j] == ups[j];
      }
      PartsFoldFirstError(files, front, i);
    } else {
      PartsFoldSuccess(files, front);
      assert forall w :: w in front ==> PartError(files, w).None? by {
        forall w | w in front
          ensures PartError(files, w).None?
        {
          var j :| 0 <= j < |front| && front[j] == w;
          assert ups[j] == w;
        }
      }
    }
  }

  /** Once the part loop has failed on a prefix, the rest of the scripts change nothing. */
  lemma {:induction false} PartsStop(files: map<string, nat>, ups: seq<string>, i: nat)
    requires i <= |ups| && PartsFold(files, ups[..i]).Failure?
    ensures PartsFold(files, ups) == PartsFold(files, ups[..i])
    decreases |ups| - i
  {
    if i < |ups| {
      assert ups[..i + 1][..i] == ups[..i];
      PartsStop(files, ups, i + 1);
    } else {
      assert ups[..i] == ups;
    }
  }

  /**
   * getMigrationParts: the baseline needs valid up.sql and down.sql and has
   * the single part 1; any other migration needs a valid state.sql and as
   * many up as down scripts, then goes through the part loop.
   */
  function MigrationParts(version: string, files: map<string, nat>, ups: seq<string>, downs: seq<string>)
    : (r: Result<map<string, Part>, Error>)
    ensures version == INIT ==>
      (r.Success? <==> ValidSqlFile(files, INIT_UP) && ValidSqlFile(files, INIT_DOWN)) &&
      (r.Success? ==> r.value == map["1" := Part(INIT_UP, INIT_DOWN)])
    ensures version != INIT && r.Success? ==> ValidSqlFile(files, STATE_FILE) && |ups| == |downs|
    ensures version != INIT && !ValidSqlFile(files, STATE_FILE) ==> r == Failure(InvalidStateFile)
    ensures version != INIT && ValidSqlFile(files, STATE_FILE) && |ups| != |downs| ==> r == Failure(UpDownCountMismatch)
  {
    if version == INIT then
      if !ValidSqlFile(files, INIT_UP) then Failure(InvalidInitUp)
      else if !ValidSqlFile(files, INIT_DOWN) then Failure(InvalidInitDown)
      else Success(map["1" := Part(INIT_UP, INIT_DOWN)])
    else if !ValidSqlFile(files, STATE_FILE) then Failure(InvalidStateFile)
    else if |ups| != |downs| then Failure(UpDownCountMismatch)
    else PartsFold(files, ups)
  }

  /**
   * Every script a registered part table names is a valid SQL file, given
   * that the up glob lists only `*.up.sql` names.
   */
  lemma RegisteredScriptsValid(version: string, files: map<string, nat>, ups: seq<string>, downs: seq<string>)
    requires forall u :: u in ups ==> IsUpName(u)
    ensures MigrationParts(version, files, ups, downs).Success? ==>
      forall n :: n in MigrationParts(version, files, ups, downs).value ==>
        ValidSqlFile(files, MigrationParts(version, files, ups, downs).value[n].up) &&
        ValidSqlFile(files, MigrationParts(version, files, ups, downs).value[n].down)
  {
    var r := MigrationParts(version, files, ups, downs);
    if r.Success? && version != INIT {
      PartsFoldSuccess(files, ups);
      forall n | n in r.value
        ensures ValidSqlFile(files, r.value[n].up) && ValidSqlFile(files, r.value[n].down)
      {
        var u :| u in ups && Num(u) == n;
        assert PartError(files, u).None?;
      }
    }
  }

  /** getMigrationParts, as the code runs it: the checks, then a loop over the up scripts. */
  method GetMigrationParts(version: string, files: map<string, nat>, ups: seq<string>, downs: seq<string>)
    returns (r: Result<map<string, Part>, Error>)
    ensures r == MigrationParts(version, files, ups, downs)
  {
    if version == INIT {
      if !ValidSqlFile(files, INIT_UP) {
        return Failure(InvalidInitUp);
      }
      if !ValidSqlFile(files, INIT_DOWN) {
        return Failure(InvalidInitDown);
      }
      return Success(map["1" := Part(INIT_UP, INIT_DOWN)]);
    }
    if !ValidSqlFile(files, STATE_FILE) {
      return Failure(InvalidStateFile);
    }
    if |ups| - |downs| != 0 {
      return Failure(UpDownCountMismatch);
    }
    var parts: map<string, Part> := map[];
    var i := 0;
    while i < |ups|
      invariant 0 <= i <= |ups|
      invariant PartsFold(files, ups[..i]) == Success(parts)
    {
      var u := ups[i];
      assert ups[..i + 1][..i] == ups[..i];
      var bad := PartError(files, u);
      if bad.Some? {
        PartsStop(files, ups, i + 1);
        return Failure(bad.value);
      }
      var n := Num(u);
      parts := parts[n := PartOf(n)];
      i := i + 1;
    }
    assert ups[..|ups|] == ups;
    return Success(parts);
  }

  /** scandir's entries that getMigrations skips: files and names starting with a dot. */
  predicate Visible(e: Entry)
  {
    e.isDir && !(|e.name| > 0 && e.name[0] == '.')
  }

  /** Whether getMigrations registers the directory: visible and, without includeDev, not the dev version. */
  predicate Registers(includeDev: bool, e: Entry)
  {
    Visible(e) && (includeDev || SplitName(e.name).version != DEV)
  }

  /**
   * One pass of getMigrations' loop: nothing once an error stopped it or
   * for a directory it skips; otherwise the directory's parts are
   * registered under its version (replacing an earlier directory with the
   * same version), or their error stops the loop.
   */
  function ScanNext(includeDev: bool, r: (map<string, Migration>, Option<Error>), e: Entry)
    : (map<string, Migration>, Option<Error>)
  {
    if r.1.Some? || !Registers(includeDev, e) then r
    else
      var n := SplitName(e.name);
      match MigrationParts(n.version, e.files, e.ups, e.downs)
      case Failure(err) => (r.0, Some(err))
      case Success(parts) => (r.0[n.version := Migration(n.code, e.name, parts)], None)
  }

  /** getMigrations' loop over the listing: the table built so far and the error that stopped it, if any. */
  function ScanFold(includeDev: bool, listing: seq<Entry>): (map<string, Migration>, Option<Error>)
    decreases |listing|
  {
    if listing == [] then (map[], None)
    else ScanNext(includeDev, ScanFold(includeDev, listing[..|listing| - 1]), listing[|listing| - 1])
  }

  lemma ScanStep(includeDev: bool, listing: seq<Entry>, i: nat)
    requires i < |listing|
    ensures ScanFold(includeDev, listing[..i + 1]) == ScanNext(includeDev, ScanFold(includeDev, listing[..i]), listing[i])
  {
    assert listing[..i + 1][..i] == listing[..i];
  }

  /** Whether some registered directory of the listing has version `v`. */
  predicate Listed(includeDev: bool, listing: seq<Entry>, v: string)
  {
    exists e :: e in listing && Registers(includeDev, e) && SplitName(e.name).version == v
  }

  /**
   * Every migration in the table comes from a registered directory whose
   * name splits into its version and code; when the scan meets no error,
   * every registered directory is in the table.
   */
  lemma {:induction false} ScanFoldTable(includeDev: bool, listing: seq<Entry>)
    ensures forall v :: v in ScanFold(includeDev, listing).0 ==>
      Listed(includeDev, listing, v) && SplitName(ScanFold(includeDev, listing).0[v].dir) == Name(v, ScanFold(includeDev, listing).0[v].code)
    ensures ScanFold(includeDev, listing).1.None? ==>
      forall v :: Listed(includeDev, listing, v) ==> v in ScanFold(includeDev, listing).0
    decreases |listing|
  {
    if listing != [] {
      var front := listing[..|listing| - 1];
      var e := listing[|listing| - 1];
      assert listing == front + [e];
      ScanFoldTable(includeDev, front);
      var m := ScanFold(includeDev, listing).0;
      forall v | v in m
        ensures Listed(includeDev, listing, v)
      {
        if v in ScanFold(includeDev, front).0 {
          var w :| w in front && Registers(includeDev, w) && SplitName(w.name).version == v;
          assert w in listing;
        } else {
          assert e in listing;
        }
      }
      if ScanFold(includeDev, listing).1.None? {
        forall v | Listed(includeDev, listing, v)
          ensures v in m
        {
          var w :| w in listing && Registers(includeDev, w) && SplitName(w.name).version == v;
          if w != e {
            assert w in front;
          }
        }
      }
    }
  }

  /** Without includeDev the dev version never enters the table. */
  lemma NoDevUnlessIncluded(listing: seq<Entry>)
    ensures DEV !in ScanFold(false, listing).0
  {
    ScanFoldTable(false, listing);
  }

  /** The runner's migration table, built once and then cached. */
  class Runner {
    /** Whether the dev migration is registered. */
    const includeDev: bool
    /** The cached table; None until getMigrations first runs. */
    var migrations: Option<map<string, Migration>>

    constructor (includeDev: bool)
      ensures this.includeDev == includeDev && migrations == None
    {
      this.includeDev := includeDev;
      migrations := None;
    }

    /**
     * getMigrations: the cached table when there is one; otherwise scan the
     * listing in order, skipping files, hidden names and (without
     * includeDev) the dev version, and registering each directory's parts.
     * The table is cached as it grows, so an error leaves the directories
     * registered before it in the cache.
     */
    method GetMigrations(listing: seq<Entry>) returns (r: Result<map<string, Migration>, Error>)
        modifies this
      ensures old(migrations).Some? ==> migrations == old(migrations) && r == Success(old(migrations).value)
      ensures old(migrations).None? ==> migrations == Some(ScanFold(includeDev, listing).0)
      ensures old(migrations).None? ==>
        r == (if ScanFold(includeDev, listing).1.Some? then Failure(ScanFold(includeDev, listing).1.value)
              else Success(ScanFold(includeDev, listing).0))
    {
      if migrations.Some? {
        return Success(migrations.value);
      }
      migrations := Some(map[]);
      var i := 0;
      while i < |listing|
        invariant 0 <= i <= |listing|
        invariant ScanFold(includeDev, listing[..i]).1 == None
        invariant migrations == Some(ScanFold(includeDev, listing[..i]).0)
      {
        var e := listing[i];
        ScanStep(includeDev, listing, i);
        if !e.isDir || (|e.name| > 0 && e.name[0] == '.') {
          i := i + 1;
          continue;
        }
        var n := SplitName(e.name);
        if !includeDev && n.version == DEV {
          i := i + 1;
          continue;
        }
        var parts := GetMigrationParts(n.version, e.files, e.ups, e.downs);
        if parts.Failure? {
          ScanStops(includeDev, listing, i + 1);
          return Failure(parts.error);
        }
        migrations := Some(migrations.value[n.version := Migration(n.code, e.name, parts.value)]);
        i := i + 1;
      }
      assert listing[..|listing|] == listing;
      return Success(migrations.value);
    }
  }

  /** Once the scan has met an error, the rest of the listing changes nothing. */
  lemma {:induction false} ScanStops(includeDev: bool, listing: seq<Entry>, i: nat)
    requires i <= |listing|
    requires ScanFold(includeDev, listing[..i]).1.Some?
    ensures ScanFold(includeDev, listing) == ScanFold(includeDev, listing[..i])
    decreases |listing| - i
  {
    if i < |listing| {
      assert listing[..i + 1][..i] == listing[..i];
      ScanStops(includeDev, listing, i + 1);
    } else {
      assert listing[..i] == listing;
    }
  }
}
