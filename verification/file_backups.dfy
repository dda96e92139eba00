/** The file-based backup services of the administration panel: every backup
    is one plain-text dump `<database>_<yyyyMMdd_HHmmss>.sql` in the backup
    directory. Two variants share the listing, naming and lookup logic and
    differ in how they name the databases: the container variant uses the
    fixed names `materials_db` and `users_db`, the credentials variant the
    names read out of the configured JDBC URLs. The dump and restore tools
    are external processes; the model keeps the decisions taken around them. */
module FileBackups {
  import opened Outcomes
  import opened Text
  import opened Timestamps
  import opened JdbcUrl

  const MaterialsDb: string := "materials_db"
  const UsersDb: string := "users_db"
  const UnknownDb: string := "unknown"
  const MaterialsContainer: string := "postgres-materials"
  const UsersContainer: string := "postgres-users"
  const DumpSuffix: string := ".sql"

  datatype FileBackupError =
    | ToolUnavailable         // `docker`, `pg_dump` or `psql` cannot be started
    | DirectoryNotCreated
    | DirectoryNotWritable
    | DumpFailed(database: string)
    | UnknownId               // no listed backup has the id
    | FileMissing
    | UnknownDatabase(database: string)

  /** A directory entry: its name, whether it is a regular file, its length. */
  datatype FileEntry = FileEntry(name: string, isFile: bool, length: int)

  /** The description of one backup file. The id is the name-based UUID of the
      file name, given here by the function `idOf`. */
  datatype Backup = Backup(id: nat, filename: string, size: int, createdAt: DateTime, database: string)

  // ---------------------------------------------------------------------
  // File names
  // ---------------------------------------------------------------------

  /** The file a dump of `db` taken at `at` is written to. */
  function BackupFilename(db: string, at: DateTime): (r: string)
    requires Writable(at)
    ensures |r| == |db| + 20 && r[..|db|] == db && EndsWith(r, DumpSuffix)
  {
    db + "_" + Format(at) + DumpSuffix
  }

  /** The characters Java's `.` does not match and before which `$` may
      match at the end of the input. */
  predicate IsLineTerminator(c: char)
  {
    c == '\n' || c == '\r' || c == '\U{85}' || c == '\U{2028}' || c == '\U{2029}'
  }

  predicate NoLineTerminator(s: string)
  {
    forall k :: 0 <= k < |s| ==> !IsLineTerminator(s[k])
  }

  /** `t` matches `^.*_(\d{8}_\d{6})\.sql` up to its very end. */
  predicate StampMatch(t: string)
  {
    |t| >= 20 && t[|t| - 20] == '_' && StampShape(t[|t| - 19..|t| - 4])
    && t[|t| - 4..] == DumpSuffix && NoLineTerminator(t[..|t| - 20])
  }

  /** `filename.replaceAll("^.*_(\\d{8}_\\d{6})\\.sql$", "$1")`: the stamp of
      a matching name. `$` also matches before one final line terminator,
      which then stays behind the stamp; any other name is left unchanged. */
  function DateText(filename: string): (r: string)
    ensures StampShape(r) <==> StampMatch(filename) || StampShape(filename)
    ensures StampMatch(filename) ==> r == filename[|filename| - 19..|filename| - 4]
  {
    var n := |filename|;
    if StampMatch(filename) then filename[n - 19..n - 4]
    else if n >= 2 && filename[n - 2..] == "\r\n" && StampMatch(filename[..n - 2]) then
      var r := filename[n - 21..n - 6] + "\r\n";
      assert |r| == 17 && n >= 22;
      r
    else if n >= 1 && IsLineTerminator(filename[n - 1]) && StampMatch(filename[..n - 1]) then
      var r := filename[n - 20..n - 5] + [filename[n - 1]];
      assert |r| == 16 && n >= 21;
      r
    else filename
  }

  /** `extractCreationDate`: the stamp in the name, read as `LocalDateTime`,
      or the current time `now` where that fails. */
  function CreationDate(filename: string, now: DateTime): (r: DateTime)
    ensures r == now || Valid(r)
  {
    match Parse(DateText(filename))
    case Some(t) => t
    case None => now
  }

  /** The date written into a backup's name is the date read out of it. */
  lemma CreationDateOfBackupName(db: string, at: DateTime, now: DateTime)
    requires Writable(at) && NoLineTerminator(db)
    ensures CreationDate(BackupFilename(db, at), now) == at
  {
    var f := BackupFilename(db, at);
    var n := |f|;
    assert f[n - 20] == '_';
    assert f[n - 19..n - 4] == Format(at);
    assert f[..n - 20] == db;
    ParseFormat(at);
  }

  /** A name without a stamp before `.sql` (and not itself a bare stamp)
      is dated `now`. */
  lemma CreationDateFallsBack(filename: string, now: DateTime)
    requires !StampMatch(filename) && !StampShape(filename)
    ensures CreationDate(filename, now) == now
  {
  }

  // ---------------------------------------------------------------------
  // Database names
  // ---------------------------------------------------------------------

  /** How a service names its two databases. */
  datatype Naming = Fixed | Configured(config: CredentialsConfig)

  function MaterialsName(n: Naming): string
  {
    match n
    case Fixed => MaterialsDb
    case Configured(c) => MaterialsEndpoint(c).name
  }

  function UsersName(n: Naming): string
  {
    match n
    case Fixed => UsersDb
    case Configured(c) => UsersEndpoint(c).name
  }

  /** `extractDatabaseName`: the materials name if the file name contains it,
      else the users name if it contains that, else "unknown". */
  function DatabaseOf(n: Naming, filename: string): (r: string)
    ensures r == MaterialsName(n) || r == UsersName(n) || r == UnknownDb
    ensures Contains(filename, MaterialsName(n)) ==> r == MaterialsName(n)
    ensures !Contains(filename, MaterialsName(n)) && Contains(filename, UsersName(n)) ==> r == UsersName(n)
    ensures !Contains(filename, MaterialsName(n)) && !Contains(filename, UsersName(n)) ==> r == UnknownDb
    ensures r != UnknownDb || Contains(filename, UnknownDb) ==> Contains(filename, r)
  {
    if Contains(filename, MaterialsName(n)) then MaterialsName(n)
    else if Contains(filename, UsersName(n)) then UsersName(n)
    else UnknownDb
  }

  /** A dump of the materials database is attributed to it. */
  lemma MaterialsBackupNamed(n: Naming, at: DateTime)
    requires Writable(at)
    ensures DatabaseOf(n, BackupFilename(MaterialsName(n), at)) == MaterialsName(n)
  {
    FilenameHoldsDatabase(MaterialsName(n), at);
  }

  /** A dump of the users database is attributed to it, unless its file name
      happens to contain the materials database's name. */
  lemma UsersBackupNamed(n: Naming, at: DateTime)
    requires Writable(at)
    requires !Contains(BackupFilename(UsersName(n), at), MaterialsName(n))
    ensures DatabaseOf(n, BackupFilename(UsersName(n), at)) == UsersName(n)
  {
    FilenameHoldsDatabase(UsersName(n), at);
  }

  /** A dump's name starts with its database's name. */
  lemma FilenameHoldsDatabase(db: string, at: DateTime)
    requires Writable(at)
    ensures Contains(BackupFilename(db, at), db)
  {
    var rest := "_" + Format(at) + DumpSuffix;
    assert BackupFilename(db, at) == db + rest;
    ContainsPrefix(db, rest);
  }

  /** With the fixed names the exception never applies: a users dump's name
      holds no 'm', so it cannot contain "materials_db". */
  lemma FixedNamesSeparate(at: DateTime)
    requires Writable(at)
    ensures DatabaseOf(Fixed, BackupFilename(MaterialsDb, at)) == MaterialsDb
    ensures DatabaseOf(Fixed, BackupFilename(UsersDb, at)) == UsersDb
  {
    MaterialsBackupNamed(Fixed, at);
    var f := BackupFilename(UsersDb, at);
    var stamp := Format(at);
    forall k | 0 <= k < |f|
      ensures f[k] != 'm'
    {
      if 8 < k < 24 {
        assert f[k] == stamp[k - 9];
        if k - 9 < 8 {
          assert stamp[k - 9] == stamp[..8][k - 9];
        } else if k - 9 > 8 {
          assert stamp[k - 9] == stamp[9..][k - 18];
        }
      }
    }
    NotContainsWithoutFirstChar(f, MaterialsDb);
    UsersBackupNamed(Fixed, at);
  }

  /** When the configured users name contains the materials name, every
      users dump is attributed to the materials database. */
  lemma MaterialsNameInsideUsersName(n: Naming, at: DateTime)
    requires Writable(at)
    requires Contains(UsersName(n), MaterialsName(n))
    ensures DatabaseOf(n, BackupFilename(UsersName(n), at)) == MaterialsName(n)
  {
    FilenameKeepsName(UsersName(n), MaterialsName(n), at);
  }

  lemma FilenameKeepsName(db: string, sub: string, at: DateTime)
    requires Writable(at) && Contains(db, sub)
    ensures Contains(BackupFilename(db, at), sub)
  {
    assert BackupFilename(db, at) == db + ("_" + Format(at) + DumpSuffix);
    ContainsAppendRight(db, "_" + Format(at) + DumpSuffix, sub);
  }

  // ---------------------------------------------------------------------
  // Listing
  // ---------------------------------------------------------------------

  /** `mapToBackup`. */
  function Describe(f: FileEntry, n: Naming, idOf: string -> nat, now: DateTime): Backup
  {
    Backup(idOf(f.name), f.name, f.length, CreationDate(f.name, now), DatabaseOf(n, f.name))
  }

  /** The entries the listing keeps: regular files whose name ends in ".sql". */
  predicate Listed(f: FileEntry)
  {
    f.isFile && EndsWith(f.name, DumpSuffix)
  }

  /** The images under `f` of the elements `keep` accepts, each with its
      position, in order. */
  function KeepMap<A, B(==,!new)>(xs: seq<A>, keep: A -> bool, f: (nat, A) -> B): (r: seq<B>)
    ensures |r| <= |xs|
    ensures forall y :: y in r <==> exists k :: 0 <= k < |xs| && keep(xs[k]) && y == f(k, xs[k])
  {
    if |xs| == 0 then []
    else
      var last := |xs| - 1;
      var front := KeepMap(xs[..last], keep, f);
      assert forall k :: 0 <= k < last ==> xs[..last][k] == xs[k];
      if keep(xs[last]) then front + [f(last, xs[last])] else front
  }

  /** Of two accepted elements, both images, in order. */
  lemma KeepMapTwo<A, B(!new)>(x: A, y: A, keep: A -> bool, f: (nat, A) -> B)
    requires keep(x) && keep(y)
    ensures KeepMap([x, y], keep, f) == [f(0, x), f(1, y)]
  {
    assert [x, y][..1] == [x];
    assert [x][..0] == [];
  }

  /** The kept entries, described, in directory order. `clock(k)` is what
      `LocalDateTime.now()` reads while the entry at position `k` is mapped:
      the stream maps entry after entry, so each undated file gets a reading
      of its own. */
  function DescribeAll(files: seq<FileEntry>, n: Naming, idOf: string -> nat, clock: nat -> DateTime)
    : (r: seq<Backup>)
    ensures |r| <= |files|
    ensures forall b :: b in r <==> exists k :: 0 <= k < |files| && Listed(files[k])
                                           && b == Describe(files[k], n, idOf, clock(k))
  {
    KeepMap(files, Listed, (k, f) => Describe(f, n, idOf, clock(k)))
  }

  /** Newest first, by creation date. */
  predicate NewestFirst(s: seq<Backup>)
  {
    forall i, j :: 0 <= i < j < |s| ==> Key(s[j].createdAt) <= Key(s[i].createdAt)
  }

  /** Puts `b` before the first backup not newer than it. */
  function Insert(b: Backup, s: seq<Backup>): (r: seq<Backup>)
    requires NewestFirst(s)
    ensures NewestFirst(r)
    ensures multiset(r) == multiset(s) + multiset{b}
    ensures |r| == |s| + 1 && (r[0] == b || (|s| > 0 && r[0] == s[0]))
  {
    if |s| == 0 || Key(s[0].createdAt) <= Key(b.createdAt) then
      NewestFirstCons(b, s);
      [b] + s
    else
      var rest := Insert(b, s[1..]);
      InsertBehind(b, s, rest);
      [s[0]] + rest
  }

  /** A backup not older than the first of a newest-first list may go in
      front of it. */
  lemma NewestFirstCons(b: Backup, s: seq<Backup>)
    requires NewestFirst(s) && (|s| == 0 || Key(s[0].createdAt) <= Key(b.createdAt))
    ensures NewestFirst([b] + s)
  {
    var r := [b] + s;
    forall i, j | 0 <= i < j < |r| ensures Key(r[j].createdAt) <= Key(r[i].createdAt) {
      if i == 0 {
        assert r[j] == s[j - 1];
      } else {
        assert r[i] == s[i - 1] && r[j] == s[j - 1];
      }
    }
  }

  /** The inductive step of `Insert`: the first backup stays in front of the
      rest with `b` inserted. */
  lemma InsertBehind(b: Backup, s: seq<Backup>, rest: seq<Backup>)
    requires NewestFirst(s) && |s| > 0 && Key(b.createdAt) < Key(s[0].createdAt)
    requires NewestFirst(rest) && multiset(rest) == multiset(s[1..]) + multiset{b}
    requires |rest| == |s| && (rest[0] == b || (|s| > 1 && rest[0] == s[1]))
    ensures NewestFirst([s[0]] + rest)
    ensures multiset([s[0]] + rest) == multiset(s) + multiset{b}
  {
    assert s == [s[0]] + s[1..];
    assert Key(rest[0].createdAt) <= Key(s[0].createdAt);
    NewestFirstCons(s[0], rest);
  }

  /** The stable sort of `sorted(comparing(createdAt).reversed())`: newest
      first, backups of the same date in their original order. */
  function SortNewestFirst(s: seq<Backup>): (r: seq<Backup>)
    ensures NewestFirst(r)
    ensures multiset(r) == multiset(s)
  {
    if |s| == 0 then []
    else
      assert s == [s[0]] + s[1..];
      Insert(s[0], SortNewestFirst(s[1..]))
  }

  /** Sorting a list that is already newest first leaves it unchanged. */
  lemma {:induction false} SortKeepsOrderedList(s: seq<Backup>)
    requires NewestFirst(s)
    ensures SortNewestFirst(s) == s
  {
    if |s| > 0 {
      assert NewestFirst(s[1..]) by {
        assert forall i, j :: 0 <= i < j < |s[1..]| ==> s[1..][i] == s[i + 1] && s[1..][j] == s[j + 1];
      }
      SortKeepsOrderedList(s[1..]);
      assert s == [s[0]] + s[1..];
    }
  }

  /** `getAllBackups`: a directory that is missing or cannot be listed
      yields no backups. */
  function AllBackups(listing: Option<seq<FileEntry>>, n: Naming, idOf: string -> nat, clock: nat -> DateTime)
    : (r: seq<Backup>)
    ensures listing.None? ==> r == []
    ensures NewestFirst(r)
    ensures listing.Some? ==> multiset(r) == multiset(DescribeAll(listing.value, n, idOf, clock))
    ensures listing.Some? ==>
              forall b :: b in r <==> exists k :: 0 <= k < |listing.value| && Listed(listing.value[k])
                                                  && b == Describe(listing.value[k], n, idOf, clock(k))
  {
    if listing.None? then []
    else
      var described := DescribeAll(listing.value, n, idOf, clock);
      var r := SortNewestFirst(described);
      assert forall b :: b in r <==> b in multiset(r);
      assert forall b :: b in described <==> b in multiset(described);
      r
  }

  /** Two undated files are dated by the clock as each is mapped; when the
      clock has moved on between them, the one read later is listed first. */
  lemma LaterReadingListedFirst(a: FileEntry, b: FileEntry, n: Naming, idOf: string -> nat, clock: nat -> DateTime)
    requires Listed(a) && !StampMatch(a.name) && !StampShape(a.name)
    requires Listed(b) && !StampMatch(b.name) && !StampShape(b.name)
    requires Key(clock(0)) < Key(clock(1))
    ensures AllBackups(Some([a, b]), n, idOf, clock)
            == [Describe(b, n, idOf, clock(1)), Describe(a, n, idOf, clock(0))]
    ensures AllBackups(Some([a, b]), n, idOf, clock)[0].createdAt == clock(1)
    ensures AllBackups(Some([a, b]), n, idOf, clock)[1].createdAt == clock(0)
  {
    CreationDateFallsBack(a.name, clock(0));
    CreationDateFallsBack(b.name, clock(1));
    KeepMapTwo(a, b, Listed, (k, f) => Describe(f, n, idOf, clock(k)));
    SortTwo(Describe(a, n, idOf, clock(0)), Describe(b, n, idOf, clock(1)));
  }

  /** Of two backups, the strictly newer one is sorted first. */
  lemma SortTwo(x: Backup, y: Backup)
    requires Key(x.createdAt) < Key(y.createdAt)
    ensures SortNewestFirst([x, y]) == [y, x]
  {
    assert [x, y][1..] == [y];
    assert [y][1..] == [];
  }


  /** The first backup with that id. */
  function FindById(s: seq<Backup>, id: nat): (r: Option<Backup>)
    ensures r.None? <==> forall k :: 0 <= k < |s| ==> s[k].id != id
    ensures r.Some? ==> exists k :: 0 <= k < |s| && s[k] == r.value && r.value.id == id
                                    && forall j :: 0 <= j < k ==> s[j].id != id
  {
    if |s| == 0 then None
    else if s[0].id == id then Some(s[0])
    else
      var r := FindById(s[1..], id);
      assert forall k :: 1 <= k < |s| ==> s[1..][k - 1] == s[k];
      r
  }

  /** `getBackupById` over the current listing. */
  function BackupById(backups: seq<Backup>, id: nat): (r: Result<Backup, FileBackupError>)
    ensures r.Failure? <==> forall k :: 0 <= k < |backups| ==> backups[k].id != id
    ensures r.Failure? ==> r.error == UnknownId
    ensures r.Success? ==> r.value in backups && r.value.id == id
  {
    match FindById(backups, id)
    case None => Failure(UnknownId)
    case Some(b) => Success(b)
  }

  /** When no two listed files share an id, looking up a listed file's id
      finds that file's description. */
  lemma ListedFileFoundById(files: seq<FileEntry>, n: Naming, idOf: string -> nat, clock: nat -> DateTime, k: nat)
    requires forall i, j :: (0 <= i < |files| && 0 <= j < |files| && Listed(files[i]) && Listed(files[j])
                             && idOf(files[i].name) == idOf(files[j].name)) ==> i == j
    requires k < |files| && Listed(files[k])
    ensures BackupById(AllBackups(Some(files), n, idOf, clock), idOf(files[k].name))
            == Success(Describe(files[k], n, idOf, clock(k)))
  {
    var all := AllBackups(Some(files), n, idOf, clock);
    var mine := Describe(files[k], n, idOf, clock(k));
    assert mine in all;
    var r := BackupById(all, idOf(files[k].name));
    var j :| 0 <= j < |files| && Listed(files[j]) && r.value == Describe(files[j], n, idOf, clock(j));
    assert j == k;
  }

  /** `getBackupFile`: the path of the backup's file, if it exists or is
      readable. */
  function BackupFile(backups: seq<Backup>, id: nat, present: string -> bool, readable: string -> bool)
    : (r: Result<string, FileBackupError>)
    ensures r.Success? <==> (BackupById(backups, id).Success?
                             && (present(BackupById(backups, id).value.filename)
                                 || readable(BackupById(backups, id).value.filename)))
    ensures r.Success? ==> r.value == BackupById(backups, id).value.filename
  {
    var b :- BackupById(backups, id);
    if present(b.filename) || readable(b.filename) then Success(b.filename) else Failure(FileMissing)
  }

  // ---------------------------------------------------------------------
  // Creating backups
  // ---------------------------------------------------------------------

  /** What running the dump tool left behind: a non-zero exit, or a file of
      some length (zero when missing or empty). */
  datatype DumpOutcome = ExitedWithError | Wrote(length: nat)

  /** `createBackupForDatabase`: the description of the new dump file. */
  function CreateOne(n: Naming, db: string, at: DateTime, outcome: DumpOutcome,
                     idOf: string -> nat, now: DateTime): (r: Result<Backup, FileBackupError>)
    requires Writable(at)
    ensures r.Failure? <==> outcome.ExitedWithError? || outcome.length == 0
    ensures r.Failure? ==> r.error == DumpFailed(db)
    ensures r.Success? ==> (r.value.filename == BackupFilename(db, at) && r.value.size > 0
                            && r.value.id == idOf(BackupFilename(db, at)))
  {
    if outcome.ExitedWithError? || outcome.length == 0 then Failure(DumpFailed(db))
    else Success(Describe(FileEntry(BackupFilename(db, at), true, outcome.length), n, idOf, now))
  }

  /** `createBackup`: the tool and the directory are checked first, then the
      materials database is dumped, then the users database; the first
      failure ends the run. `materialsAt` and `usersAt` are the clock
      readings each dump is named by. */
  function CreateBackups(toolAvailable: bool, directoryReady: bool, directoryWritable: bool, n: Naming,
                         materialsAt: DateTime, materials: DumpOutcome,
                         usersAt: DateTime, users: DumpOutcome,
                         idOf: string -> nat, now: DateTime): (r: Result<seq<Backup>, FileBackupError>)
    requires Writable(materialsAt) && Writable(usersAt)
    ensures !toolAvailable ==> r == Failure(ToolUnavailable)
    ensures toolAvailable && !directoryReady ==> r == Failure(DirectoryNotCreated)
    ensures toolAvailable && directoryReady && !directoryWritable ==> r == Failure(DirectoryNotWritable)
    ensures r.Success? <==> toolAvailable && directoryReady && directoryWritable
                            && materials.Wrote? && materials.length > 0 && users.Wrote? && users.length > 0
    ensures r.Success? ==> (|r.value| == 2
                            && r.value[0].filename == BackupFilename(MaterialsName(n), materialsAt)
                            && r.value[1].filename == BackupFilename(UsersName(n), usersAt))
  {
    if !toolAvailable then Failure(ToolUnavailable)
    else if !directoryReady then Failure(DirectoryNotCreated)
    else if !directoryWritable then Failure(DirectoryNotWritable)
    else
      var first :- CreateOne(n, MaterialsName(n), materialsAt, materials, idOf, now);
      var second :- CreateOne(n, UsersName(n), usersAt, users, idOf, now);
      Success([first, second])
  }

  /** The new backups describe themselves: each is dated by the clock reading
      in its name and attributed to the database it was dumped from (the
      users one under the proviso of `UsersBackupNamed`). */
  lemma CreatedBackupsDescribeThemselves(toolAvailable: bool, directoryReady: bool, directoryWritable: bool,
                                         n: Naming, materialsAt: DateTime, materials: DumpOutcome,
                                         usersAt: DateTime, users: DumpOutcome,
                                         idOf: string -> nat, now: DateTime)
    requires Writable(materialsAt) && Writable(usersAt)
    requires NoLineTerminator(MaterialsName(n)) && NoLineTerminator(UsersName(n))
    requires !Contains(BackupFilename(UsersName(n), usersAt), MaterialsName(n))
    requires CreateBackups(toolAvailable, directoryReady, directoryWritable, n, materialsAt, materials,
                           usersAt, users, idOf, now).Success?
    ensures var r := CreateBackups(toolAvailable, directoryReady, directoryWritable, n, materialsAt, materials,
                                   usersAt, users, idOf, now).value;
            r[0].createdAt == materialsAt && r[0].database == MaterialsName(n)
            && r[1].createdAt == usersAt && r[1].database == UsersName(n)
  {
    CreationDateOfBackupName(MaterialsName(n), materialsAt, now);
    CreationDateOfBackupName(UsersName(n), usersAt, now);
    MaterialsBackupNamed(n, materialsAt);
    UsersBackupNamed(n, usersAt);
    CreatedDescribes(n, MaterialsName(n), materialsAt, materials, idOf, now);
    CreatedDescribes(n, UsersName(n), usersAt, users, idOf, now);
  }

  /** One new dump is described by the date and database its name gives. */
  lemma CreatedDescribes(n: Naming, db: string, at: DateTime, outcome: DumpOutcome, idOf: string -> nat, now: DateTime)
    requires Writable(at) && CreateOne(n, db, at, outcome, idOf, now).Success?
    ensures var b := CreateOne(n, db, at, outcome, idOf, now).value;
            b.createdAt == CreationDate(BackupFilename(db, at), now)
            && b.database == DatabaseOf(n, BackupFilename(db, at))
  {
  }

  // ---------------------------------------------------------------------
  // Restoring
  // ---------------------------------------------------------------------

  /** The container holding a database of the fixed naming. */
  function ContainerFor(database: string): (r: Result<string, FileBackupError>)
    ensures r.Success? <==> database == MaterialsDb || database == UsersDb
    ensures r.Failure? ==> r.error == UnknownDatabase(database)
  {
    if database == MaterialsDb then Success(MaterialsContainer)
    else if database == UsersDb then Success(UsersContainer)
    else Failure(UnknownDatabase(database))
  }

  /** One restore run: into which container or server, which database, from
      which file. */
  datatype ContainerRestore = ContainerRestore(container: string, database: string, file: string)
  datatype ServerRestore = ServerRestore(server: Endpoint, database: string, file: string)

  /** `restoreBackup` of the container variant. */
  function RestoreInContainer(dockerAvailable: bool, backups: seq<Backup>, id: nat, fileExists: string -> bool)
    : (r: Result<ContainerRestore, FileBackupError>)
    ensures !dockerAvailable ==> r == Failure(ToolUnavailable)
    ensures dockerAvailable ==> (r == Failure(UnknownId) <==> BackupById(backups, id).Failure?)
    ensures r.Success? ==> var b := BackupById(backups, id).value;
                          fileExists(b.filename) && r.value.file == b.filename && r.value.database == b.database
                          && (r.value.container == MaterialsContainer <==> b.database == MaterialsDb)
                          && (r.value.container == UsersContainer <==> b.database == UsersDb)
  {
    if !dockerAvailable then Failure(ToolUnavailable)
    else
      var b :- BackupById(backups, id);
      if !fileExists(b.filename) then Failure(FileMissing)
      else
        var container :- ContainerFor(b.database);
        Success(ContainerRestore(container, b.database, b.filename))
  }

  /** The server a database of the configured naming lives on. */
  function ServerFor(c: CredentialsConfig, database: string): (r: Result<Endpoint, FileBackupError>)
    ensures r.Success? <==> database == MaterialsEndpoint(c).name || database == UsersEndpoint(c).name
    ensures database == MaterialsEndpoint(c).name ==> r == Success(MaterialsEndpoint(c))
    ensures database != MaterialsEndpoint(c).name && database == UsersEndpoint(c).name
            ==> r == Success(UsersEndpoint(c))
    ensures r.Failure? ==> r.error == UnknownDatabase(database)
  {
    if database == MaterialsEndpoint(c).name then Success(MaterialsEndpoint(c))
    else if database == UsersEndpoint(c).name then Success(UsersEndpoint(c))
    else Failure(UnknownDatabase(database))
  }

  /** `restoreBackup` of the credentials variant. */
  function RestoreOnServer(psqlAvailable: bool, backups: seq<Backup>, id: nat, fileExists: string -> bool,
                           c: CredentialsConfig): (r: Result<ServerRestore, FileBackupError>)
    ensures !psqlAvailable ==> r == Failure(ToolUnavailable)
    ensures psqlAvailable ==> (r == Failure(UnknownId) <==> BackupById(backups, id).Failure?)
    ensures r.Success? ==> var b := BackupById(backups, id).value;
                          fileExists(b.filename) && r.value.file == b.filename && r.value.database == b.database
                          && ServerFor(c, b.database) == Success(r.value.server)
  {
    if !psqlAvailable then Failure(ToolUnavailable)
    else
      var b :- BackupById(backups, id);
      if !fileExists(b.filename) then Failure(FileMissing)
      else
        var server :- ServerFor(c, b.database);
        Success(ServerRestore(server, b.database, b.filename))
  }

  /** A dump of the container variant goes back into the container of the
      database it was taken from. */
  lemma DumpsReturnToTheirContainers(at: DateTime)
    requires Writable(at)
    ensures ContainerFor(DatabaseOf(Fixed, BackupFilename(MaterialsDb, at))) == Success(MaterialsContainer)
    ensures ContainerFor(DatabaseOf(Fixed, BackupFilename(UsersDb, at))) == Success(UsersContainer)
  {
    FixedNamesSeparate(at);
  }

  /** A dump of the credentials variant goes back to the server it was taken
      from -- the users dump only when its name does not contain the
      materials name; when the users name contains the materials name, the
      users dump is restored onto the materials server. */
  lemma DumpsReturnToTheirServers(c: CredentialsConfig, at: DateTime)
    requires Writable(at)
    ensures ServerFor(c, DatabaseOf(Configured(c), BackupFilename(MaterialsEndpoint(c).name, at)))
            == Success(MaterialsEndpoint(c))
    ensures !Contains(BackupFilename(UsersEndpoint(c).name, at), MaterialsEndpoint(c).name)
            ==> ServerFor(c, DatabaseOf(Configured(c), BackupFilename(UsersEndpoint(c).name, at)))
                == Success(UsersEndpoint(c))
    ensures Contains(UsersEndpoint(c).name, MaterialsEndpoint(c).name)
            ==> ServerFor(c, DatabaseOf(Configured(c), BackupFilename(UsersEndpoint(c).name, at)))
                == Success(MaterialsEndpoint(c))
  {
    MaterialsBackupNamed(Configured(c), at);
    if !Contains(BackupFilename(UsersEndpoint(c).name, at), MaterialsEndpoint(c).name) {
      UsersBackupNamed(Configured(c), at);
    }
    if Contains(UsersEndpoint(c).name, MaterialsEndpoint(c).name) {
      MaterialsNameInsideUsersName(Configured(c), at);
    }
  }
}
