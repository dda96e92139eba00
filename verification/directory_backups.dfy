/** The directory-based backup service: each backup is a directory
    `db-backups/backup_<yyyyMMdd_HHmmss>` holding one dump per database.
    The dump and restore tools themselves are external processes; the model
    keeps the decisions the service takes around them. */
module DirectoryBackups {
  import opened Outcomes
  import opened Text
  import opened Timestamps
  import opened JdbcUrl

  const BackupRoot: string := "db-backups"
  const MaterialsDump: string := "materials_db.sql"
  const UsersDump: string := "users_db.sql"

  datatype BackupError =
    | MissingUrl          // a configured URL is null
    | NoUrlSegments       // the URL splits into no pieces at all
    | DirectoryNotCreated
    | BackupNotFound
    | BackupDamaged

  /** The database name as this service reads it: the last piece of the URL
      split at '/', with Java's trailing empty pieces dropped. */
  function ExtractDatabaseName(url: string): (r: Result<string, BackupError>)
    ensures r.Failure? <==> JavaSplit(url, '/') == []
    ensures r.Failure? ==> r.error == NoUrlSegments
    ensures r.Success? ==> '/' !in r.value && r.value == JavaSplit(url, '/')[|JavaSplit(url, '/')| - 1]
  {
    var parts := JavaSplit(url, '/');
    if |parts| == 0 then Failure(NoUrlSegments) else Success(parts[|parts| - 1])
  }

  /** For a URL that does not end in '/', the name is everything after the
      last '/' -- query parameters included. */
  lemma NameAfterLastSlash(url: string)
    requires |url| > 0 && url[|url| - 1] != '/'
    ensures ExtractDatabaseName(url) == Success(url[LastIndexOf(url, '/') + 1..])
  {
    JavaSplitLast(url, '/');
  }

  /** A trailing '/' is ignored: the name is the one of the URL without it. */
  lemma TrailingSlashIgnored(url: string)
    requires |url| > 0 && url[|url| - 1] != '/'
    ensures ExtractDatabaseName(url + "/") == ExtractDatabaseName(url)
  {
    JavaSplitTrailing(url, '/');
    assert url + "/" == url + ['/'];
  }

  /** A URL made only of '/' has no pieces, and reading its name fails. */
  lemma OnlySlashesFail(url: string)
    requires |url| > 0 && forall k :: 0 <= k < |url| ==> url[k] == '/'
    ensures ExtractDatabaseName(url).Failure?
  {
    assert url[0] == '/';
    EmptyPieces(url);
  }

  lemma {:induction false} EmptyPieces(s: string)
    requires forall k :: 0 <= k < |s| ==> s[k] == '/'
    decreases |s|
    ensures forall k :: 0 <= k < |SplitAll(s, '/')| ==> SplitAll(s, '/')[k] == []
  {
    if |s| > 0 {
      assert s[0] == '/';
      IndexOfAt(s, '/', 0);
      var rest := SplitAll(s[1..], '/');
      assert SplitAll(s, '/') == [s[..0]] + rest;
      EmptyPieces(s[1..]);
    }
  }

  /** The split-based name keeps a query string that the credentials'
      extractor cuts off: the two disagree on every URL whose last segment
      holds a '?'. */
  lemma QueryStringKept(front: string, name: string)
    requires '/' !in name && '?' in name
    ensures ExtractDatabaseName(front + "/" + name) == Success(name)
    ensures ExtractDbName(Some(front + "/" + name)) == name[..IndexOf(name, '?')] != name
  {
    LastSegment(front, name);
    NameAfterLastSlash(front + "/" + name);
    QueryCut(front + "/" + name);
  }

  /** The last segment of `front/name` is `name`. */
  lemma LastSegment(front: string, name: string)
    requires '/' !in name && |name| > 0
    ensures var url := front + "/" + name;
            LastIndexOf(url, '/') == |front| && url[|front| + 1..] == name && url[|url| - 1] != '/'
  {
    var url := front + "/" + name;
    assert url[|front|] == '/';
    assert url[|front| + 1..] == name;
    LastIndexOfAt(url, '/', |front|);
    assert url[|url| - 1] == name[|name| - 1];
  }

  /** The credentials' extractor keeps the last segment up to its first
      '?'. */
  lemma QueryCut(url: string)
    requires '/' in url && url[|url| - 1] != '/'
    ensures var name := url[LastIndexOf(url, '/') + 1..];
            ExtractDbName(Some(url)) == if '?' in name then name[..IndexOf(name, '?')] else name
  {
  }

  /** The two extractors agree on a URL whose last segment is non-empty and
      has no query string. */
  lemma ExtractorsAgree(url: string)
    requires '/' in url && url[|url| - 1] != '/' && '?' !in url[LastIndexOf(url, '/') + 1..]
    ensures ExtractDatabaseName(url) == Success(ExtractDbName(Some(url)))
  {
    NameAfterLastSlash(url);
    QueryCut(url);
  }

  // ---------------------------------------------------------------------
  // Creating a backup
  // ---------------------------------------------------------------------

  /** One run of the external dump or restore tool. */
  datatype Job = Job(database: string, username: string, password: string, file: string)

  function BackupName(now: DateTime): string
    requires Writable(now)
  {
    "backup_" + Format(now)
  }

  function BackupPath(name: string): string
  {
    BackupRoot + "/" + name
  }

  /** The names of both databases, the materials one first. */
  function DatabaseNames(c: CredentialsConfig): (r: Result<(string, string), BackupError>)
    ensures r.Failure? <==> c.materialsDbUrl.None? || c.usersDbUrl.None?
                            || ExtractDatabaseName(c.materialsDbUrl.value).Failure?
                            || ExtractDatabaseName(c.usersDbUrl.value).Failure?
    ensures r.Success? ==> (r.value.0 == ExtractDatabaseName(c.materialsDbUrl.value).value
                            && r.value.1 == ExtractDatabaseName(c.usersDbUrl.value).value)
  {
    if c.materialsDbUrl.None? then Failure(MissingUrl)
    else
      var materials :- ExtractDatabaseName(c.materialsDbUrl.value);
      if c.usersDbUrl.None? then Failure(MissingUrl)
      else
        var users :- ExtractDatabaseName(c.usersDbUrl.value);
        Success((materials, users))
  }

  /** The dumps of one backup directory: materials first, then users. */
  function Jobs(c: CredentialsConfig, path: string, names: (string, string)): seq<Job>
  {
    [Job(names.0, c.materialsDbUsername, c.materialsDbPassword, path + "/" + MaterialsDump),
     Job(names.1, c.usersDbUsername, c.usersDbPassword, path + "/" + UsersDump)]
  }

  /** `createBackup` at time `now`: the backup's name and the dumps to run
      into its directory. `directoryCreated` is whether creating the
      directory succeeded. */
  function CreateBackup(now: DateTime, c: CredentialsConfig, directoryCreated: bool)
    : (r: Result<(string, seq<Job>), BackupError>)
    requires Writable(now)
    ensures !directoryCreated ==> r == Failure(DirectoryNotCreated)
    ensures directoryCreated ==> (r.Failure? <==> DatabaseNames(c).Failure?)
    ensures r.Success? ==> var (name, jobs) := r.value;
              |name| == 22 && name[..7] == "backup_" && Parse(name[7..]) == Some(now)
              && |jobs| == 2
              && jobs[0].file == BackupRoot + "/" + name + "/" + MaterialsDump
              && jobs[1].file == BackupRoot + "/" + name + "/" + UsersDump
              && jobs[0].username == c.materialsDbUsername && jobs[1].username == c.usersDbUsername
  {
    if !directoryCreated then Failure(DirectoryNotCreated)
    else
      var names :- DatabaseNames(c);
      var name := BackupName(now);
      assert name[7..] == Format(now);
      ParseFormat(now);
      Success((name, Jobs(c, BackupPath(name), names)))
  }

  // ---------------------------------------------------------------------
  // Listing and restoring
  // ---------------------------------------------------------------------

  /** A sub-directory of the backup root and the file names in it. */
  datatype Folder = Folder(name: string, files: set<string>)

  predicate Complete(f: Folder)
  {
    MaterialsDump in f.files && UsersDump in f.files
  }

  /** `getAvailableBackups`: the names of the sub-directories holding both
      dumps, in listing order. A missing root lists nothing. */
  function AvailableBackups(listing: Option<seq<Folder>>): (r: seq<string>)
    ensures listing.None? ==> r == []
    ensures listing.Some? ==> |r| <= |listing.value|
    ensures listing.Some? ==>
              forall name :: name in r <==> exists k :: 0 <= k < |listing.value|
                                                   && listing.value[k].name == name
                                                   && Complete(listing.value[k])
  {
    if listing.None? then [] else CompleteNames(listing.value)
  }

  function CompleteNames(folders: seq<Folder>): (r: seq<string>)
    ensures |r| <= |folders|
    ensures forall name :: name in r <==> exists k :: 0 <= k < |folders|
                                                && folders[k].name == name && Complete(folders[k])
  {
    if |folders| == 0 then []
    else
      var rest := CompleteNames(folders[1..]);
      assert forall k :: 1 <= k < |folders| ==> folders[1..][k - 1] == folders[k];
      if Complete(folders[0]) then [folders[0].name] + rest else rest
  }

  /** The folder of that name, if the root holds one. */
  function Lookup(folders: seq<Folder>, name: string): (r: Option<Folder>)
    ensures r.Some? ==> r.value in folders && r.value.name == name
    ensures r.None? <==> forall k :: 0 <= k < |folders| ==> folders[k].name != name
  {
    if |folders| == 0 then None
    else if folders[0].name == name then Some(folders[0])
    else Lookup(folders[1..], name)
  }

  /** `restoreFromBackup(name)`: a missing directory or a missing dump is
      rejected before anything is restored; otherwise the materials database
      is restored, then the users database. */
  function RestoreFromBackup(name: string, folders: seq<Folder>, c: CredentialsConfig)
    : (r: Result<seq<Job>, BackupError>)
    ensures Lookup(folders, name).None? ==> r == Failure(BackupNotFound)
    ensures Lookup(folders, name).Some? && !Complete(Lookup(folders, name).value)
            ==> r == Failure(BackupDamaged)
    ensures r.Success? ==> (Lookup(folders, name).Some? && Complete(Lookup(folders, name).value)
                            && |r.value| == 2
                            && r.value[0].file == BackupPath(name) + "/" + MaterialsDump
                            && r.value[1].file == BackupPath(name) + "/" + UsersDump)
  {
    var folder := Lookup(folders, name);
    if folder.None? then Failure(BackupNotFound)
    else if !Complete(folder.value) then Failure(BackupDamaged)
    else
      var names :- DatabaseNames(c);
      Success(Jobs(c, BackupPath(name), names))
  }

  /** Every listed backup passes the restore checks: restoring it can only
      fail on the configuration, never as missing or damaged. */
  lemma ListedBackupsRestore(folders: seq<Folder>, name: string, c: CredentialsConfig)
    requires forall i, j :: 0 <= i < j < |folders| ==> folders[i].name != folders[j].name
    requires name in AvailableBackups(Some(folders))
    ensures RestoreFromBackup(name, folders, c).Success? <==> DatabaseNames(c).Success?
  {
    var k :| 0 <= k < |folders| && folders[k].name == name && Complete(folders[k]);
    LookupFindsUnique(folders, name, k);
  }

  lemma {:induction false} LookupFindsUnique(folders: seq<Folder>, name: string, k: nat)
    requires forall i, j :: 0 <= i < j < |folders| ==> folders[i].name != folders[j].name
    requires k < |folders| && folders[k].name == name
    ensures Lookup(folders, name) == Some(folders[k])
  {
    if k > 0 {
      assert folders[0].name != name;
      LookupFindsUnique(folders[1..], name, k - 1);
    }
  }
}
