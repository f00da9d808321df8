/** The per-database dispatch of `perform_backup` and the two strategies
    `backup_sqlite` and `backup_mysql`, with every effect on the outside world
    supplied by a `Host` of oracles. */
module Backup {
  import opened Text
  import opened Paths
  import opened Clock

  /** One `(db_path, success, result)` triple: on success `message` is the
      artifact path, on failure the error text. */
  datatype BackupResult = BackupResult(path: string, success: bool, message: string)

  /** One strategy's I/O request: the database's turn in the run, the file
      it reads and the artifact it writes. */
  datatype Attempt = Attempt(turn: nat, dbPath: string, backupPath: string)

  /** What the outside world answers during one run.
      `fileExists` is `os.path.exists`; `dumpFault` and `copyFault` say whether the
      SQLite connect-and-dump or the `shutil.copy2` of an attempt raises, and
      with which `str(e)`, so an error text may name the artifact path and a
      fault may hit one turn and spare another; `clock(i)` is the
      `datetime.now()` read while backing up the `i`-th configured database. */
  datatype Host = Host(
    fileExists: string -> bool,
    dumpFault: Attempt -> Option<string>,
    copyFault: Attempt -> Option<string>,
    clock: nat -> Moment)

  /** The strategy a path's suffix selects. */
  datatype Strategy = Dump | Copy | Unsupported

  const SqliteSuffix: string := ".sqlite3"
  const SqlSuffix: string := ".sql"

  /** No path ends in both suffixes: the last four characters would have to be
      both `.sql` and `ite3`. */
  lemma SuffixesExclusive(path: string)
    ensures !(EndsWith(path, SqliteSuffix) && EndsWith(path, SqlSuffix))
  {
    if EndsWith(path, SqliteSuffix) {
      EndsWithSuffixOf(path, SqliteSuffix, 4);
      assert SqliteSuffix[4..] == "ite3";
      assert path[|path| - 4..] == "ite3";
      assert path[|path| - 4] != '.';
    }
  }

  /** The `if`/`elif`/`else` on the suffix. */
  function SelectStrategy(path: string): (s: Strategy)
    ensures s == Dump <==> EndsWith(path, SqliteSuffix)
    ensures s == Copy <==> EndsWith(path, SqlSuffix)
    ensures s == Unsupported <==> !EndsWith(path, SqliteSuffix) && !EndsWith(path, SqlSuffix)
  {
    SuffixesExclusive(path);
    if EndsWith(path, SqliteSuffix) then Dump
    else if EndsWith(path, SqlSuffix) then Copy
    else Unsupported
  }

  function NotFoundMessage(path: string): string {
    "Database file not found: " + path
  }

  function UnsupportedMessage(path: string): string {
    "Unsupported database format: " + path
  }

  /** The request the `i`-th database's strategy makes of the outside world. */
  function AttemptAt(host: Host, path: string, i: nat): Attempt {
    Attempt(i, path, ArtifactPath(path, FileStamp(host.clock(i))))
  }

  /** Body shared by `backup_sqlite` and `backup_mysql`: name the artifact from
      the clock reading, then report the artifact path, or the exception text
      if the strategy's I/O on that artifact raised. */
  function RunStrategy(path: string, turn: nat, now: Moment, io: Attempt -> Option<string>): (r: (bool, string))
    ensures var attempt := Attempt(turn, path, ArtifactPath(path, FileStamp(now)));
            && (r.0 <==> io(attempt).None?)
            && (r.0 ==> r.1 == attempt.backupPath)
            && (!r.0 ==> io(attempt) == Some(r.1))
  {
    var backupPath := ArtifactPath(path, FileStamp(now));
    match io(Attempt(turn, path, backupPath))
    case None => (true, backupPath)
    case Some(e) => (false, e)
  }

  /** One iteration of the loop in `perform_backup`, for the `i`-th path. */
  function BackupOne(host: Host, path: string, i: nat): (r: BackupResult)
    ensures r.path == path
    ensures !host.fileExists(path) ==> !r.success && r.message == NotFoundMessage(path)
    ensures host.fileExists(path) && SelectStrategy(path) == Unsupported ==>
              !r.success && r.message == UnsupportedMessage(path)
    ensures host.fileExists(path) && SelectStrategy(path) == Dump ==>
              (r.success, r.message) == RunStrategy(path, i, host.clock(i), host.dumpFault)
    ensures host.fileExists(path) && SelectStrategy(path) == Copy ==>
              (r.success, r.message) == RunStrategy(path, i, host.clock(i), host.copyFault)
  {
    if !host.fileExists(path) then BackupResult(path, false, NotFoundMessage(path))
    else
      var (success, result) := match SelectStrategy(path)
        case Dump => RunStrategy(path, i, host.clock(i), host.dumpFault)
        case Copy => RunStrategy(path, i, host.clock(i), host.copyFault)
        case Unsupported => (false, UnsupportedMessage(path));
      BackupResult(path, success, result)
  }

  /** Whether the `i`-th database's backup succeeds, said directly from the
      host's answers. */
  predicate Succeeds(host: Host, path: string, i: nat) {
    && host.fileExists(path)
    && (|| (EndsWith(path, SqliteSuffix) && host.dumpFault(AttemptAt(host, path, i)).None?)
        || (EndsWith(path, SqlSuffix) && host.copyFault(AttemptAt(host, path, i)).None?))
  }

  /** A result succeeds exactly when the file exists, has a supported suffix
      and its strategy raised nothing; a successful result names an artifact
      in the backup directory ending in `.bak`. */
  lemma BackupOneOutcome(host: Host, path: string, i: nat)
    ensures BackupOne(host, path, i).success <==> Succeeds(host, path, i)
    ensures BackupOne(host, path, i).success ==>
              BackupOne(host, path, i).message == ArtifactPath(path, FileStamp(host.clock(i)))
  {
    SuffixesExclusive(path);
  }

  /** A missing file is reported without consulting either strategy or the
      clock: hosts that differ only there give the same result. */
  lemma NotFoundConsultsNothing(h1: Host, h2: Host, path: string, i: nat, j: nat)
    requires !h1.fileExists(path) && !h2.fileExists(path)
    ensures BackupOne(h1, path, i) == BackupOne(h2, path, j)
  {
  }

  /** `perform_backup`'s result list, position by position. */
  function BackupAll(host: Host, paths: seq<string>): (results: seq<BackupResult>)
    ensures |results| == |paths|
    ensures forall i :: 0 <= i < |paths| ==> results[i].path == paths[i]
  {
    seq(|paths|, i requires 0 <= i < |paths| => BackupOne(host, paths[i], i))
  }

  /** The `for db_path in DATABASE_PATHS` loop, appending one triple per path. */
  method PerformBackup(host: Host, paths: seq<string>) returns (results: seq<BackupResult>)
    ensures |results| == |paths|
    ensures forall i :: 0 <= i < |paths| ==> results[i].path == paths[i]
    ensures forall i :: 0 <= i < |paths| ==> results[i] == BackupOne(host, paths[i], i)
    ensures results == BackupAll(host, paths)
  {
    results := [];
    var i := 0;
    while i < |paths|
      invariant i <= |paths|
      invariant |results| == i
      invariant forall j :: 0 <= j < i ==> results[j] == BackupOne(host, paths[j], j)
    {
      var dbPath := paths[i];
      var r;
      if !host.fileExists(dbPath) {
        r := BackupResult(dbPath, false, NotFoundMessage(dbPath));
      } else {
        var outcome;
        if EndsWith(dbPath, SqliteSuffix) {
          outcome := RunStrategy(dbPath, i, host.clock(i), host.dumpFault);
        } else if EndsWith(dbPath, SqlSuffix) {
          outcome := RunStrategy(dbPath, i, host.clock(i), host.copyFault);
        } else {
          outcome := (false, UnsupportedMessage(dbPath));
        }
        r := BackupResult(dbPath, outcome.0, outcome.1);
      }
      assert r == BackupOne(host, dbPath, i);
      results := results + [r];
      i := i + 1;
    }
  }

  /** Every successful result names a `.bak` artifact directly inside the
      backup directory whose file name starts with the database's basename
      and carries the clock reading of that database's turn. */
  lemma SuccessfulArtifacts(host: Host, paths: seq<string>, i: nat)
    requires i < |paths|
    requires BackupAll(host, paths)[i].success
    ensures var a := BackupAll(host, paths)[i].message;
            && StartsWith(a, BackupDir + "/")
            && EndsWith(a, ArtifactExtension)
            && Basename(a) == ArtifactName(paths[i], FileStamp(host.clock(i)))
            && SplitArtifactName(Basename(a), 15) == Some((Basename(paths[i]), FileStamp(host.clock(i))))
  {
    var stamp := FileStamp(host.clock(i));
    BackupOneOutcome(host, paths[i], i);
    assert NoSlash(stamp) by {
      forall k | 0 <= k < |stamp| ensures stamp[k] != '/' {
        if k < 8 {
          assert stamp[..8][k] == stamp[k];
        } else if k > 8 {
          assert stamp[9..][k - 9] == stamp[k];
        }
      }
    }
    ArtifactInBackupDir(paths[i], stamp);
    ArtifactNameRoundTrip(paths[i], stamp);
  }

  /** Every failed result carries one of the three kinds of error: the
      missing-file message, the unsupported-format message, or the text of
      the exception the selected strategy raised. */
  lemma FailureKinds(host: Host, paths: seq<string>, i: nat)
    requires i < |paths|
    requires !BackupAll(host, paths)[i].success
    ensures var p, m := paths[i], BackupAll(host, paths)[i].message;
            || (!host.fileExists(p) && m == NotFoundMessage(p))
            || (host.fileExists(p) && SelectStrategy(p) == Unsupported && m == UnsupportedMessage(p))
            || (host.fileExists(p) && SelectStrategy(p) == Dump && host.dumpFault(AttemptAt(host, p, i)) == Some(m))
            || (host.fileExists(p) && SelectStrategy(p) == Copy && host.copyFault(AttemptAt(host, p, i)) == Some(m))
  {
    assert BackupAll(host, paths)[i] == BackupOne(host, paths[i], i);
  }
}
