/** POSIX path handling used to name backup artifacts: `os.path.basename`,
    `os.path.join`, and the `<basename>_<timestamp>.bak` file name placed in
    the backup directory. */
module Paths {
  import opened Text

  /** The configured backup directory (`BACKUP_DIR`). */
  const BackupDir: string := "backups"

  const ArtifactExtension: string := ".bak"

  predicate NoSlash(s: string) {
    forall i :: 0 <= i < |s| ==> s[i] != '/'
  }

  /** Index of the last `/` in `s`, or -1 (Python's `str.rfind('/')`). */
  function LastSlash(s: string): (k: int)
    ensures -1 <= k < |s|
    ensures 0 <= k ==> s[k] == '/'
    ensures forall j :: k < j < |s| ==> s[j] != '/'
  {
    if |s| == 0 then -1
    else if s[|s| - 1] == '/' then |s| - 1
    else LastSlash(s[..|s| - 1])
  }

  /** `os.path.basename`: everything after the last `/`. */
  function Basename(path: string): (b: string)
    ensures NoSlash(b)
    ensures EndsWith(path, b)
  {
    var k := LastSlash(path);
    var b := path[k + 1..];
    assert |path| - |b| == k + 1;
    assert NoSlash(b) by {
      forall i | 0 <= i < |b| ensures b[i] != '/' {
        assert b[i] == path[k + 1 + i];
      }
    }
    b
  }

  /** What precedes the basename is empty or ends in `/`. Together with
      `Basename`'s contract this pins the basename down (`BasenameUnique`). */
  lemma BasenameSplit(path: string)
    ensures |Basename(path)| < |path| ==> path[|path| - |Basename(path)| - 1] == '/'
  {
    var k := LastSlash(path);
    assert |Basename(path)| == |path| - (k + 1);
  }

  /** The last `/` of a directory part followed by a slash-free tail is the
      directory's own trailing `/` (or there is none). */
  lemma {:induction false} LastSlashOfJoined(dir: string, name: string)
    requires dir == "" || dir[|dir| - 1] == '/'
    requires NoSlash(name)
    ensures LastSlash(dir + name) == |dir| - 1
    decreases |name|
  {
    var path := dir + name;
    if |name| == 0 {
      assert path == dir;
    } else {
      assert path[..|path| - 1] == dir + name[..|name| - 1];
      LastSlashOfJoined(dir, name[..|name| - 1]);
    }
  }

  /** Any split of a path into a directory part that is empty or ends in `/`
      and a slash-free tail has that tail as its basename. */
  lemma BasenameUnique(dir: string, name: string)
    requires dir == "" || dir[|dir| - 1] == '/'
    requires NoSlash(name)
    ensures Basename(dir + name) == name
  {
    LastSlashOfJoined(dir, name);
    assert (dir + name)[|dir|..] == name;
  }

  /** `os.path.join(a, b)` for two components (posixpath). */
  function Join(a: string, b: string): (r: string)
    ensures StartsWith(b, "/") ==> r == b
    ensures !StartsWith(b, "/") && (a == "" || EndsWith(a, "/")) ==> r == a + b
    ensures !StartsWith(b, "/") && a != "" && !EndsWith(a, "/") ==> r == a + "/" + b
    ensures EndsWith(r, b)
  {
    EndsWithAppend(a, b);
    EndsWithAppend(a + "/", b);
    assert a + "/" + b == (a + "/") + b;
    if |b| > 0 && b[0] == '/' then
      assert b[|b| - |b|..] == b;
      b
    else if a == "" || a[|a| - 1] == '/' then a + b
    else a + "/" + b
  }

  /** Joining a slash-free name onto any directory and taking the basename
      gives the name back. */
  lemma BasenameOfJoin(dir: string, name: string)
    requires NoSlash(name)
    ensures Basename(Join(dir, name)) == name
  {
    assert !StartsWith(name, "/") by {
      if |name| > 0 {
        assert name[0] != '/';
      }
    }
    if dir == "" || dir[|dir| - 1] == '/' {
      BasenameUnique(dir, name);
    } else {
      assert Join(dir, name) == (dir + "/") + name;
      BasenameUnique(dir + "/", name);
    }
  }

  /** The artifact's file name, `f"{os.path.basename(db_path)}_{timestamp}.bak"`. */
  function ArtifactName(dbPath: string, stamp: string): string {
    Basename(dbPath) + "_" + stamp + ArtifactExtension
  }

  /** The artifact path, `os.path.join(BACKUP_DIR, backup_filename)`. */
  function ArtifactPath(dbPath: string, stamp: string): (p: string)
    ensures p == BackupDir + "/" + ArtifactName(dbPath, stamp)
    ensures StartsWith(p, BackupDir + "/")
    ensures EndsWith(p, ArtifactExtension)
  {
    var name := ArtifactName(dbPath, stamp);
    assert !StartsWith(name, "/") by {
      if |Basename(dbPath)| > 0 {
        assert name[0] == Basename(dbPath)[0];
      } else {
        assert name[0] == '_';
      }
    }
    assert !EndsWith(BackupDir, "/") by { assert BackupDir[|BackupDir| - 1] == 's'; }
    StartsWithAppend(BackupDir + "/", name);
    EndsWithAppend(Basename(dbPath) + "_" + stamp, ArtifactExtension);
    EndsWithAppend(BackupDir + "/", name);
    EndsWithSuffixOf(BackupDir + "/" + name, name, |name| - |ArtifactExtension|);
    assert name[|name| - |ArtifactExtension|..] == ArtifactExtension;
    Join(BackupDir, name)
  }

  /** Splits an artifact file name back into the database basename and the
      timestamp, given the timestamp's fixed width. */
  function SplitArtifactName(name: string, stampWidth: nat): (r: Option<(string, string)>)
    ensures r.Some? ==> NoSlash(r.value.0) && |r.value.1| == stampWidth
    ensures r.Some? ==> name == r.value.0 + "_" + r.value.1 + ArtifactExtension
  {
    var n := |name|;
    if n < stampWidth + 5 || !EndsWith(name, ArtifactExtension) || name[n - stampWidth - 5] != '_' then None
    else
      var base, stamp := name[..n - stampWidth - 5], name[n - stampWidth - 4..n - 4];
      if NoSlash(base) then
        assert name == base + "_" + stamp + ArtifactExtension;
        Some((base, stamp))
      else None
  }

  /** The artifact name carries the database's basename and the timestamp
      recoverably: two artifacts of equal name come from equal basenames and
      equal timestamps of the same width. */
  lemma ArtifactNameRoundTrip(dbPath: string, stamp: string)
    ensures SplitArtifactName(ArtifactName(dbPath, stamp), |stamp|) == Some((Basename(dbPath), stamp))
  {
    var b := Basename(dbPath);
    var name := ArtifactName(dbPath, stamp);
    var n := |name|;
    assert n == |b| + |stamp| + 5;
    EndsWithAppend(b + "_" + stamp, ArtifactExtension);
    assert name[n - |stamp| - 5] == '_';
    assert name[..n - |stamp| - 5] == b;
    assert name[n - |stamp| - 4..n - 4] == stamp;
  }

  /** The basename of the artifact path is the artifact name whenever the
      timestamp has no `/`: the artifact lands directly in the backup directory. */
  lemma ArtifactInBackupDir(dbPath: string, stamp: string)
    requires NoSlash(stamp)
    ensures Basename(ArtifactPath(dbPath, stamp)) == ArtifactName(dbPath, stamp)
  {
    var name := ArtifactName(dbPath, stamp);
    var b := Basename(dbPath);
    assert NoSlash(name) by {
      forall i | 0 <= i < |name| ensures name[i] != '/' {
        if i < |b| {
          assert name[i] == b[i];
        } else if i == |b| {
        } else if i < |b| + 1 + |stamp| {
          assert name[i] == stamp[i - |b| - 1];
        } else {
          assert name[i] == ArtifactExtension[i - |b| - 1 - |stamp|];
        }
      }
    }
    var dir := BackupDir + "/";
    assert ArtifactPath(dbPath, stamp) == dir + name;
    BasenameUnique(dir, name);
  }
}
