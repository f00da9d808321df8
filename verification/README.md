# Database backup job: a Dafny model of its decision logic

`backup_script.py` is a daily job. At midnight it backs up each configured
database to a timestamped `.bak` file and emails a report saying which backups
succeeded. This project models the deterministic logic of that job in Dafny and
proves properties about it:

- **Dispatch** (`perform_backup`). Each configured path is checked for
  existence. Its suffix then selects a SQLite dump (`.sqlite3`), a file copy
  (`.sql`) or an "unsupported format" failure. The result is one
  `(path, success, result)` triple per path, in order.
- **Artifact naming**. The name is `basename(path) + "_" + YYYYMMDD_HHMMSS + ".bak"`
  placed under `backups`, following `os.path.basename` and the posixpath
  `os.path.join`.
- **Report rendering** (`generate_report`). There is a header with the time, a
  `Success: k/n` line, and one four-line block per result.
- **The loop in `main`**. It waits for the trigger minute `00:00`, runs, chooses
  the mail subject, then sleeps for an hour or a minute.

Everything that touches the outside world is a parameter. The `Host` record
holds `os.path.exists` as a predicate and one oracle per strategy. Each oracle
is asked about one attempt: the database's turn, its path and the artifact
path. It answers whether the dump or the copy raises, and with which `str(e)`.
So an error text may name the timestamped artifact, and a path listed twice
may fail once and succeed once. The host
also has a clock reading for each database's turn. The report time and the
polling time are parameters too. Nothing is sent: `Cycle.Tick` returns the
mail that `send_email` would receive.

Files and modules:

- `text.dfy` (`Text`): suffix and prefix tests, and `str(int)` with its reader.
  It also has zero-padded fields and the newline-terminated line layout with
  its splitter.
- `paths.dfy` (`Paths`): basename, join, artifact name and artifact path.
- `clock.dfy` (`Clock`): the date-time type, the two `strftime` formats, the
  trigger test and the timing of polls.
- `backup.dfy` (`Backup`): result records, strategy selection, and
  `perform_backup`.
- `report.dfy` (`Report`): the success count, `generate_report`, and a reader
  that recovers the results from a report.
- `cycle.dfy` (`Cycle`): the mail subject and one iteration of `main`'s loop.

A failing strategy reports the bare `str(e)` with no error-kind prefix, and
`create_backup_dir` runs outside any `try` (see Left out).

## Model

| member | source | states |
|---|---|---|
| `Backup.SuffixesExclusive` | backup_script.py:96-98 | no path ends in both `.sqlite3` and `.sql`, so at most one branch of the suffix test can apply |
| `Backup.SelectStrategy` | backup_script.py:96-101 | the dump is chosen iff the path ends in `.sqlite3`, the copy iff it ends in `.sql`, and "unsupported" iff it ends in neither |
| `Backup.RunStrategy` | backup_script.py:32-64 | the strategy's I/O is asked about the artifact path built from that clock reading; it succeeds iff that I/O raises nothing; on success the result is the artifact path, on failure the exception text |
| `Backup.BackupOne` | backup_script.py:91-103 | the triple keeps its input path; a missing file fails with `Database file not found: <path>`; an existing file with an unsupported suffix fails with `Unsupported database format: <path>`; otherwise the result is the outcome of the strategy its suffix selects |
| `Backup.BackupOneOutcome` | backup_script.py:92-103 | a backup succeeds iff the file exists, has a supported suffix and that strategy's I/O raised nothing; a success carries the artifact path |
| `Backup.NotFoundConsultsNothing` | backup_script.py:92-94 | for a missing file the result does not depend on either strategy or on the clock |
| `Backup.BackupAll` | backup_script.py:89-105 | exactly one result per configured path, each carrying its path unchanged, in order |
| `Backup.PerformBackup` | backup_script.py:86-105 | the appending loop returns one result per path, in order, and result `i` is the dispatch of path `i` |
| `Backup.SuccessfulArtifacts` | backup_script.py:35-37 | a successful result names a file directly inside `backups/` ending in `.bak`; its file name splits back into the database's basename and the 15-character stamp |
| `Backup.FailureKinds` | backup_script.py:92-101 | a failed result carries the not-found message, the unsupported-format message, or the exception text of the strategy its suffix selected |
| `Paths.Basename` | backup_script.py:36 | the basename has no `/` and is a suffix of the path |
| `Paths.BasenameSplit` | backup_script.py:36 | when anything precedes the basename, the character just before it is `/` |
| `Paths.BasenameUnique` | backup_script.py:36 | for a directory part that is empty or ends in `/`, followed by a slash-free name, the basename is that name |
| `Paths.Join` | backup_script.py:37 | an absolute second component replaces the first; otherwise an empty first component or one ending in `/` is followed directly by the second, and any other first component gets a `/` between; the result always ends with the second component |
| `Paths.BasenameOfJoin` | backup_script.py:36-37 | joining a slash-free name onto any directory and taking the basename gives the name back |
| `Paths.ArtifactPath` | backup_script.py:35-37 | the artifact path is `backups/` followed by the artifact name, so it starts with `backups/` and ends in `.bak` |
| `Paths.SplitArtifactName` | backup_script.py:36 | an accepted name is a slash-free basename, `_`, a stamp of the given width, and `.bak` |
| `Paths.ArtifactNameRoundTrip` | backup_script.py:36 | the artifact name splits back into exactly the database's basename and the timestamp |
| `Paths.ArtifactInBackupDir` | backup_script.py:56-57 | when the stamp has no `/`, the basename of the artifact path is the artifact name, so the file lies directly in the backup directory |
| `Clock.FileStamp` | backup_script.py:35 | `%Y%m%d_%H%M%S` is 15 characters: digits, with `_` at position 8 |
| `Clock.ParseFileStamp` | backup_script.py:55 | only 15-character strings with `_` at position 8 are read as stamps |
| `Clock.FileStampRoundTrip` | backup_script.py:35 | reading back a stamp recovers the moment it was taken |
| `Clock.FileStampInjective` | backup_script.py:55 | distinct moments give distinct stamps, so two artifacts of one database collide only within the same second |
| `Clock.ReportStamp` | backup_script.py:112 | `%Y-%m-%d %H:%M:%S` is 19 characters on one line: `-`, `-`, a space, `:` and `:` at positions 4, 7, 10, 13 and 16, and digits everywhere else |
| `Clock.ParseReportStamp` | backup_script.py:112 | only 19-character strings with those separators in those positions are read as report stamps |
| `Clock.ReportStampRoundTrip` | backup_script.py:112 | reading back the report header's stamp recovers the moment it was taken |
| `Clock.TriggerIsFirstMinute` | backup_script.py:132 | `hour == 0 and minute == 0` holds exactly during the first 60 seconds of the day |
| `Clock.CooldownPreventsRerun` | backup_script.py:153-154 | after a triggering poll and the one-hour sleep, no poll before the next midnight triggers again |
| `Clock.PollsCatchMidnight` | backup_script.py:155-157 | polls at most 60 seconds apart that cross midnight number `day` include one poll in the first minute after that midnight, which is a trigger window |
| `Clock.MidnightCanBeMissed` | backup_script.py:130-157 | two polls 61 seconds apart can straddle midnight with neither inside the window |
| `Text.NatToDecimal` | backup_script.py:113 | `str(n)` is non-empty, all digits, and starts with `0` only for zero |
| `Text.ParseNatRoundTrip` | backup_script.py:113 | the count and total printed in the report read back as the same numbers |
| `Text.SplitUnlines` | backup_script.py:112-123 | splitting newline-terminated text whose lines contain no newline recovers the lines |
| `Report.SuccessCount` | backup_script.py:109-110 | the success count never exceeds the total; it equals the total iff every result succeeded, and is zero iff none did |
| `Report.SuccessCountIsCardinality` | backup_script.py:109 | the success count is the number of positions whose result succeeded |
| `Report.BlockAt` | backup_script.py:115-123 | block `i` of the report is the block of result `i`: one block per result, in input order |
| `Report.GenerateReport` | backup_script.py:107-125 | the accumulated text is the header line, the `Success: k/n` line, a blank line, then every result's block, each line ending in a newline |
| `Report.CountLineRoundTrip` | backup_script.py:113 | the `Success: k/n` line reads back as `k` and `n` |
| `Report.BlockRoundTrip` | backup_script.py:115-123 | a result's block reads back as exactly that result (path, flag and message) |
| `Report.ReportLinesRoundTrip` | backup_script.py:107-125 | the report's lines read back as the time stamp, the success count, the total and every result in order |
| `Report.ReportRoundTrip` | backup_script.py:107-125 | when paths and messages are single lines, the report text reads back as the time stamp, the count, the total and every result in order |
| `Report.ReportBlockContent` | backup_script.py:116-123 | block `i` names database `i`; it says `Status: SUCCESS` iff that result succeeded and `Status: FAILED` iff it failed; then comes `Backup saved to: ` or `Error: ` with the message, then a blank line |
| `Cycle.Subject` | backup_script.py:138-142 | the subject is one of the two; it ends in `SUCCESS` iff every result succeeded (an empty run included), and in `FAILED` iff some result failed |
| `Cycle.SubjectAgreesWithCount` | backup_script.py:138-142 | the subject says `SUCCESS` exactly when the report's count line reads `n/n` |
| `Cycle.SuccessesMatchHost` | backup_script.py:91-103 | the positions that succeed are exactly the configured databases that exist, have a supported suffix and whose strategy raised nothing |
| `Cycle.CountMatchesHost` | backup_script.py:109 | the reported success count equals the number of configured databases that exist, have a supported suffix and whose strategy raised nothing |
| `Cycle.Tick` | backup_script.py:130-157 | a mail is produced iff the time is 00:00 and is followed by a one-hour sleep, otherwise a one-minute sleep; its body is the report of that run; its subject is the one `Cycle.Subject` chooses for that run: `SUCCESS` iff every configured database backs up, `FAILED` iff some configured database does not |
| `Cycle.MailedReportReadsBack` | backup_script.py:134-135 | when no configured path and no error text contains a newline, the mailed report reads back as the run's results, with the count of databases that back up successfully |
| `Cycle.TwoDatabaseScenario` | backup_script.py:134-142 | with one existing SQLite file whose dump succeeds and one missing path, the run gives an artifact success and then a not-found failure, the line `Success: 1/2`, and a `FAILED` subject |

## Left out

- `send_email` (backup_script.py:66-84) is network I/O through SMTP. `Cycle.Tick` returns the subject and body it would be given. The send outcome only selects a log line. The SMTP server and port constants (backup_script.py:24-25) are used only there.
- The SQLite `iterdump` write and `shutil.copy2` (backup_script.py:40-47, 61) are library calls with filesystem effects. Their outcome is the `dumpFault` and `copyFault` oracle. The artifact's contents (dump fidelity, byte-identical copy) are not modelled.
- `create_backup_dir` (backup_script.py:27-30) is not modelled. It runs before the loop and outside any `try`, and `main` has no `try` either. So if it raises, the exception ends the service process: no results, no mail, and no later midnight runs.
- `os.path.exists` is the `fileExists` oracle. The model has no filesystem. Existence is fixed for the whole run: a path listed twice is either present on both turns or missing on both, although the code asks `os.path.exists` again on every turn.
- The clock is a parameter. A database's `datetime.now()` is `clock(i)`, read at its position in the run. The report time and the poll time are separate arguments.
- The infinite `while True` loop and `time.sleep` (backup_script.py:130-157) are not modelled as a process. `Cycle.Tick` is one iteration, and the `Clock` lemmas treat polls as a sequence of absolute seconds.
- Loading `.env` and reading the environment (backup_script.py:13, 21-23) is not modelled. The `getenv` keys are literal e-mail addresses, which looks like a configuration defect rather than behaviour.
- Console output (`print`) is not modelled.
- `Clock.FileStamp`: only years 1000 to 9999 are modelled. For earlier years, how wide `%Y` prints depends on the platform.
- `Clock.CooldownPreventsRerun`: wall-clock time is treated as seconds counted uniformly from a midnight. `datetime.now()` returns naive local time, and where a daylight-saving change falls at midnight, 00:00 to 00:59 can occur twice; a run that ends inside that minute then fires again after the hour's sleep. The lemma assumes local time never jumps.
- `Clock.PollsCatchMidnight`: the same assumption. Where a daylight-saving change skips 00:00, that day has no trigger window and no backup runs.
- `Cycle.MailedReportReadsBack`: the same single-line condition as `Report.ReportRoundTrip`. A path or error text that contains a newline makes the mailed text ambiguous.
- `Report.ReportRoundTrip`: the text-level reading requires paths and messages without newlines. With a newline inside a path or an error text, the report is ambiguous. The line-level reading (`Report.ReportLinesRoundTrip`) has no such condition.
- Determinism of `generate_report` once the time is fixed has no separate lemma. It holds because `Report.RenderReport` is a function of its arguments.
