/** One pass of the polling loop in `main`: test the midnight trigger, back up
    every configured database, render the report, choose the mail subject,
    and pick how long to sleep. The mail itself is returned, not sent. */
module Cycle {
  import opened Text
  import opened Clock
  import opened Backup
  import opened Report

  const SubjectBase: string := "Database Backup Report"
  const SuccessSubject: string := SubjectBase + " - SUCCESS"
  const FailedSubject: string := SubjectBase + " - FAILED"

  /** The message handed to `send_email`. */
  datatype Mail = Mail(subject: string, body: string)

  predicate AllSucceeded(results: seq<BackupResult>) {
    forall i :: 0 <= i < |results| ==> results[i].success
  }

  /** The subject is `... - SUCCESS` when every result succeeded (an empty
      run included) and `... - FAILED` as soon as one failed. */
  function Subject(results: seq<BackupResult>): (s: string)
    ensures s == SuccessSubject || s == FailedSubject
    ensures s == SuccessSubject <==> forall i :: 0 <= i < |results| ==> results[i].success
    ensures s == FailedSubject <==> exists i :: 0 <= i < |results| && !results[i].success
  {
    assert SuccessSubject != FailedSubject by {
      assert |SuccessSubject| != |FailedSubject|;
    }
    if AllSucceeded(results) then SuccessSubject else FailedSubject
  }

  /** The subject and the report agree: `SUCCESS` exactly when the count line
      reads `n/n`. */
  lemma SubjectAgreesWithCount(results: seq<BackupResult>)
    ensures Subject(results) == SuccessSubject <==> SuccessCount(results) == |results|
  {
  }

  /** The positions whose backup succeeds, read off the host directly. */
  function SucceedingPositions(host: Host, paths: seq<string>): set<nat> {
    set i: nat | i < |paths| && Succeeds(host, paths[i], i)
  }

  /** The positions that succeed in the report are exactly the configured
      databases that exist, have a supported suffix and whose strategy raised
      nothing. */
  lemma SuccessesMatchHost(host: Host, paths: seq<string>)
    ensures SuccessIndices(BackupAll(host, paths)) == SucceedingPositions(host, paths)
  {
    var results := BackupAll(host, paths);
    forall i: nat | i < |paths|
      ensures results[i].success <==> Succeeds(host, paths[i], i)
    {
      BackupOneOutcome(host, paths[i], i);
    }
  }

  /** The report's success count is the number of configured databases that
      back up successfully. */
  lemma CountMatchesHost(host: Host, paths: seq<string>)
    ensures SuccessCount(BackupAll(host, paths)) == |SucceedingPositions(host, paths)|
  {
    SuccessesMatchHost(host, paths);
    SuccessCountIsCardinality(BackupAll(host, paths));
  }

  /** One iteration of `while True`: at the trigger minute it runs the
      backups and builds the mail, then sleeps an hour; otherwise it sleeps a
      minute. `reportTime` is the clock read by `generate_report`. */
  method Tick(host: Host, paths: seq<string>, now: Moment, reportTime: Moment)
    returns (mail: Option<Mail>, sleep: nat)
    ensures mail.Some? <==> IsTriggerTime(now)
    ensures sleep == if IsTriggerTime(now) then Cooldown else PollInterval
    ensures mail.Some? ==> mail.value.body == RenderReport(BackupAll(host, paths), reportTime)
    ensures mail.Some? ==> mail.value.subject == Subject(BackupAll(host, paths))
    ensures mail.Some? ==>
              (mail.value.subject == SuccessSubject <==> forall i :: 0 <= i < |paths| ==> Succeeds(host, paths[i], i))
    ensures mail.Some? ==>
              (mail.value.subject == FailedSubject <==> exists i :: 0 <= i < |paths| && !Succeeds(host, paths[i], i))
  {
    if now.hour == 0 && now.minute == 0 {
      var results := PerformBackup(host, paths);
      var report := GenerateReport(results, reportTime);
      var subject := Subject(results);
      forall i | 0 <= i < |paths| ensures results[i].success <==> Succeeds(host, paths[i], i) {
        BackupOneOutcome(host, paths[i], i);
      }
      mail := Some(Mail(subject, report));
      sleep := Cooldown;
    } else {
      mail := None;
      sleep := PollInterval;
    }
  }

  /** The mailed report reads back as the run's results with their count,
      whenever no configured path and no error text spans lines. */
  lemma MailedReportReadsBack(host: Host, paths: seq<string>, reportTime: Moment)
    requires SingleLineResults(BackupAll(host, paths))
    ensures var results := BackupAll(host, paths);
            DecodeReport(RenderReport(results, reportTime))
            == Some(Summary(ReportStamp(reportTime), |SucceedingPositions(host, paths)|, |paths|, results))
  {
    CountMatchesHost(host, paths);
    ReportRoundTrip(BackupAll(host, paths), reportTime);
  }

  lemma CountLineOneOfTwo()
    ensures CountLine(1, 2) == "Success: 1/2"
  {
    var one, two := NatToDecimal(1), NatToDecimal(2);
    assert one == "1";
    assert two == "2";
    assert CountLine(1, 2) == CountPrefix + one + "/" + two;
  }

  /** Two configured databases, an existing SQLite file whose dump succeeds and
      a path that does not exist: two results in order, one success naming an
      artifact and one not-found failure, a `Success: 1/2` line, and a
      `FAILED` subject. */
  lemma TwoDatabaseScenario(host: Host, present: string, missing: string, reportTime: Moment)
    requires EndsWith(present, SqliteSuffix)
    requires host.fileExists(present) && host.dumpFault(AttemptAt(host, present, 0)) == None
    requires !host.fileExists(missing)
    ensures BackupAll(host, [present, missing])
         == [ BackupResult(present, true, Paths.ArtifactPath(present, FileStamp(host.clock(0)))),
              BackupResult(missing, false, NotFoundMessage(missing)) ]
    ensures ReportLines(BackupAll(host, [present, missing]), reportTime)[1] == "Success: 1/2"
    ensures Subject(BackupAll(host, [present, missing])) == FailedSubject
  {
    var r0 := BackupOne(host, present, 0);
    var r1 := BackupOne(host, missing, 1);
    assert r0 == BackupResult(present, true, Paths.ArtifactPath(present, FileStamp(host.clock(0))));
    var results := BackupAll(host, [present, missing]);
    assert results == [r0, r1];
    assert SuccessCount(results) == 1 by {
      assert results[..1] == [r0];
      assert [r0][..0] == [];
    }
    CountLineOneOfTwo();
  }
}
