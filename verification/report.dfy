/** `generate_report`: the success count, the text of the report, and a reader
    that recovers the per-database outcomes from that text. */
module Report {
  import opened Text
  import opened Clock
  import opened Backup

  const HeaderPrefix: string := "Database Backup Report - "
  const CountPrefix: string := "Success: "
  const DatabasePrefix: string := "Database: "
  const SavedPrefix: string := "Backup saved to: "
  const ErrorPrefix: string := "Error: "

  // ---------------------------------------------------------------------------
  // Counting

  /** `sum(1 for _, success, _ in results if success)`. */
  function SuccessCount(results: seq<BackupResult>): (k: nat)
    ensures k <= |results|
    ensures k == |results| <==> forall i :: 0 <= i < |results| ==> results[i].success
    ensures k == 0 <==> forall i :: 0 <= i < |results| ==> !results[i].success
  {
    if |results| == 0 then 0
    else
      var init := results[..|results| - 1];
      assert forall i :: 0 <= i < |init| ==> results[i] == init[i];
      SuccessCount(init) + (if results[|results| - 1].success then 1 else 0)
  }

  function SuccessIndices(results: seq<BackupResult>): set<nat> {
    set i: nat | i < |results| && results[i].success
  }

  /** The count is the number of positions holding a success. */
  lemma {:induction false} SuccessCountIsCardinality(results: seq<BackupResult>)
    ensures SuccessCount(results) == |SuccessIndices(results)|
    decreases |results|
  {
    if |results| > 0 {
      var n := |results| - 1;
      var init := results[..n];
      SuccessCountIsCardinality(init);
      SuccessIndicesSnoc(results);
      assert SuccessCount(results) == SuccessCount(init) + (if results[n].success then 1 else 0);
      if results[n].success {
        assert |SuccessIndices(init) + {n}| == |SuccessIndices(init)| + 1;
      }
    }
  }

  lemma SuccessIndicesSnoc(results: seq<BackupResult>)
    requires |results| > 0
    ensures var n := |results| - 1;
            SuccessIndices(results)
            == SuccessIndices(results[..n]) + (if results[n].success then {n} else {})
    ensures |results| - 1 !in SuccessIndices(results[..|results| - 1])
  {
    var n := |results| - 1;
    var init := results[..n];
    forall i: nat | i < n ensures results[i] == init[i] {
    }
  }

  // ---------------------------------------------------------------------------
  // Rendering

  function StatusWord(success: bool): string {
    if success then "SUCCESS" else "FAILED"
  }

  function StatusLine(success: bool): string {
    "Status: " + StatusWord(success)
  }

  lemma StatusLines()
    ensures StatusLine(true) == "Status: SUCCESS"
    ensures StatusLine(false) == "Status: FAILED"
    ensures StatusLine(true) != StatusLine(false)
  {
    assert |StatusLine(true)| != |StatusLine(false)|;
  }

  /** The four lines written for one result: database, status, outcome, blank. */
  function ResultBlock(r: BackupResult): (lines: seq<string>)
    ensures |lines| == 4
  {
    [ DatabasePrefix + r.path,
      StatusLine(r.success),
      (if r.success then SavedPrefix else ErrorPrefix) + r.message,
      "" ]
  }

  function BlockLines(results: seq<BackupResult>): (lines: seq<string>)
    ensures |lines| == 4 * |results|
  {
    if |results| == 0 then [] else ResultBlock(results[0]) + BlockLines(results[1..])
  }

  lemma {:induction false} BlockLinesAppend(a: seq<BackupResult>, b: seq<BackupResult>)
    ensures BlockLines(a + b) == BlockLines(a) + BlockLines(b)
    decreases |a|
  {
    if |a| == 0 {
      assert a + b == b;
    } else {
      assert (a + b)[1..] == a[1..] + b;
      BlockLinesAppend(a[1..], b);
    }
  }

  /** The `i`-th block of lines belongs to the `i`-th result: one block per
      result, in input order. */
  lemma {:induction false} BlockAt(results: seq<BackupResult>, i: nat, j: nat)
    requires i < |results| && j < 4
    ensures BlockLines(results)[4 * i + j] == ResultBlock(results[i])[j]
    decreases i
  {
    if i > 0 {
      BlockAt(results[1..], i - 1, j);
    }
  }

  /** `f"Success: {success_count}/{total}"`. */
  function CountLine(successes: nat, total: nat): string {
    CountPrefix + (NatToDecimal(successes) + "/" + NatToDecimal(total))
  }

  /** The report as a list of lines, before the newlines are added. */
  function ReportLines(results: seq<BackupResult>, now: Moment): (lines: seq<string>)
    ensures |lines| == 3 + 4 * |results|
  {
    [HeaderPrefix + ReportStamp(now), CountLine(SuccessCount(results), |results|), ""] + BlockLines(results)
  }

  /** The text `generate_report` returns. */
  function RenderReport(results: seq<BackupResult>, now: Moment): string {
    Unlines(ReportLines(results, now))
  }

  /** `generate_report`, accumulating the text the way `generate_report` does. */
  method GenerateReport(results: seq<BackupResult>, now: Moment) returns (report: string)
    ensures report == RenderReport(results, now)
  {
    var successCount := SuccessCount(results);
    var total := |results|;
    report := HeaderPrefix + ReportStamp(now) + "\n";
    report := report + (CountPrefix + (NatToDecimal(successCount) + "/" + NatToDecimal(total)) + "\n\n");
    ghost var head := [HeaderPrefix + ReportStamp(now), CountLine(successCount, total), ""];
    HeadText(head[0], head[1]);
    assert head + BlockLines(results[..0]) == head;
    var i := 0;
    while i < |results|
      invariant i <= |results|
      invariant report == Unlines(head + BlockLines(results[..i]))
    {
      var r := results[i];
      ghost var before := head + BlockLines(results[..i]);
      var status := StatusWord(r.success);
      report := report + (DatabasePrefix + r.path + "\n");
      report := report + ("Status: " + status + "\n");
      if r.success {
        report := report + (SavedPrefix + r.message + "\n");
      } else {
        report := report + (ErrorPrefix + r.message + "\n");
      }
      report := report + "\n";
      BlockAppended(before, r);
      GenerateStep(results, i, head);
      i := i + 1;
    }
    assert results[..i] == results;
  }

  lemma UnlinesSnoc(lines: seq<string>, line: string)
    ensures Unlines(lines + [line]) == Unlines(lines) + (line + "\n")
  {
    UnlinesAppend(lines, [line]);
    assert Unlines([line]) == line + "\n" + Unlines([]);
  }

  /** The text of the header line, the count line and the blank line. */
  lemma HeadText(header: string, count: string)
    ensures Unlines([header, count, ""]) == header + "\n" + (count + "\n\n")
  {
    UnlinesSnoc([], header);
    assert [] + [header] == [header];
    UnlinesSnoc([header], count);
    assert [header] + [count] == [header, count];
    UnlinesSnoc([header, count], "");
    assert [header, count] + [""] == [header, count, ""];
    assert count + "\n" + ("" + "\n") == count + "\n\n";
  }

  /** Appending one result's block to the lines appends its four
      newline-terminated lines to the text. */
  lemma BlockAppended(before: seq<string>, r: BackupResult)
    ensures Unlines(before + ResultBlock(r))
         == Unlines(before) + (DatabasePrefix + r.path + "\n") + (StatusLine(r.success) + "\n")
            + ((if r.success then SavedPrefix else ErrorPrefix) + r.message + "\n") + "\n"
  {
    var block := ResultBlock(r);
    UnlinesSnoc(before, block[0]);
    UnlinesSnoc(before + [block[0]], block[1]);
    UnlinesSnoc(before + [block[0]] + [block[1]], block[2]);
    UnlinesSnoc(before + [block[0]] + [block[1]] + [block[2]], block[3]);
    assert before + [block[0]] + [block[1]] + [block[2]] + [block[3]] == before + block;
  }

  /** The lines after the `i`-th block are the lines before it plus that block. */
  lemma GenerateStep(results: seq<BackupResult>, i: nat, head: seq<string>)
    requires i < |results|
    ensures head + BlockLines(results[..i + 1]) == head + BlockLines(results[..i]) + ResultBlock(results[i])
  {
    assert results[..i + 1] == results[..i] + [results[i]];
    BlockLinesAppend(results[..i], [results[i]]);
    assert BlockLines([results[i]]) == ResultBlock(results[i]) + BlockLines([]);
  }

  // ---------------------------------------------------------------------------
  // Reading a report back

  /** What a report says: its time stamp, its `k/n` line, and its blocks. */
  datatype Summary = Summary(stamp: string, successes: nat, total: nat, results: seq<BackupResult>)

  function ParseCountLine(line: string): (r: Option<(nat, nat)>) {
    match StripPrefix(line, CountPrefix)
    case None => None
    case Some(rest) =>
      var k := FirstIndexOf(rest, '/');
      if k == |rest| then None
      else
        match (ParseNat(rest[..k]), ParseNat(rest[k + 1..]))
        case (Some(a), Some(b)) => Some((a, b))
        case _ => None
  }

  lemma CountLineRoundTrip(successes: nat, total: nat)
    ensures ParseCountLine(CountLine(successes, total)) == Some((successes, total))
  {
    var a, b := NatToDecimal(successes), NatToDecimal(total);
    var rest := a + "/" + b;
    StripPrefixAppend(CountPrefix, rest);
    SplitAtSlash(a, b);
    ParseNatRoundTrip(successes);
    ParseNatRoundTrip(total);
  }

  /** A slash after a run of digits is the first slash. */
  lemma SplitAtSlash(a: string, b: string)
    requires AllDigits(a)
    ensures FirstIndexOf(a + "/" + b, '/') == |a|
    ensures (a + "/" + b)[..|a|] == a
    ensures (a + "/" + b)[|a| + 1..] == b
  {
    forall j | 0 <= j < |a| ensures a[j] != '/' {
      assert IsDigit(a[j]);
    }
    FirstIndexOfJoined(a, '/', b);
  }

  function ParseStatus(line: string): Option<bool> {
    if line == StatusLine(true) then Some(true)
    else if line == StatusLine(false) then Some(false)
    else None
  }

  /** Reads one block of four lines. */
  function DecodeBlock(lines: seq<string>): Option<BackupResult>
    requires |lines| == 4
  {
    match (StripPrefix(lines[0], DatabasePrefix), ParseStatus(lines[1]))
    case (Some(path), Some(success)) =>
      (match StripPrefix(lines[2], if success then SavedPrefix else ErrorPrefix)
       case Some(message) =>
         if lines[3] == "" then Some(BackupResult(path, success, message)) else None
       case None => None)
    case _ => None
  }

  function DecodeBlocks(lines: seq<string>): Option<seq<BackupResult>>
    decreases |lines|
  {
    if |lines| == 0 then Some([])
    else if |lines| < 4 then None
    else
      match (DecodeBlock(lines[..4]), DecodeBlocks(lines[4..]))
      case (Some(r), Some(rs)) => Some([r] + rs)
      case _ => None
  }

  function DecodeReportLines(lines: seq<string>): Option<Summary> {
    if |lines| < 3 || lines[2] != "" then None
    else
      match (StripPrefix(lines[0], HeaderPrefix), ParseCountLine(lines[1]), DecodeBlocks(lines[3..]))
      case (Some(stamp), Some((k, n)), Some(rs)) => Some(Summary(stamp, k, n, rs))
      case _ => None
  }

  /** Reads a report's text back into what it says. */
  function DecodeReport(text: string): Option<Summary> {
    DecodeReportLines(SplitLines(text))
  }

  lemma BlockRoundTrip(r: BackupResult)
    ensures DecodeBlock(ResultBlock(r)) == Some(r)
  {
    StripPrefixAppend(DatabasePrefix, r.path);
    StripPrefixAppend(if r.success then SavedPrefix else ErrorPrefix, r.message);
  }

  lemma {:induction false} BlocksRoundTrip(results: seq<BackupResult>)
    ensures DecodeBlocks(BlockLines(results)) == Some(results)
    decreases |results|
  {
    if |results| > 0 {
      var lines := BlockLines(results);
      assert lines[..4] == ResultBlock(results[0]);
      assert lines[4..] == BlockLines(results[1..]);
      BlockRoundTrip(results[0]);
      BlocksRoundTrip(results[1..]);
      assert [results[0]] + results[1..] == results;
    }
  }

  /** The report's lines say exactly the run's results, in order, with the
      success count and total of `generate_report`. */
  lemma {:induction false} ReportLinesRoundTrip(results: seq<BackupResult>, now: Moment)
    ensures DecodeReportLines(ReportLines(results, now))
         == Some(Summary(ReportStamp(now), SuccessCount(results), |results|, results))
  {
    var lines := ReportLines(results, now);
    var stamp, k, n := ReportStamp(now), SuccessCount(results), |results|;
    assert StripPrefix(lines[0], HeaderPrefix) == Some(stamp) by {
      StripPrefixAppend(HeaderPrefix, stamp);
    }
    assert ParseCountLine(lines[1]) == Some((k, n)) by {
      CountLineRoundTrip(k, n);
    }
    assert DecodeBlocks(lines[3..]) == Some(results) by {
      assert lines[3..] == BlockLines(results);
      BlocksRoundTrip(results);
    }
    DecodeReportLinesOf(lines, stamp, k, n, results);
  }

  lemma DecodeReportLinesOf(lines: seq<string>, stamp: string, k: nat, n: nat, results: seq<BackupResult>)
    requires |lines| >= 3 && lines[2] == ""
    requires StripPrefix(lines[0], HeaderPrefix) == Some(stamp)
    requires ParseCountLine(lines[1]) == Some((k, n))
    requires DecodeBlocks(lines[3..]) == Some(results)
    ensures DecodeReportLines(lines) == Some(Summary(stamp, k, n, results))
  {
  }

  /** No database path or message spans lines. */
  predicate SingleLineResults(results: seq<BackupResult>) {
    forall i :: 0 <= i < |results| ==> NoNewline(results[i].path) && NoNewline(results[i].message)
  }

  /** The report text determines the run: read back, it gives the time
      stamp, `k/n` with `k` the successes and `n` the total, and every result
      in order, provided paths and messages are single lines. */
  lemma ReportRoundTrip(results: seq<BackupResult>, now: Moment)
    requires SingleLineResults(results)
    ensures DecodeReport(RenderReport(results, now))
         == Some(Summary(ReportStamp(now), SuccessCount(results), |results|, results))
  {
    var lines := ReportLines(results, now);
    forall i | 0 <= i < |lines| ensures NoNewline(lines[i]) {
      ReportLineSingle(results, now, i);
    }
    SplitUnlines(lines);
    ReportLinesRoundTrip(results, now);
  }

  lemma ReportLineSingle(results: seq<BackupResult>, now: Moment, i: nat)
    requires SingleLineResults(results)
    requires i < |ReportLines(results, now)|
    ensures NoNewline(ReportLines(results, now)[i])
  {
    var lines := ReportLines(results, now);
    if i == 0 {
      FixedTextSingleLine();
      NoNewlineConcat(HeaderPrefix, ReportStamp(now));
    } else if i == 1 {
      CountLineSingle(SuccessCount(results), |results|);
    } else if i == 2 {
      assert lines[2] == "";
    } else {
      assert lines[i] == BlockLines(results)[i - 3];
      BlockLineSingle(results, i - 3);
    }
  }

  /** None of the fixed parts of the report contains a newline. */
  lemma FixedTextSingleLine()
    ensures NoNewline(HeaderPrefix) && NoNewline(CountPrefix) && NoNewline(DatabasePrefix)
    ensures NoNewline(SavedPrefix) && NoNewline(ErrorPrefix)
    ensures NoNewline(StatusLine(true)) && NoNewline(StatusLine(false))
  {
    StatusLines();
  }

  lemma {:induction false} BlockLineSingle(results: seq<BackupResult>, k: nat)
    requires SingleLineResults(results)
    requires k < |BlockLines(results)|
    ensures NoNewline(BlockLines(results)[k])
    decreases k
  {
    var r := results[0];
    if k < 4 {
      assert BlockLines(results)[k] == ResultBlock(r)[k];
      FixedTextSingleLine();
      NoNewlineConcat(DatabasePrefix, r.path);
      NoNewlineConcat(if r.success then SavedPrefix else ErrorPrefix, r.message);
    } else {
      assert BlockLines(results)[k] == BlockLines(results[1..])[k - 4];
      BlockLineSingle(results[1..], k - 4);
    }
  }

  lemma CountLineSingle(successes: nat, total: nat)
    ensures NoNewline(CountLine(successes, total))
  {
    var a, b := NatToDecimal(successes), NatToDecimal(total);
    DigitsSingleLine(a);
    DigitsSingleLine(b);
    FixedTextSingleLine();
    NoNewlineConcat(a, "/");
    NoNewlineConcat(a + "/", b);
    NoNewlineConcat(CountPrefix, a + "/" + b);
  }

  lemma DigitsSingleLine(s: string)
    requires AllDigits(s)
    ensures NoNewline(s)
  {
    forall i | 0 <= i < |s| ensures s[i] != '\n' {
      assert IsDigit(s[i]);
    }
  }

  /** Line `3 + 4i + j` of the report is line `j` of the `i`-th result's block. */
  lemma ReportLineOfBlock(results: seq<BackupResult>, now: Moment, i: nat, j: nat)
    requires i < |results| && j < 4
    ensures ReportLines(results, now)[3 + 4 * i + j] == ResultBlock(results[i])[j]
  {
    BlockAt(results, i, j);
  }

  /** Block `i` of the report names the `i`-th database, says `SUCCESS`
      exactly when it succeeded, and is followed by the artifact path on
      success and the error text on failure. */
  lemma ReportBlockContent(results: seq<BackupResult>, now: Moment, i: nat)
    requires i < |results|
    ensures ReportLines(results, now)[3 + 4 * i] == DatabasePrefix + results[i].path
    ensures ReportLines(results, now)[4 + 4 * i] == StatusLine(true) <==> results[i].success
    ensures ReportLines(results, now)[4 + 4 * i] == StatusLine(false) <==> !results[i].success
    ensures ReportLines(results, now)[5 + 4 * i]
         == (if results[i].success then SavedPrefix else ErrorPrefix) + results[i].message
    ensures ReportLines(results, now)[6 + 4 * i] == ""
  {
    StatusLines();
    ReportLineOfBlock(results, now, i, 0);
    ReportLineOfBlock(results, now, i, 1);
    ReportLineOfBlock(results, now, i, 2);
    ReportLineOfBlock(results, now, i, 3);
  }
}
