/** Wall-clock readings as the script uses them: the `%Y%m%d_%H%M%S` stamp in
    artifact names, the `%Y-%m-%d %H:%M:%S` stamp in the report header, and
    the midnight trigger the polling loop tests once a minute. */
module Clock {
  import opened Text

  datatype DateTime = DateTime(year: int, month: int, day: int, hour: int, minute: int, second: int) {
    /** A calendar date-time that `datetime.now()` can return, restricted to
        the years whose `%Y` is four digits wide. */
    predicate Valid() {
      && 1000 <= year <= 9999
      && 1 <= month <= 12
      && 1 <= day <= DaysInMonth(year, month)
      && 0 <= hour < 24
      && 0 <= minute < 60
      && 0 <= second < 60
    }
  }

  type Moment = t: DateTime | t.Valid() witness DateTime(2000, 1, 1, 0, 0, 0)

  predicate IsLeapYear(y: int) {
    (y % 4 == 0 && y % 100 != 0) || y % 400 == 0
  }

  function DaysInMonth(y: int, m: int): (d: int)
    ensures 28 <= d <= 31
  {
    if m == 2 then (if IsLeapYear(y) then 29 else 28)
    else if m == 4 || m == 6 || m == 9 || m == 11 then 30
    else 31
  }

  // ---------------------------------------------------------------------------
  // Stamps

  /** `strftime('%Y%m%d_%H%M%S')`: fifteen characters, an underscore at
      position 8 and digits everywhere else. */
  function FileStamp(t: Moment): (s: string)
    ensures |s| == 15
    ensures s[8] == '_'
    ensures AllDigits(s[..8]) && AllDigits(s[9..])
  {
    var date := Pad4(t.year) + Pad2(t.month) + Pad2(t.day);
    var time := Pad2(t.hour) + Pad2(t.minute) + Pad2(t.second);
    assert (date + "_" + time)[..8] == date;
    assert (date + "_" + time)[9..] == time;
    date + "_" + time
  }

  /** Reads a file stamp back; `None` for anything `FileStamp` cannot print. */
  function ParseFileStamp(s: string): (r: Option<Moment>)
    ensures r.Some? ==> |s| == 15 && s[8] == '_'
  {
    if |s| != 15 || s[8] != '_' || !AllDigits(s[..8]) || !AllDigits(s[9..]) then None
    else
      var date, time := s[..8], s[9..];
      var t := DateTime(
        DecimalValue(date[..4]), DecimalValue(date[4..6]), DecimalValue(date[6..]),
        DecimalValue(time[..2]), DecimalValue(time[2..4]), DecimalValue(time[4..]));
      if t.Valid() then Some(t) else None
  }

  /** The artifact timestamp determines the moment it was taken. */
  lemma FileStampRoundTrip(t: Moment)
    ensures ParseFileStamp(FileStamp(t)) == Some(t)
  {
    var s := FileStamp(t);
    var date, time := s[..8], s[9..];
    assert date == Pad4(t.year) + Pad2(t.month) + Pad2(t.day);
    assert time == Pad2(t.hour) + Pad2(t.minute) + Pad2(t.second);
    assert date[..4] == Pad4(t.year);
    assert date[4..6] == Pad2(t.month);
    assert date[6..] == Pad2(t.day);
    assert time[..2] == Pad2(t.hour);
    assert time[2..4] == Pad2(t.minute);
    assert time[4..] == Pad2(t.second);
    Pad4Value(t.year);
    Pad2Value(t.month);
    Pad2Value(t.day);
    Pad2Value(t.hour);
    Pad2Value(t.minute);
    Pad2Value(t.second);
  }

  /** Distinct moments give distinct artifact names; two runs collide only
      within the same second. */
  lemma FileStampInjective(t: Moment, u: Moment)
    requires FileStamp(t) == FileStamp(u)
    ensures t == u
  {
    FileStampRoundTrip(t);
    FileStampRoundTrip(u);
  }

  /** `strftime('%Y-%m-%d %H:%M:%S')`, used in the report header: nineteen
      characters on one line, the separators `-`, `-`, ` `, `:`, `:` at
      positions 4, 7, 10, 13 and 16, and digits everywhere else. */
  function ReportStamp(t: Moment): (s: string)
    ensures |s| == 19 && NoNewline(s)
    ensures s[4] == '-' && s[7] == '-' && s[10] == ' ' && s[13] == ':' && s[16] == ':'
    ensures forall i :: 0 <= i < |s| && i != 4 && i != 7 && i != 10 && i != 13 && i != 16 ==> IsDigit(s[i])
  {
    var s := Pad4(t.year) + "-" + Pad2(t.month) + "-" + Pad2(t.day) + " "
      + Pad2(t.hour) + ":" + Pad2(t.minute) + ":" + Pad2(t.second);
    assert s[..4] == Pad4(t.year);
    assert s[5..7] == Pad2(t.month);
    assert s[8..10] == Pad2(t.day);
    assert s[11..13] == Pad2(t.hour);
    assert s[14..16] == Pad2(t.minute);
    assert s[17..] == Pad2(t.second);
    s
  }

  /** Reads a report stamp back; `None` for anything `ReportStamp` cannot print. */
  function ParseReportStamp(s: string): (r: Option<Moment>)
    ensures r.Some? ==> |s| == 19 && s[4] == '-' && s[7] == '-' && s[10] == ' ' && s[13] == ':' && s[16] == ':'
  {
    if |s| != 19 || s[4] != '-' || s[7] != '-' || s[10] != ' ' || s[13] != ':' || s[16] != ':' then None
    else if !AllDigits(s[..4]) || !AllDigits(s[5..7]) || !AllDigits(s[8..10])
         || !AllDigits(s[11..13]) || !AllDigits(s[14..16]) || !AllDigits(s[17..]) then None
    else
      var t := DateTime(
        DecimalValue(s[..4]), DecimalValue(s[5..7]), DecimalValue(s[8..10]),
        DecimalValue(s[11..13]), DecimalValue(s[14..16]), DecimalValue(s[17..]));
      if t.Valid() then Some(t) else None
  }

  /** The report header's time stamp determines the moment it was taken. */
  lemma ReportStampRoundTrip(t: Moment)
    ensures ParseReportStamp(ReportStamp(t)) == Some(t)
  {
    var s := ReportStamp(t);
    assert s == Pad4(t.year) + "-" + Pad2(t.month) + "-" + Pad2(t.day) + " "
      + Pad2(t.hour) + ":" + Pad2(t.minute) + ":" + Pad2(t.second);
    assert s[..4] == Pad4(t.year);
    assert s[5..7] == Pad2(t.month);
    assert s[8..10] == Pad2(t.day);
    assert s[11..13] == Pad2(t.hour);
    assert s[14..16] == Pad2(t.minute);
    assert s[17..] == Pad2(t.second);
    Pad4Value(t.year);
    Pad2Value(t.month);
    Pad2Value(t.day);
    Pad2Value(t.hour);
    Pad2Value(t.minute);
    Pad2Value(t.second);
  }

  // ---------------------------------------------------------------------------
  // Trigger and polling

  const SecondsPerDay: nat := 86400

  /** Time to sleep after a non-triggering poll and after a run. */
  const PollInterval: nat := 60
  const Cooldown: nat := 3600

  /** `now.hour == 0 and now.minute == 0`. */
  predicate IsTriggerTime(t: Moment) {
    t.hour == 0 && t.minute == 0
  }

  function SecondsOfDay(t: Moment): (n: nat)
    ensures n < SecondsPerDay
  {
    t.hour * 3600 + t.minute * 60 + t.second
  }

  /** The trigger is exactly the first minute of the day. */
  lemma TriggerIsFirstMinute(t: Moment)
    ensures IsTriggerTime(t) <==> SecondsOfDay(t) < PollInterval
  {
  }

  /** A poll at absolute second `p` (counting from some midnight) falls in a
      trigger window. */
  predicate InTriggerWindow(p: nat) {
    p % SecondsPerDay < PollInterval
  }

  lemma ModOfOffset(day: nat, r: nat)
    requires r < SecondsPerDay
    ensures (day * SecondsPerDay + r) % SecondsPerDay == r
  {
    var n := day * SecondsPerDay + r;
    assert n / SecondsPerDay == day by {
      assert day * SecondsPerDay <= n < (day + 1) * SecondsPerDay;
    }
  }

  /** After a triggering poll the loop sleeps an hour; no poll from then until
      the next midnight can trigger again. */
  lemma CooldownPreventsRerun(p: nat, q: nat)
    requires InTriggerWindow(p)
    requires p + Cooldown <= q < (p / SecondsPerDay + 1) * SecondsPerDay
    ensures !InTriggerWindow(q)
  {
    var day, r := p / SecondsPerDay, p % SecondsPerDay;
    assert p == day * SecondsPerDay + r;
    assert q == day * SecondsPerDay + (r + (q - p));
    ModOfOffset(day, r + (q - p));
  }

  /** Poll `p` falls in the first minute after midnight number `day`. */
  predicate InWindowOf(p: nat, day: nat) {
    day * SecondsPerDay <= p < day * SecondsPerDay + PollInterval
  }

  /** Consecutive polls strictly increasing and at most a minute apart. */
  predicate PollsAtMostAMinuteApart(polls: seq<nat>) {
    forall i :: 0 < i < |polls| ==> polls[i - 1] < polls[i] <= polls[i - 1] + PollInterval
  }

  /** Polls no more than a minute apart that straddle midnight number `day`
      always land one poll in that midnight's window, and so trigger. */
  lemma {:induction false} PollsCatchMidnight(polls: seq<nat>, day: nat)
    requires PollsAtMostAMinuteApart(polls)
    requires |polls| >= 1
    requires polls[0] < day * SecondsPerDay <= polls[|polls| - 1]
    ensures exists k :: 0 <= k < |polls| && InWindowOf(polls[k], day) && InTriggerWindow(polls[k])
    decreases |polls|
  {
    var n := |polls|;
    if day * SecondsPerDay <= polls[n - 2] {
      var prefix := polls[..n - 1];
      assert PollsAtMostAMinuteApart(prefix) by {
        forall i | 0 < i < |prefix| ensures prefix[i - 1] < prefix[i] <= prefix[i - 1] + PollInterval {
          assert prefix[i - 1] == polls[i - 1] && prefix[i] == polls[i];
        }
      }
      PollsCatchMidnight(prefix, day);
      var k :| 0 <= k < |prefix| && InWindowOf(prefix[k], day) && InTriggerWindow(prefix[k]);
      assert polls[k] == prefix[k];
    } else {
      var last := polls[n - 1];
      assert day * SecondsPerDay <= last < day * SecondsPerDay + PollInterval;
      ModOfOffset(day, last - day * SecondsPerDay);
      assert InWindowOf(polls[n - 1], day) && InTriggerWindow(polls[n - 1]);
    }
  }

  /** The loop sleeps a full minute between polls and then spends time of its
      own, so consecutive polls are slightly more than a minute apart: a gap of
      61 seconds can step over the whole midnight window. */
  lemma MidnightCanBeMissed()
    ensures var polls := [SecondsPerDay - 1, SecondsPerDay + PollInterval];
            polls[1] - polls[0] == PollInterval + 1
            && !InTriggerWindow(polls[0]) && !InTriggerWindow(polls[1])
  {
    ModOfOffset(0, SecondsPerDay - 1);
    ModOfOffset(1, PollInterval);
  }
}
