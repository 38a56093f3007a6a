/**
 * Reporting status of data collectors: which raw reports fall in a reporting
 * window, the status of a group of reports, the bucketing of reports into
 * weeks counted back from "now", the days since the last report, and the
 * performance rows built from them.
 */
module Reporting {
  import opened Common
  import opened Domain

  datatype ReportingStatus = ReportingCorrectly | ReportingWithErrors | NotReporting

  /** What is kept of a raw report once it is in the window: valid or not, and its day. */
  datatype RawReportData = RawReportData(isValid: bool, receivedDay: int)

  /** A performance row: the collector's name, days since its last report, and the statuses of the last eight weeks (index 0 is last week). */
  datatype PerformanceRow = PerformanceRow(name: string, daysSinceLastReport: int, weeklyStatus: seq<ReportingStatus>)

  /** Number of weeks a performance row reports on. */
  const WeeksShown: nat := 8

  /** A raw report counts in the window [fromDay, toDay] when it is flagged as not training and received on a day of the window. */
  predicate InTimeRange(r: RawReport, fromDay: int, toDay: int)
  {
    r.isTraining == Some(false) && fromDay <= r.receivedDay < toDay + 1
  }

  function DataOf(r: RawReport): RawReportData
  {
    RawReportData(r.report.Some?, r.receivedDay)
  }

  /** The reports of a collector that count in the window, in their original order. */
  function ReportsInTimeRange(reports: seq<RawReport>, fromDay: int, toDay: int): (r: seq<RawReportData>)
    ensures |r| <= |reports|
    ensures forall i :: 0 <= i < |r| ==> fromDay <= r[i].receivedDay <= toDay
    ensures forall i :: 0 <= i < |reports| && InTimeRange(reports[i], fromDay, toDay) ==> DataOf(reports[i]) in r
    ensures forall x :: x in r ==> exists i :: 0 <= i < |reports| && InTimeRange(reports[i], fromDay, toDay) && DataOf(reports[i]) == x
  {
    if reports == [] then []
    else
      var rest := ReportsInTimeRange(reports[1..], fromDay, toDay);
      assert forall i :: 1 <= i < |reports| ==> reports[i] == reports[1..][i - 1];
      if InTimeRange(reports[0], fromDay, toDay) then [DataOf(reports[0])] + rest else rest
  }

  /** The window holds one entry per raw report in it, duplicates included. */
  lemma {:induction false} ReportsInTimeRangeCount(reports: seq<RawReport>, fromDay: int, toDay: int)
    ensures |ReportsInTimeRange(reports, fromDay, toDay)| == |IndicesWhere(reports, x => InTimeRange(x, fromDay, toDay))|
  {
    if reports != [] {
      ReportsInTimeRangeCount(reports[1..], fromDay, toDay);
      IndicesWhereCons(reports, x => InTimeRange(x, fromDay, toDay));
    }
  }

  lemma {:induction false} ReportsInTimeRangeEmpty(reports: seq<RawReport>, fromDay: int, toDay: int)
    ensures ReportsInTimeRange(reports, fromDay, toDay) == [] <==>
            forall i :: 0 <= i < |reports| ==> !InTimeRange(reports[i], fromDay, toDay)
  {
    if reports != [] {
      ReportsInTimeRangeEmpty(reports[1..], fromDay, toDay);
      assert forall i :: 1 <= i < |reports| ==> reports[i] == reports[1..][i - 1];
    }
  }

  lemma {:induction false} ReportsInTimeRangeAppend(a: seq<RawReport>, x: RawReport, fromDay: int, toDay: int)
    ensures ReportsInTimeRange(a + [x], fromDay, toDay) ==
            ReportsInTimeRange(a, fromDay, toDay) + (if InTimeRange(x, fromDay, toDay) then [DataOf(x)] else [])
  {
    if a != [] {
      assert (a + [x])[1..] == a[1..] + [x];
      ReportsInTimeRangeAppend(a[1..], x, fromDay, toDay);
    }
  }

  /** Anonymising a collector's reports changes none of what the reporting rules look at. */
  lemma {:induction false} AnonymizedReportsInTimeRange(reports: seq<RawReport>, fromDay: int, toDay: int)
    ensures ReportsInTimeRange(AnonymizedReports(reports), fromDay, toDay) == ReportsInTimeRange(reports, fromDay, toDay)
  {
    if reports != [] {
      assert AnonymizedReports(reports)[1..] == AnonymizedReports(reports[1..]);
      AnonymizedReportsInTimeRange(reports[1..], fromDay, toDay);
    }
  }

  /** Every report of the group is valid. */
  function AllValid(b: seq<RawReportData>): (r: bool)
    ensures r <==> forall i :: 0 <= i < |b| ==> b[i].isValid
  {
    if b == [] then true
    else
      assert forall i :: 1 <= i < |b| ==> b[i] == b[1..][i - 1];
      b[0].isValid && AllValid(b[1..])
  }

  /** The status of a group of reports: none, all valid, or some invalid. */
  function Status(b: seq<RawReportData>): (r: ReportingStatus)
    ensures r == NotReporting <==> b == []
    ensures r == ReportingCorrectly <==> b != [] && forall i :: 0 <= i < |b| ==> b[i].isValid
    ensures r == ReportingWithErrors <==> exists i :: 0 <= i < |b| && !b[i].isValid
  {
    if b == [] then NotReporting
    else if AllValid(b) then ReportingCorrectly
    else ReportingWithErrors
  }

  /** Days between a report's day and today, as whole days; never negative in the window. */
  function DaysAgo(nowDay: int, receivedDay: int): (d: nat)
    requires receivedDay <= nowDay
    ensures receivedDay + d == nowDay
  {
    nowDay - receivedDay
  }

  /** The week bucket of a report: whole days ago divided by seven. */
  function WeekOf(nowDay: int, receivedDay: int): (w: nat)
    requires receivedDay <= nowDay
    ensures 7 * w <= nowDay - receivedDay < 7 * w + 7
  {
    DaysAgo(nowDay, receivedDay) / 7
  }

  /** Every report of the group was received no later than `nowDay`. */
  predicate NotAfter(data: seq<RawReportData>, nowDay: int)
  {
    forall i :: 0 <= i < |data| ==> data[i].receivedDay <= nowDay
  }

  /** The reports of bucket `week`, in their original order. */
  function Bucket(data: seq<RawReportData>, nowDay: int, week: nat): (r: seq<RawReportData>)
    requires NotAfter(data, nowDay)
    ensures forall x :: x in r ==> x in data && x.receivedDay <= nowDay && WeekOf(nowDay, x.receivedDay) == week
    ensures forall i :: 0 <= i < |data| && WeekOf(nowDay, data[i].receivedDay) == week ==> data[i] in r
  {
    if data == [] then []
    else
      assert forall i :: 1 <= i < |data| ==> data[i] == data[1..][i - 1];
      var rest := Bucket(data[1..], nowDay, week);
      if WeekOf(nowDay, data[0].receivedDay) == week then [data[0]] + rest else rest
  }

  lemma {:induction false} BucketAppend(data: seq<RawReportData>, x: RawReportData, nowDay: int, week: nat)
    requires NotAfter(data, nowDay) && x.receivedDay <= nowDay
    ensures NotAfter(data + [x], nowDay)
    ensures Bucket(data + [x], nowDay, week) ==
            Bucket(data, nowDay, week) + (if WeekOf(nowDay, x.receivedDay) == week then [x] else [])
  {
    assert forall i :: 0 <= i < |data| ==> data[i] == (data + [x])[i];
    assert (data + [x])[|data|] == x;
    if data != [] {
      assert (data + [x])[1..] == data[1..] + [x];
      assert forall i :: 1 <= i < |data| ==> data[i] == data[1..][i - 1];
      BucketAppend(data[1..], x, nowDay, week);
    }
  }

  /**
   * The status of week `week` (0 is the last seven days). It is decided by the
   * reports received between 7*week and 7*week+6 whole days ago: none of
   * them, one invalid, or some and all valid.
   */
  function WeekStatus(week: nat, data: seq<RawReportData>, nowDay: int): (st: ReportingStatus)
    requires NotAfter(data, nowDay)
    ensures st == NotReporting <==>
            forall i :: 0 <= i < |data| ==> !(7 * week <= nowDay - data[i].receivedDay < 7 * week + 7)
    ensures st == ReportingWithErrors <==>
            exists i :: 0 <= i < |data| && 7 * week <= nowDay - data[i].receivedDay < 7 * week + 7 && !data[i].isValid
    ensures st == ReportingCorrectly <==>
            (exists i :: 0 <= i < |data| && 7 * week <= nowDay - data[i].receivedDay < 7 * week + 7) &&
            forall i :: 0 <= i < |data| && 7 * week <= nowDay - data[i].receivedDay < 7 * week + 7 ==> data[i].isValid
  {
    BucketMembers(week, data, nowDay);
    Status(Bucket(data, nowDay, week))
  }

  /** A report is in a week's bucket exactly when it falls in that week, and the bucket holds nothing else. */
  lemma BucketMembers(week: nat, data: seq<RawReportData>, nowDay: int)
    requires NotAfter(data, nowDay)
    ensures forall i :: 0 <= i < |data| ==>
              ((7 * week <= nowDay - data[i].receivedDay < 7 * week + 7) <==> data[i] in Bucket(data, nowDay, week))
    ensures forall x :: x in Bucket(data, nowDay, week) ==> exists i :: 0 <= i < |data| && data[i] == x
  {
    var b := Bucket(data, nowDay, week);
    forall i | 0 <= i < |data|
      ensures (7 * week <= nowDay - data[i].receivedDay < 7 * week + 7) <==> data[i] in b
    {
      WeekOfUnique(nowDay, data[i].receivedDay, week);
    }
    forall x | x in b ensures exists i :: 0 <= i < |data| && data[i] == x
    {
      var i :| 0 <= i < |data| && data[i] == x;
    }
  }

  lemma WeekOfUnique(nowDay: int, receivedDay: int, week: nat)
    requires receivedDay <= nowDay
    ensures WeekOf(nowDay, receivedDay) == week <==> 7 * week <= nowDay - receivedDay < 7 * week + 7
  {
    var w := WeekOf(nowDay, receivedDay);
    if w < week {
      assert 7 * w + 7 <= 7 * week;
    } else if w > week {
      assert 7 * week + 7 <= 7 * w;
    }
  }

  /** The day of the most recent report of a non-empty group. */
  function LatestDay(data: seq<RawReportData>): (d: int)
    requires data != []
    ensures exists i :: 0 <= i < |data| && data[i].receivedDay == d
    ensures forall i :: 0 <= i < |data| ==> data[i].receivedDay <= d
  {
    if |data| == 1 then data[0].receivedDay
    else
      var rest := LatestDay(data[1..]);
      assert forall i :: 1 <= i < |data| ==> data[i] == data[1..][i - 1];
      if data[0].receivedDay >= rest then data[0].receivedDay else rest
  }

  /**
   * Days since the most recent report of the group, or -1 when there is none:
   * -1 exactly for an empty group, otherwise the smallest whole-day distance
   * from a report to today.
   */
  function DaysSinceLastReport(data: seq<RawReportData>, nowDay: int): (d: int)
    requires NotAfter(data, nowDay)
    ensures d == -1 <==> data == []
    ensures data != [] ==> d >= 0
    ensures data != [] ==> exists i :: 0 <= i < |data| && d == nowDay - data[i].receivedDay
    ensures forall i :: 0 <= i < |data| ==> d <= nowDay - data[i].receivedDay
  {
    if data == [] then -1 else nowDay - LatestDay(data)
  }

  /** The statuses of weeks 0 to 7 of a group of reports. */
  function WeeklyStatus(data: seq<RawReportData>, nowDay: int): (r: seq<ReportingStatus>)
    requires NotAfter(data, nowDay)
    ensures |r| == WeeksShown
    ensures forall w :: 0 <= w < WeeksShown ==> r[w] == WeekStatus(w, data, nowDay)
  {
    seq(WeeksShown, w requires 0 <= w < WeeksShown => WeekStatus(w, data, nowDay))
  }

  /** The performance row of one collector, over the window [fromDay, nowDay]. */
  function PerformanceOf(dc: DataCollector, fromDay: int, nowDay: int): (row: PerformanceRow)
    ensures row.name == dc.name && |row.weeklyStatus| == WeeksShown
  {
    var data := ReportsInTimeRange(dc.rawReports, fromDay, nowDay);
    PerformanceRow(dc.name, DaysSinceLastReport(data, nowDay), WeeklyStatus(data, nowDay))
  }

  /** The collectors not marked deleted, in order. */
  function NotDeleted(collectors: seq<DataCollector>): (r: seq<DataCollector>)
    ensures forall x :: x in r <==> x in collectors && x.deletedAt.None?
    ensures forall x :: multiset(r)[x] == if x.deletedAt.None? then multiset(collectors)[x] else 0
    ensures IsSubsequence(r, collectors)
  {
    if collectors == [] then []
    else
      assert collectors == [collectors[0]] + collectors[1..];
      var rest := NotDeleted(collectors[1..]);
      if collectors[0].deletedAt.None? then [collectors[0]] + rest else rest
  }

  /** One performance row per collector not marked deleted, in the same order. */
  function Performance(collectors: seq<DataCollector>, fromDay: int, nowDay: int): (rows: seq<PerformanceRow>)
    ensures |rows| == |NotDeleted(collectors)|
    ensures forall i :: 0 <= i < |rows| ==> rows[i] == PerformanceOf(NotDeleted(collectors)[i], fromDay, nowDay)
  {
    var live := NotDeleted(collectors);
    seq(|live|, i requires 0 <= i < |live| => PerformanceOf(live[i], fromDay, nowDay))
  }

  /**
   * Week `w` of a performance row (0 <= w < 8) says NotReporting exactly when
   * the collector has no non-training report in the window received between
   * 7*w and 7*w+6 whole days before today.
   */
  lemma PerformanceWeekNotReporting(dc: DataCollector, fromDay: int, nowDay: int, w: nat)
    requires w < WeeksShown
    ensures PerformanceOf(dc, fromDay, nowDay).weeklyStatus[w] == NotReporting <==>
            forall i :: 0 <= i < |dc.rawReports| && InTimeRange(dc.rawReports[i], fromDay, nowDay) ==>
              !(7 * w <= nowDay - dc.rawReports[i].receivedDay < 7 * w + 7)
  {
    var data := ReportsInTimeRange(dc.rawReports, fromDay, nowDay);
    if PerformanceOf(dc, fromDay, nowDay).weeklyStatus[w] == NotReporting {
      forall i | 0 <= i < |dc.rawReports| && InTimeRange(dc.rawReports[i], fromDay, nowDay)
        ensures !(7 * w <= nowDay - dc.rawReports[i].receivedDay < 7 * w + 7)
      {
        var x := DataOf(dc.rawReports[i]);
        assert x in data;
        var j :| 0 <= j < |data| && data[j] == x;
      }
    }
  }

  /** A raw report in the window has its data at some position of the window. */
  lemma RawReportInWindow(reports: seq<RawReport>, fromDay: int, toDay: int, i: int)
    requires 0 <= i < |reports| && InTimeRange(reports[i], fromDay, toDay)
    ensures exists j :: 0 <= j < |ReportsInTimeRange(reports, fromDay, toDay)|
                        && ReportsInTimeRange(reports, fromDay, toDay)[j] == DataOf(reports[i])
  {
    var data := ReportsInTimeRange(reports, fromDay, toDay);
    assert DataOf(reports[i]) in data;
  }

  /** Every position of the window holds the data of some raw report in the window. */
  lemma WindowEntryFromRawReport(reports: seq<RawReport>, fromDay: int, toDay: int, j: int)
    requires 0 <= j < |ReportsInTimeRange(reports, fromDay, toDay)|
    ensures exists i :: 0 <= i < |reports| && InTimeRange(reports[i], fromDay, toDay)
                        && DataOf(reports[i]) == ReportsInTimeRange(reports, fromDay, toDay)[j]
  {
    var data := ReportsInTimeRange(reports, fromDay, toDay);
    assert data[j] in data;
  }
  /**
   * Week `w` of a performance row says ReportingWithErrors exactly when the
   * collector has an invalid non-training report in the window received in
   * that week.
   */
  lemma PerformanceWeekWithErrors(dc: DataCollector, fromDay: int, nowDay: int, w: nat)
    requires w < WeeksShown
    ensures PerformanceOf(dc, fromDay, nowDay).weeklyStatus[w] == ReportingWithErrors <==>
            exists i :: 0 <= i < |dc.rawReports| && InTimeRange(dc.rawReports[i], fromDay, nowDay)
                        && 7 * w <= nowDay - dc.rawReports[i].receivedDay < 7 * w + 7 && dc.rawReports[i].report.None?
  {
    WindowHasInvalidInWeek(dc.rawReports, fromDay, nowDay, w);
  }

  /** The window holds an invalid report of week `w` exactly when some raw report in the window is one. */
  lemma WindowHasInvalidInWeek(reports: seq<RawReport>, fromDay: int, nowDay: int, w: nat)
    ensures (exists j :: 0 <= j < |ReportsInTimeRange(reports, fromDay, nowDay)|
                         && 7 * w <= nowDay - ReportsInTimeRange(reports, fromDay, nowDay)[j].receivedDay < 7 * w + 7
                         && !ReportsInTimeRange(reports, fromDay, nowDay)[j].isValid) <==>
            exists i :: 0 <= i < |reports| && InTimeRange(reports[i], fromDay, nowDay)
                        && 7 * w <= nowDay - reports[i].receivedDay < 7 * w + 7 && reports[i].report.None?
  {
    var data := ReportsInTimeRange(reports, fromDay, nowDay);
    forall j | 0 <= j < |data| && 7 * w <= nowDay - data[j].receivedDay < 7 * w + 7 && !data[j].isValid
      ensures exists i :: 0 <= i < |reports| && InTimeRange(reports[i], fromDay, nowDay)
                          && 7 * w <= nowDay - reports[i].receivedDay < 7 * w + 7 && reports[i].report.None?
    {
      WindowEntryFromRawReport(reports, fromDay, nowDay, j);
      var i :| 0 <= i < |reports| && InTimeRange(reports[i], fromDay, nowDay) && DataOf(reports[i]) == data[j];
      assert reports[i].report.None?;
    }
    forall i | 0 <= i < |reports| && InTimeRange(reports[i], fromDay, nowDay)
               && 7 * w <= nowDay - reports[i].receivedDay < 7 * w + 7 && reports[i].report.None?
      ensures exists j :: 0 <= j < |data| && 7 * w <= nowDay - data[j].receivedDay < 7 * w + 7 && !data[j].isValid
    {
      RawReportInWindow(reports, fromDay, nowDay, i);
      var j :| 0 <= j < |data| && data[j] == DataOf(reports[i]);
      assert !data[j].isValid;
    }
  }


  /**
   * Week `w` of a performance row says ReportingCorrectly exactly when the
   * collector has non-training reports in the window received in that week
   * and all of them are valid.
   */
  lemma PerformanceWeekCorrectly(dc: DataCollector, fromDay: int, nowDay: int, w: nat)
    requires w < WeeksShown
    ensures PerformanceOf(dc, fromDay, nowDay).weeklyStatus[w] == ReportingCorrectly <==>
            (exists i :: 0 <= i < |dc.rawReports| && InTimeRange(dc.rawReports[i], fromDay, nowDay)
                         && 7 * w <= nowDay - dc.rawReports[i].receivedDay < 7 * w + 7)
            && forall i :: (0 <= i < |dc.rawReports| && InTimeRange(dc.rawReports[i], fromDay, nowDay)
                            && 7 * w <= nowDay - dc.rawReports[i].receivedDay < 7 * w + 7) ==> dc.rawReports[i].report.Some?
  {
    PerformanceWeekNotReporting(dc, fromDay, nowDay, w);
    PerformanceWeekWithErrors(dc, fromDay, nowDay, w);
  }

  /** Days since the last report is -1 exactly when no report counts in the window. */
  lemma PerformanceDaysSinceLastReport(dc: DataCollector, fromDay: int, nowDay: int)
    ensures PerformanceOf(dc, fromDay, nowDay).daysSinceLastReport == -1 <==>
            forall i :: 0 <= i < |dc.rawReports| ==> !InTimeRange(dc.rawReports[i], fromDay, nowDay)
    ensures PerformanceOf(dc, fromDay, nowDay).daysSinceLastReport >= -1
  {
    ReportsInTimeRangeEmpty(dc.rawReports, fromDay, nowDay);
  }

  /** A report received eight weeks ago or earlier changes none of the statuses of weeks 0 to 7. */
  lemma WeekStatusIgnoresOlder(data: seq<RawReportData>, y: RawReportData, nowDay: int, w: nat)
    requires NotAfter(data, nowDay) && y.receivedDay <= nowDay - 7 * WeeksShown && w < WeeksShown
    ensures NotAfter(data + [y], nowDay)
    ensures WeekStatus(w, data + [y], nowDay) == WeekStatus(w, data, nowDay)
  {
    BucketAppend(data, y, nowDay, w);
    assert WeekOf(nowDay, y.receivedDay) >= WeeksShown;
  }

  lemma WeeklyStatusIgnoresOlder(data: seq<RawReportData>, y: RawReportData, nowDay: int)
    requires NotAfter(data, nowDay) && y.receivedDay <= nowDay - 7 * WeeksShown
    ensures NotAfter(data + [y], nowDay)
    ensures WeeklyStatus(data + [y], nowDay) == WeeklyStatus(data, nowDay)
  {
    forall w | 0 <= w < WeeksShown
      ensures WeeklyStatus(data + [y], nowDay)[w] == WeeklyStatus(data, nowDay)[w]
    {
      WeekStatusIgnoresOlder(data, y, nowDay, w);
    }
  }

  /**
   * Reports older than eight weeks take no part in the weekly statuses: adding
   * one to a collector leaves all eight statuses as they were.
   */
  lemma OlderReportsIgnored(dc: DataCollector, x: RawReport, fromDay: int, nowDay: int)
    requires x.receivedDay <= nowDay - 7 * WeeksShown
    ensures PerformanceOf(dc.(rawReports := dc.rawReports + [x]), fromDay, nowDay).weeklyStatus ==
            PerformanceOf(dc, fromDay, nowDay).weeklyStatus
  {
    var reports := dc.rawReports + [x];
    var data := ReportsInTimeRange(dc.rawReports, fromDay, nowDay);
    var data' := ReportsInTimeRange(reports, fromDay, nowDay);
    ReportsInTimeRangeAppend(dc.rawReports, x, fromDay, nowDay);
    if InTimeRange(x, fromDay, nowDay) {
      assert data' == data + [DataOf(x)];
      WeeklyStatusIgnoresOlder(data, DataOf(x), nowDay);
      assert WeeklyStatus(data', nowDay) == WeeklyStatus(data, nowDay);
    } else {
      assert data' == data + [];
      assert data' == data;
    }
    assert WeeklyStatus(data', nowDay) == WeeklyStatus(data, nowDay);
  }

  /** Anonymising a collector leaves its performance row's days and statuses unchanged. */
  lemma AnonymizedPerformance(dc: DataCollector, now: int, fromDay: int, nowDay: int)
    ensures PerformanceOf(Anonymized(dc, now), fromDay, nowDay).daysSinceLastReport == PerformanceOf(dc, fromDay, nowDay).daysSinceLastReport
    ensures PerformanceOf(Anonymized(dc, now), fromDay, nowDay).weeklyStatus == PerformanceOf(dc, fromDay, nowDay).weeklyStatus
  {
    AnonymizedReportsInTimeRange(dc.rawReports, fromDay, nowDay);
  }
}
