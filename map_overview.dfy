/**
 * The map overview: per location, how many data collectors are not reporting
 * and how many valid and invalid reports the reporting ones sent in the window;
 * and the per-location detail list with each collector's status.
 */
module MapOverview {
  import opened Common
  import opened Domain
  import Reporting

  /** One collector's contribution before grouping by location. */
  datatype Entry = Entry(location: LocationKey, invalidReport: int, validReport: int, noReport: int)

  /** The sums shown for one location. */
  datatype LocationCounts = LocationCounts(countReportingCorrectly: int, countReportingWithErrors: int, countNotReporting: int)

  /** A row of the detail list for one location. */
  datatype DetailRow = DetailRow(id: nat, displayName: string, status: Reporting.ReportingStatus)

  /** A collector takes part when it was created before the end of the window's last day and is not deleted. */
  predicate Counted(dc: DataCollector, toDay: int)
  {
    dc.createdAt < toDay + 1 && dc.deletedAt.None?
  }

  predicate HasReportsInRange(dc: DataCollector, fromDay: int, toDay: int)
  {
    exists i :: 0 <= i < |dc.rawReports| && Reporting.InTimeRange(dc.rawReports[i], fromDay, toDay)
  }

  /** A report in the window that is valid (`valid`) or invalid (`!valid`). */
  predicate Matches(r: RawReport, fromDay: int, toDay: int, valid: bool)
  {
    Reporting.InTimeRange(r, fromDay, toDay) && r.report.Some? == valid
  }

  /** Number of reports in the window that are valid (`valid`) or invalid (`!valid`). */
  function CountReports(reports: seq<RawReport>, fromDay: int, toDay: int, valid: bool): (n: nat)
    ensures n == |IndicesWhere(reports, r => Matches(r, fromDay, toDay, valid))|
    ensures n > 0 <==> exists i :: 0 <= i < |reports| && Reporting.InTimeRange(reports[i], fromDay, toDay) && reports[i].report.Some? == valid
  {
    if reports == [] then 0
    else
      assert forall i :: 1 <= i < |reports| ==> reports[i] == reports[1..][i - 1];
      IndicesWhereCons(reports, r => Matches(r, fromDay, toDay, valid));
      (if Matches(reports[0], fromDay, toDay, valid) then 1 else 0)
        + CountReports(reports[1..], fromDay, toDay, valid)
  }

  /** The "not reporting" rows: one per counted collector without a report in the window. */
  function NoReportEntries(dcs: seq<DataCollector>, fromDay: int, toDay: int): seq<Entry>
  {
    if dcs == [] then []
    else
      var rest := NoReportEntries(dcs[1..], fromDay, toDay);
      if Counted(dcs[0], toDay) && !HasReportsInRange(dcs[0], fromDay, toDay)
      then [Entry(dcs[0].location, 0, 0, 1)] + rest
      else rest
  }

  /** Whether a collector gives a "reporting" row: counted, not anonymised, in the project, with a report in the window. */
  predicate IsReportingRow(dc: DataCollector, projectId: nat, fromDay: int, toDay: int)
  {
    Counted(dc, toDay) && dc.name != AnonymizationText && HasReportsInRange(dc, fromDay, toDay) && dc.projectId == projectId
  }

  /** The "reporting" rows: one per reporting collector with its invalid and valid report counts. */
  function WithReportEntries(dcs: seq<DataCollector>, projectId: nat, fromDay: int, toDay: int): seq<Entry>
  {
    if dcs == [] then []
    else
      var rest := WithReportEntries(dcs[1..], projectId, fromDay, toDay);
      if IsReportingRow(dcs[0], projectId, fromDay, toDay)
      then [Entry(dcs[0].location,
                  CountReports(dcs[0].rawReports, fromDay, toDay, false),
                  CountReports(dcs[0].rawReports, fromDay, toDay, true),
                  0)] + rest
      else rest
  }

  function Plus(a: LocationCounts, b: LocationCounts): LocationCounts
  {
    LocationCounts(a.countReportingCorrectly + b.countReportingCorrectly,
                   a.countReportingWithErrors + b.countReportingWithErrors,
                   a.countNotReporting + b.countNotReporting)
  }

  function CountsOf(e: Entry): LocationCounts
  {
    LocationCounts(e.validReport, e.invalidReport, e.noReport)
  }

  /** The sums of the entries at location `l`: the reference definition of grouping. */
  function SumAt(entries: seq<Entry>, l: LocationKey): LocationCounts
  {
    if entries == [] then LocationCounts(0, 0, 0)
    else Plus(if entries[0].location == l then CountsOf(entries[0]) else LocationCounts(0, 0, 0), SumAt(entries[1..], l))
  }

  function Lookup(m: map<LocationKey, LocationCounts>, l: LocationKey): LocationCounts
  {
    if l in m then m[l] else LocationCounts(0, 0, 0)
  }

  /**
   * Grouping by location: one element per location that has an entry, holding
   * the sums of its entries.
   */
  function GroupByLocation(entries: seq<Entry>): map<LocationKey, LocationCounts>
  {
    if entries == [] then map[]
    else
      var m := GroupByLocation(entries[1..]);
      m[entries[0].location := Plus(CountsOf(entries[0]), Lookup(m, entries[0].location))]
  }

  /** Looking a location up in the grouping gives the sums of its entries (zero when it has none). */
  lemma {:induction false} GroupByLocationLookup(entries: seq<Entry>, l: LocationKey)
    ensures Lookup(GroupByLocation(entries), l) == SumAt(entries, l)
  {
    if entries != [] {
      var e, m := entries[0], GroupByLocation(entries[1..]);
      var rest := SumAt(entries[1..], l);
      GroupByLocationLookup(entries[1..], l);
      assert GroupByLocation(entries) == m[e.location := Plus(CountsOf(e), Lookup(m, e.location))];
      if e.location == l {
        assert SumAt(entries, l) == Plus(CountsOf(e), rest);
      } else {
        assert SumAt(entries, l) == Plus(LocationCounts(0, 0, 0), rest);
        PlusZero(rest);
      }
    }
  }

  lemma PlusZero(x: LocationCounts)
    ensures Plus(LocationCounts(0, 0, 0), x) == x
  {
    var LocationCounts(a, b, c) := x;
    assert Plus(LocationCounts(0, 0, 0), x) == LocationCounts(0 + a, 0 + b, 0 + c);
  }

  /** The grouping has a group exactly for the locations that have an entry. */
  lemma {:induction false} GroupByLocationKeys(entries: seq<Entry>, l: LocationKey)
    ensures l in GroupByLocation(entries) <==> exists i :: 0 <= i < |entries| && entries[i].location == l
  {
    if entries != [] {
      GroupByLocationKeys(entries[1..], l);
      if exists i :: 0 <= i < |entries[1..]| && entries[1..][i].location == l {
        var i :| 0 <= i < |entries[1..]| && entries[1..][i].location == l;
        assert entries[i + 1].location == l;
      }
      if exists i :: 0 <= i < |entries| && entries[i].location == l {
        var i :| 0 <= i < |entries| && entries[i].location == l;
        if i > 0 {
          assert entries[1..][i - 1].location == l;
        }
      }
    }
  }

  lemma {:induction false} SumAtAppend(a: seq<Entry>, b: seq<Entry>, l: LocationKey)
    ensures SumAt(a + b, l) == Plus(SumAt(a, l), SumAt(b, l))
  {
    if a == [] {
      assert a + b == b;
      PlusZero(SumAt(b, l));
    } else {
      var h := if a[0].location == l then CountsOf(a[0]) else LocationCounts(0, 0, 0);
      assert (a + b)[0] == a[0];
      assert (a + b)[1..] == a[1..] + b;
      assert SumAt(a + b, l) == Plus(h, SumAt(a[1..] + b, l));
      SumAtAppend(a[1..], b, l);
      assert SumAt(a, l) == Plus(h, SumAt(a[1..], l));
      PlusAssociative(h, SumAt(a[1..], l), SumAt(b, l));
    }
  }

  lemma PlusAssociative(x: LocationCounts, y: LocationCounts, z: LocationCounts)
    ensures Plus(Plus(x, y), z) == Plus(x, Plus(y, z))
  {
    var LocationCounts(x1, x2, x3) := x;
    var LocationCounts(y1, y2, y3) := y;
    var LocationCounts(z1, z2, z3) := z;
    assert Plus(Plus(x, y), z) == LocationCounts(x1 + y1 + z1, x2 + y2 + z2, x3 + y3 + z3);
  }

  /** The elements of `s` without repetitions, each at its first place: what a set union leaves. */
  function Distinct(s: seq<Entry>): (r: seq<Entry>)
    ensures forall x :: x in r <==> x in s
    ensures forall i, j :: 0 <= i < j < |r| ==> r[i] != r[j]
  {
    if s == [] then []
    else
      var r := Distinct(s[..|s| - 1]);
      assert forall x :: x in s <==> x in s[..|s| - 1] || x == s[|s| - 1];
      if s[|s| - 1] in r then r else r + [s[|s| - 1]]
  }

  /** Whether a collector gives a row of either kind: a "reporting" row, or a "not reporting" one. */
  predicate GivesRow(dc: DataCollector, projectId: nat, fromDay: int, toDay: int)
  {
    IsReportingRow(dc, projectId, fromDay, toDay) || (Counted(dc, toDay) && !HasReportsInRange(dc, fromDay, toDay))
  }

  /**
   * The map overview as the source computes it: a set union of the two row
   * kinds, then grouping. It shows exactly the locations of the collectors
   * that give a row.
   */
  function MapOverviewAsWritten(dcs: seq<DataCollector>, projectId: nat, fromDay: int, toDay: int): (m: map<LocationKey, LocationCounts>)
    ensures forall l :: l in m <==> exists i :: 0 <= i < |dcs| && dcs[i].location == l && GivesRow(dcs[i], projectId, fromDay, toDay)
  {
    var entries := WithReportEntries(dcs, projectId, fromDay, toDay) + NoReportEntries(dcs, fromDay, toDay);
    assert forall l :: l in GroupByLocation(Distinct(entries)) <==>
                       exists i :: 0 <= i < |dcs| && dcs[i].location == l && GivesRow(dcs[i], projectId, fromDay, toDay) by {
      forall l ensures l in GroupByLocation(Distinct(entries)) <==>
                       exists i :: 0 <= i < |dcs| && dcs[i].location == l && GivesRow(dcs[i], projectId, fromDay, toDay) {
        GroupByLocationKeys(Distinct(entries), l);
        HasEntryAt(Distinct(entries), entries, l);
        EntriesLocated(dcs, projectId, fromDay, toDay, l);
      }
    }
    GroupByLocation(Distinct(entries))
  }

  /**
   * The map overview as intended: every collector's row is kept, then
   * grouping. It shows exactly the locations of the collectors that give a row.
   */
  function MapOverview(dcs: seq<DataCollector>, projectId: nat, fromDay: int, toDay: int): (m: map<LocationKey, LocationCounts>)
    ensures forall l :: l in m <==> exists i :: 0 <= i < |dcs| && dcs[i].location == l && GivesRow(dcs[i], projectId, fromDay, toDay)
  {
    var entries := WithReportEntries(dcs, projectId, fromDay, toDay) + NoReportEntries(dcs, fromDay, toDay);
    assert forall l :: l in GroupByLocation(entries) <==>
                       exists i :: 0 <= i < |dcs| && dcs[i].location == l && GivesRow(dcs[i], projectId, fromDay, toDay) by {
      forall l ensures l in GroupByLocation(entries) <==>
                       exists i :: 0 <= i < |dcs| && dcs[i].location == l && GivesRow(dcs[i], projectId, fromDay, toDay) {
        GroupByLocationKeys(entries, l);
        HasEntryAt(entries, entries, l);
        EntriesLocated(dcs, projectId, fromDay, toDay, l);
      }
    }
    GroupByLocation(entries)
  }

  /** Two sequences with the same elements have an entry at the same locations. */
  lemma HasEntryAt(s: seq<Entry>, t: seq<Entry>, l: LocationKey)
    requires forall x :: x in s <==> x in t
    ensures (exists i :: 0 <= i < |s| && s[i].location == l) <==> (exists e :: e in t && e.location == l)
  {
    if exists i :: 0 <= i < |s| && s[i].location == l {
      var i :| 0 <= i < |s| && s[i].location == l;
      assert s[i] in t;
    }
    if exists e :: e in t && e.location == l {
      var e :| e in t && e.location == l;
      assert e in s;
      var i :| 0 <= i < |s| && s[i] == e;
    }
  }

  /** The two row kinds have an entry at `l` exactly when a collector there gives a row. */
  lemma EntriesLocated(dcs: seq<DataCollector>, projectId: nat, fromDay: int, toDay: int, l: LocationKey)
    ensures (exists e :: e in WithReportEntries(dcs, projectId, fromDay, toDay) + NoReportEntries(dcs, fromDay, toDay) && e.location == l)
            <==> exists i :: 0 <= i < |dcs| && dcs[i].location == l && GivesRow(dcs[i], projectId, fromDay, toDay)
  {
    WithReportEntriesLocated(dcs, projectId, fromDay, toDay, l);
    NoReportEntriesLocated(dcs, fromDay, toDay, l);
  }

  /** The "reporting" rows have an entry at `l` exactly when a reporting collector is there. */
  lemma {:induction false} WithReportEntriesLocated(dcs: seq<DataCollector>, projectId: nat, fromDay: int, toDay: int, l: LocationKey)
    ensures (exists e :: e in WithReportEntries(dcs, projectId, fromDay, toDay) && e.location == l)
            <==> exists i :: 0 <= i < |dcs| && dcs[i].location == l && IsReportingRow(dcs[i], projectId, fromDay, toDay)
  {
    if dcs != [] {
      var w, w' := WithReportEntries(dcs, projectId, fromDay, toDay), WithReportEntries(dcs[1..], projectId, fromDay, toDay);
      WithReportEntriesLocated(dcs[1..], projectId, fromDay, toDay, l);
      var head := IsReportingRow(dcs[0], projectId, fromDay, toDay);
      assert head ==> w == [w[0]] + w' && w[0].location == dcs[0].location;
      assert !head ==> w == w';
      if exists i :: 0 <= i < |dcs| && dcs[i].location == l && IsReportingRow(dcs[i], projectId, fromDay, toDay) {
        var i :| 0 <= i < |dcs| && dcs[i].location == l && IsReportingRow(dcs[i], projectId, fromDay, toDay);
        if i == 0 {
          assert w[0] in w;
        } else {
          assert dcs[1..][i - 1] == dcs[i];
          var e :| e in w' && e.location == l;
          assert e in w;
        }
      }
      if exists e :: e in w && e.location == l {
        var e :| e in w && e.location == l;
        if head && e == w[0] {
          assert dcs[0].location == l;
        } else {
          assert e in w';
          var j :| 0 <= j < |dcs[1..]| && dcs[1..][j].location == l && IsReportingRow(dcs[1..][j], projectId, fromDay, toDay);
          assert dcs[j + 1] == dcs[1..][j];
        }
      }
    }
  }

  /** The "not reporting" rows have an entry at `l` exactly when a counted collector without reports is there. */
  lemma {:induction false} NoReportEntriesLocated(dcs: seq<DataCollector>, fromDay: int, toDay: int, l: LocationKey)
    ensures (exists e :: e in NoReportEntries(dcs, fromDay, toDay) && e.location == l)
            <==> exists i :: 0 <= i < |dcs| && dcs[i].location == l && Counted(dcs[i], toDay) && !HasReportsInRange(dcs[i], fromDay, toDay)
  {
    if dcs != [] {
      var n, n' := NoReportEntries(dcs, fromDay, toDay), NoReportEntries(dcs[1..], fromDay, toDay);
      NoReportEntriesLocated(dcs[1..], fromDay, toDay, l);
      var head := Counted(dcs[0], toDay) && !HasReportsInRange(dcs[0], fromDay, toDay);
      assert head ==> n == [n[0]] + n' && n[0].location == dcs[0].location;
      assert !head ==> n == n';
      if exists i :: 0 <= i < |dcs| && dcs[i].location == l && Counted(dcs[i], toDay) && !HasReportsInRange(dcs[i], fromDay, toDay) {
        var i :| 0 <= i < |dcs| && dcs[i].location == l && Counted(dcs[i], toDay) && !HasReportsInRange(dcs[i], fromDay, toDay);
        if i == 0 {
          assert n[0] in n;
        } else {
          assert dcs[1..][i - 1] == dcs[i];
          var e :| e in n' && e.location == l;
          assert e in n;
        }
      }
      if exists e :: e in n && e.location == l {
        var e :| e in n && e.location == l;
        if head && e == n[0] {
          assert dcs[0].location == l;
        } else {
          assert e in n';
          var j :| 0 <= j < |dcs[1..]| && dcs[1..][j].location == l && Counted(dcs[1..][j], toDay) && !HasReportsInRange(dcs[1..][j], fromDay, toDay);
          assert dcs[j + 1] == dcs[1..][j];
        }
      }
    }
  }

  /** Number of counted collectors at `l` with no report in the window. */
  function NotReportingAt(dcs: seq<DataCollector>, l: LocationKey, fromDay: int, toDay: int): nat
  {
    if dcs == [] then 0
    else
      (if dcs[0].location == l && Counted(dcs[0], toDay) && !HasReportsInRange(dcs[0], fromDay, toDay) then 1 else 0)
        + NotReportingAt(dcs[1..], l, fromDay, toDay)
  }

  /** Number of valid (`valid`) or invalid reports in the window sent by the reporting collectors at `l`. */
  function ReportsAt(dcs: seq<DataCollector>, projectId: nat, l: LocationKey, fromDay: int, toDay: int, valid: bool): nat
  {
    if dcs == [] then 0
    else
      (if dcs[0].location == l && IsReportingRow(dcs[0], projectId, fromDay, toDay)
       then CountReports(dcs[0].rawReports, fromDay, toDay, valid) else 0)
        + ReportsAt(dcs[1..], projectId, l, fromDay, toDay, valid)
  }

  /** The sums of a sequence with one more entry in front. */
  lemma SumAtCons(e: Entry, rest: seq<Entry>, l: LocationKey)
    ensures SumAt([e] + rest, l) == Plus(if e.location == l then CountsOf(e) else LocationCounts(0, 0, 0), SumAt(rest, l))
  {
    assert ([e] + rest)[0] == e;
    assert ([e] + rest)[1..] == rest;
  }

  /** One more "not reporting" row adds one at its location and nothing elsewhere. */
  lemma SumAtConsIdle(e: Entry, rest: seq<Entry>, l: LocationKey, k: int)
    requires e.invalidReport == 0 && e.validReport == 0 && e.noReport == 1
    requires SumAt(rest, l) == LocationCounts(0, 0, k)
    ensures SumAt([e] + rest, l) == LocationCounts(0, 0, (if e.location == l then 1 else 0) + k)
  {
    SumAtCons(e, rest, l);
    var s := SumAt([e] + rest, l);
    assert s.countReportingCorrectly == 0;
    assert s.countReportingWithErrors == 0;
    assert s.countNotReporting == (if e.location == l then 1 else 0) + k;
  }

  /** One more "reporting" row adds its report counts at its location and nothing elsewhere. */
  lemma SumAtConsReporting(e: Entry, rest: seq<Entry>, l: LocationKey, v: int, i: int)
    requires e.noReport == 0
    requires SumAt(rest, l) == LocationCounts(v, i, 0)
    ensures SumAt([e] + rest, l) == LocationCounts((if e.location == l then e.validReport else 0) + v,
                                                   (if e.location == l then e.invalidReport else 0) + i, 0)
  {
    SumAtCons(e, rest, l);
    var s := SumAt([e] + rest, l);
    assert s.countReportingCorrectly == (if e.location == l then e.validReport else 0) + v;
    assert s.countReportingWithErrors == (if e.location == l then e.invalidReport else 0) + i;
    assert s.countNotReporting == 0;
  }

  lemma {:induction false} NoReportEntriesSum(dcs: seq<DataCollector>, l: LocationKey, fromDay: int, toDay: int)
    ensures SumAt(NoReportEntries(dcs, fromDay, toDay), l) == LocationCounts(0, 0, NotReportingAt(dcs, l, fromDay, toDay))
  {
    if dcs != [] {
      var dc, rest := dcs[0], NoReportEntries(dcs[1..], fromDay, toDay);
      var k := NotReportingAt(dcs[1..], l, fromDay, toDay);
      NoReportEntriesSum(dcs[1..], l, fromDay, toDay);
      if Counted(dc, toDay) && !HasReportsInRange(dc, fromDay, toDay) {
        var e := Entry(dc.location, 0, 0, 1);
        assert NoReportEntries(dcs, fromDay, toDay) == [e] + rest;
        assert NotReportingAt(dcs, l, fromDay, toDay) == (if e.location == l then 1 else 0) + k;
        SumAtConsIdle(e, rest, l, k);
      } else {
        assert NoReportEntries(dcs, fromDay, toDay) == rest;
        assert NotReportingAt(dcs, l, fromDay, toDay) == k;
      }
    }
  }

  lemma {:induction false} WithReportEntriesSum(dcs: seq<DataCollector>, projectId: nat, l: LocationKey, fromDay: int, toDay: int)
    ensures SumAt(WithReportEntries(dcs, projectId, fromDay, toDay), l) ==
            LocationCounts(ReportsAt(dcs, projectId, l, fromDay, toDay, true), ReportsAt(dcs, projectId, l, fromDay, toDay, false), 0)
  {
    if dcs != [] {
      var dc, rest := dcs[0], WithReportEntries(dcs[1..], projectId, fromDay, toDay);
      var v, i := ReportsAt(dcs[1..], projectId, l, fromDay, toDay, true), ReportsAt(dcs[1..], projectId, l, fromDay, toDay, false);
      WithReportEntriesSum(dcs[1..], projectId, l, fromDay, toDay);
      if IsReportingRow(dc, projectId, fromDay, toDay) {
        var e := Entry(dc.location, CountReports(dc.rawReports, fromDay, toDay, false), CountReports(dc.rawReports, fromDay, toDay, true), 0);
        assert WithReportEntries(dcs, projectId, fromDay, toDay) == [e] + rest;
        assert ReportsAt(dcs, projectId, l, fromDay, toDay, true) == (if e.location == l then e.validReport else 0) + v;
        assert ReportsAt(dcs, projectId, l, fromDay, toDay, false) == (if e.location == l then e.invalidReport else 0) + i;
        SumAtConsReporting(e, rest, l, v, i);
      } else {
        assert WithReportEntries(dcs, projectId, fromDay, toDay) == rest;
        assert ReportsAt(dcs, projectId, l, fromDay, toDay, true) == v;
        assert ReportsAt(dcs, projectId, l, fromDay, toDay, false) == i;
      }
    }
  }

  /**
   * At every location the overview shows the number of counted collectors
   * without a report in the window, and the numbers of valid and invalid
   * reports sent by the reporting collectors there.
   */
  lemma MapOverviewCounts(dcs: seq<DataCollector>, projectId: nat, fromDay: int, toDay: int, l: LocationKey)
    ensures Lookup(MapOverview(dcs, projectId, fromDay, toDay), l) ==
            LocationCounts(ReportsAt(dcs, projectId, l, fromDay, toDay, true),
                           ReportsAt(dcs, projectId, l, fromDay, toDay, false),
                           NotReportingAt(dcs, l, fromDay, toDay))
  {
    var w := WithReportEntries(dcs, projectId, fromDay, toDay);
    var n := NoReportEntries(dcs, fromDay, toDay);
    GroupedSumOfTwo(w, n, l);
    WithReportEntriesSum(dcs, projectId, l, fromDay, toDay);
    NoReportEntriesSum(dcs, l, fromDay, toDay);
    var valid, invalid, idle := ReportsAt(dcs, projectId, l, fromDay, toDay, true),
                                ReportsAt(dcs, projectId, l, fromDay, toDay, false),
                                NotReportingAt(dcs, l, fromDay, toDay);
    assert Plus(LocationCounts(valid, invalid, 0), LocationCounts(0, 0, idle)) == LocationCounts(valid + 0, invalid + 0, 0 + idle);
  }

  /** Grouping two row lists together sums their counts at each location. */
  lemma GroupedSumOfTwo(w: seq<Entry>, n: seq<Entry>, l: LocationKey)
    ensures Lookup(GroupByLocation(w + n), l) == Plus(SumAt(w, l), SumAt(n, l))
  {
    SumAtAppend(w, n, l);
    GroupByLocationLookup(w + n, l);
  }

  /**
   * A counted collector that is in the project and not anonymised gives
   * exactly one row, of one of the two kinds; an uncounted one gives none.
   */
  lemma EachCollectorOneRow(dc: DataCollector, projectId: nat, fromDay: int, toDay: int)
    ensures Counted(dc, toDay) && dc.name != AnonymizationText && dc.projectId == projectId ==>
            |WithReportEntries([dc], projectId, fromDay, toDay)| + |NoReportEntries([dc], fromDay, toDay)| == 1
    ensures !Counted(dc, toDay) ==>
            |WithReportEntries([dc], projectId, fromDay, toDay)| + |NoReportEntries([dc], fromDay, toDay)| == 0
  {
    assert [dc][1..] == [];
  }

  /** A not-reporting collector created on day 0 at location 0, in project 1. */
  function Idle(id: nat): DataCollector
  {
    DataCollector(id, "A", "A", "1", "", 1990, 0, Human, 0, 1, None, 1, 1, 0, false, None, [])
  }

  /**
   * Two not-reporting collectors at the same location give two identical rows;
   * the set union keeps one of them, so the location shows one collector not
   * reporting instead of two.
   */
  lemma MapOverviewUnionCollapsesRows()
    ensures NotReportingAt([Idle(1), Idle(2)], 0, 0, 10) == 2
    ensures Lookup(MapOverview([Idle(1), Idle(2)], 1, 0, 10), 0).countNotReporting == 2
    ensures Lookup(MapOverviewAsWritten([Idle(1), Idle(2)], 1, 0, 10), 0).countNotReporting == 1
  {
    var dcs := [Idle(1), Idle(2)];
    var e := Entry(0, 0, 0, 1);
    IdleRows();
    MapOverviewCounts(dcs, 1, 0, 10, 0);
    assert [] + [e, e] == [e, e];
    TwinRowsCollapse();
    OneRowCount();
  }

  /** The two idle collectors give no "reporting" row and two identical "not reporting" rows. */
  lemma IdleRows()
    ensures WithReportEntries([Idle(1), Idle(2)], 1, 0, 10) == []
    ensures NoReportEntries([Idle(1), Idle(2)], 0, 10) == [Entry(0, 0, 0, 1), Entry(0, 0, 0, 1)]
    ensures NotReportingAt([Idle(1), Idle(2)], 0, 0, 10) == 2
  {
    var dcs := [Idle(1), Idle(2)];
    assert !HasReportsInRange(Idle(1), 0, 10) && !HasReportsInRange(Idle(2), 0, 10);
    assert dcs[1..] == [Idle(2)] && dcs[1..][1..] == [];
  }

  lemma TwinRowsCollapse()
    ensures Distinct([Entry(0, 0, 0, 1), Entry(0, 0, 0, 1)]) == [Entry(0, 0, 0, 1)]
  {
    var n := [Entry(0, 0, 0, 1), Entry(0, 0, 0, 1)];
    assert n[..1] == [Entry(0, 0, 0, 1)];
    assert Distinct(n[..1]) == [Entry(0, 0, 0, 1)] by { assert n[..1][..0] == []; }
  }

  lemma OneRowCount()
    ensures Lookup(GroupByLocation([Entry(0, 0, 0, 1)]), 0).countNotReporting == 1
  {
    SingleRowGroup(Entry(0, 0, 0, 1));
  }

  /** Grouping one row gives its counts at its location. */
  lemma SingleRowGroup(e: Entry)
    ensures Lookup(GroupByLocation([e]), e.location) == CountsOf(e)
  {
    assert [e][1..] == [];
    assert GroupByLocation([e]) == map[][e.location := Plus(CountsOf(e), LocationCounts(0, 0, 0))];
    var LocationCounts(a, b, c) := CountsOf(e);
    assert Plus(CountsOf(e), LocationCounts(0, 0, 0)) == LocationCounts(a + 0, b + 0, c + 0);
  }

  /** How a collector is named in the detail list: display name for a human, name otherwise, then its phone number. */
  function DetailDisplayName(dc: DataCollector): (s: string)
    ensures dc.dataCollectorType == Human ==> s == dc.displayName + ": " + dc.phoneNumber
    ensures dc.dataCollectorType != Human ==> s == dc.name + ": " + dc.phoneNumber
  {
    (if dc.dataCollectorType == Human then dc.displayName else dc.name) + ": " + dc.phoneNumber
  }

  /** Whether a collector is listed in the details of `location`: it is there and not deleted. */
  predicate ShownAt(dc: DataCollector, location: LocationKey)
  {
    dc.location == location && dc.deletedAt.None?
  }

  /** A collector's detail row: its id, its display name and its status in the window. */
  function DetailOf(dc: DataCollector, fromDay: int, toDay: int): DetailRow
  {
    DetailRow(dc.id, DetailDisplayName(dc), Reporting.Status(Reporting.ReportsInTimeRange(dc.rawReports, fromDay, toDay)))
  }

  /**
   * The detail list for one location: one row per collector there that is not
   * deleted, with its status in the window, and no other row.
   */
  function MapOverviewDetails(dcs: seq<DataCollector>, location: LocationKey, fromDay: int, toDay: int): (rows: seq<DetailRow>)
    ensures |rows| == |IndicesWhere(dcs, dc => ShownAt(dc, location))|
    ensures forall i :: 0 <= i < |dcs| && ShownAt(dcs[i], location) ==> DetailOf(dcs[i], fromDay, toDay) in rows
    ensures forall x :: x in rows ==> exists i :: 0 <= i < |dcs| && ShownAt(dcs[i], location) && x == DetailOf(dcs[i], fromDay, toDay)
  {
    if dcs == [] then []
    else
      assert forall i :: 1 <= i < |dcs| ==> dcs[i] == dcs[1..][i - 1];
      IndicesWhereCons(dcs, dc => ShownAt(dc, location));
      var rest := MapOverviewDetails(dcs[1..], location, fromDay, toDay);
      if ShownAt(dcs[0], location) then [DetailOf(dcs[0], fromDay, toDay)] + rest else rest
  }

  /**
   * The detail status agrees with the overview's row kinds: NotReporting
   * exactly when the collector has no report in the window, ReportingWithErrors
   * exactly when it sent an invalid one, ReportingCorrectly otherwise.
   */
  lemma DetailStatusAgreesWithOverview(dc: DataCollector, fromDay: int, toDay: int)
    ensures Reporting.Status(Reporting.ReportsInTimeRange(dc.rawReports, fromDay, toDay)) == Reporting.NotReporting <==>
            !HasReportsInRange(dc, fromDay, toDay)
    ensures Reporting.Status(Reporting.ReportsInTimeRange(dc.rawReports, fromDay, toDay)) == Reporting.ReportingWithErrors <==>
            CountReports(dc.rawReports, fromDay, toDay, false) > 0
    ensures Reporting.Status(Reporting.ReportsInTimeRange(dc.rawReports, fromDay, toDay)) == Reporting.ReportingCorrectly <==>
            CountReports(dc.rawReports, fromDay, toDay, true) > 0 && CountReports(dc.rawReports, fromDay, toDay, false) == 0
  {
    var data := Reporting.ReportsInTimeRange(dc.rawReports, fromDay, toDay);
    Reporting.ReportsInTimeRangeEmpty(dc.rawReports, fromDay, toDay);
    WindowHasValidity(dc.rawReports, fromDay, toDay, false);
    WindowHasValidity(dc.rawReports, fromDay, toDay, true);
    if data != [] && forall j :: 0 <= j < |data| ==> data[j].isValid {
      assert data[0].isValid;
    }
  }

  /** The window holds a report of the given validity exactly when some raw report in the window has it. */
  lemma WindowHasValidity(reports: seq<RawReport>, fromDay: int, toDay: int, valid: bool)
    ensures (exists i :: 0 <= i < |reports| && Reporting.InTimeRange(reports[i], fromDay, toDay) && reports[i].report.Some? == valid)
            <==> exists j :: 0 <= j < |Reporting.ReportsInTimeRange(reports, fromDay, toDay)|
                             && Reporting.ReportsInTimeRange(reports, fromDay, toDay)[j].isValid == valid
  {
    var data := Reporting.ReportsInTimeRange(reports, fromDay, toDay);
    if exists i :: 0 <= i < |reports| && Reporting.InTimeRange(reports[i], fromDay, toDay) && reports[i].report.Some? == valid {
      var i :| 0 <= i < |reports| && Reporting.InTimeRange(reports[i], fromDay, toDay) && reports[i].report.Some? == valid;
      Reporting.RawReportInWindow(reports, fromDay, toDay, i);
    }
    if exists j :: 0 <= j < |data| && data[j].isValid == valid {
      var j :| 0 <= j < |data| && data[j].isValid == valid;
      Reporting.WindowEntryFromRawReport(reports, fromDay, toDay, j);
    }
  }




}
