/**
 * The reporting-status filter: three check boxes (reporting correctly, with
 * errors, not reporting) map to one of eight filter types, and a filter type
 * keeps the collectors whose reports in the window match it.
 */
module ReportingFilters {
  import Common
  import R = Reporting

  datatype ReportingStatusFilterType =
    | All
    | Correct
    | Error
    | CorrectAndError
    | CorrectAndNotReporting
    | ErrorAndNotReporting
    | NotReporting
    | None

  /** A collector's name with its reports in the reporting window. */
  datatype DataCollectorWithRawReportData = DataCollectorWithRawReportData(name: string, reportsInTimeRange: seq<R.RawReportData>)

  /** The three flags a filter type stands for: (reporting correctly, with errors, not reporting). */
  function Flags(filter: ReportingStatusFilterType): (bool, bool, bool)
  {
    match filter
    case All => (true, true, true)
    case Correct => (true, false, false)
    case Error => (false, true, false)
    case CorrectAndError => (true, true, false)
    case CorrectAndNotReporting => (true, false, true)
    case ErrorAndNotReporting => (false, true, true)
    case NotReporting => (false, false, true)
    case None => (false, false, false)
  }

  /** The filter type selected by the three flags. */
  function MapToReportingStatusFilterType(reportingCorrectly: bool, reportingWithErrors: bool, notReporting: bool): (f: ReportingStatusFilterType)
    ensures f == All <==> reportingCorrectly && reportingWithErrors && notReporting
    ensures f == None <==> !reportingCorrectly && !reportingWithErrors && !notReporting
    ensures Flags(f) == (reportingCorrectly, reportingWithErrors, notReporting)
  {
    if reportingCorrectly && reportingWithErrors && notReporting then All
    else if reportingCorrectly && !reportingWithErrors && !notReporting then Correct
    else if reportingCorrectly && reportingWithErrors && !notReporting then CorrectAndError
    else if reportingCorrectly && !reportingWithErrors && notReporting then CorrectAndNotReporting
    else if !reportingCorrectly && reportingWithErrors && notReporting then ErrorAndNotReporting
    else if !reportingCorrectly && reportingWithErrors && !notReporting then Error
    else if !reportingCorrectly && !reportingWithErrors && notReporting then NotReporting
    else None
  }

  /** The mapping is a bijection from the eight flag combinations onto the eight filter types. */
  lemma MapToReportingStatusFilterTypeBijective(filter: ReportingStatusFilterType)
    ensures MapToReportingStatusFilterType(Flags(filter).0, Flags(filter).1, Flags(filter).2) == filter
  {
  }

  lemma MapToReportingStatusFilterTypeInjective(c1: bool, e1: bool, n1: bool, c2: bool, e2: bool, n2: bool)
    requires MapToReportingStatusFilterType(c1, e1, n1) == MapToReportingStatusFilterType(c2, e2, n2)
    ensures c1 == c2 && e1 == e2 && n1 == n2
  {
    assert Flags(MapToReportingStatusFilterType(c1, e1, n1)) == (c1, e1, n1);
  }

  predicate HasValid(dc: DataCollectorWithRawReportData)
  {
    exists i :: 0 <= i < |dc.reportsInTimeRange| && dc.reportsInTimeRange[i].isValid
  }

  predicate HasInvalid(dc: DataCollectorWithRawReportData)
  {
    exists i :: 0 <= i < |dc.reportsInTimeRange| && !dc.reportsInTimeRange[i].isValid
  }

  /** Whether a collector passes a filter type. */
  predicate Keeps(filter: ReportingStatusFilterType, dc: DataCollectorWithRawReportData)
  {
    match filter
    case All => true
    case Correct => HasValid(dc)
    case Error => HasInvalid(dc)
    case CorrectAndError => dc.reportsInTimeRange != []
    case CorrectAndNotReporting => HasValid(dc) || dc.reportsInTimeRange == []
    case ErrorAndNotReporting => HasInvalid(dc) || dc.reportsInTimeRange == []
    case NotReporting => dc.reportsInTimeRange == []
    case None => false
  }

  /** The collectors passing `filter`, in their original order. */
  function Where(dcs: seq<DataCollectorWithRawReportData>, filter: ReportingStatusFilterType): (r: seq<DataCollectorWithRawReportData>)
    ensures forall x :: x in r <==> x in dcs && Keeps(filter, x)
    ensures forall x :: multiset(r)[x] == if Keeps(filter, x) then multiset(dcs)[x] else 0
    ensures Common.IsSubsequence(r, dcs)
  {
    if dcs == [] then []
    else
      var rest := Where(dcs[1..], filter);
      assert dcs == [dcs[0]] + dcs[1..];
      if Keeps(filter, dcs[0]) then [dcs[0]] + rest else rest
  }

  /**
   * Filtering by reporting status: All returns the input itself, None returns
   * nothing, and every filter returns exactly the collectors it keeps, each as
   * often as in the input, in order.
   */
  function FilterByReportingStatus(dcs: seq<DataCollectorWithRawReportData>, filter: ReportingStatusFilterType): (r: seq<DataCollectorWithRawReportData>)
    ensures filter == All ==> r == dcs
    ensures filter == None ==> r == []
    ensures forall x :: x in r <==> x in dcs && Keeps(filter, x)
    ensures forall x :: multiset(r)[x] == if Keeps(filter, x) then multiset(dcs)[x] else 0
    ensures Common.IsSubsequence(r, dcs)
  {
    match filter
    case All => Common.SubsequenceOfItself(dcs); dcs
    case None => []
    case _ => Where(dcs, filter)
  }

  /**
   * The filter chosen by three flags keeps a collector exactly when one of the
   * chosen flags describes it: it has a valid report, it has an invalid report,
   * or it has no report.
   */
  lemma KeepsByFlags(reportingCorrectly: bool, reportingWithErrors: bool, notReporting: bool, dc: DataCollectorWithRawReportData)
    ensures Keeps(MapToReportingStatusFilterType(reportingCorrectly, reportingWithErrors, notReporting), dc) <==>
            (reportingCorrectly && HasValid(dc)) || (reportingWithErrors && HasInvalid(dc)) || (notReporting && dc.reportsInTimeRange == [])
  {
    if dc.reportsInTimeRange != [] {
      assert HasValid(dc) || HasInvalid(dc) by {
        if !dc.reportsInTimeRange[0].isValid { assert HasInvalid(dc); } else { assert HasValid(dc); }
      }
    }
  }

  /** How the filters relate to a collector's overall status in the window. */
  lemma KeepsAgreesWithStatus(dc: DataCollectorWithRawReportData)
    ensures Keeps(NotReporting, dc) <==> R.Status(dc.reportsInTimeRange) == R.NotReporting
    ensures Keeps(CorrectAndError, dc) <==> R.Status(dc.reportsInTimeRange) != R.NotReporting
    ensures Keeps(Error, dc) <==> R.Status(dc.reportsInTimeRange) == R.ReportingWithErrors
    ensures R.Status(dc.reportsInTimeRange) == R.ReportingCorrectly ==> Keeps(Correct, dc) && !Keeps(Error, dc)
  {
    if dc.reportsInTimeRange != [] {
      assert dc.reportsInTimeRange[0] in dc.reportsInTimeRange;
    }
  }
}
