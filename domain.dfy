/**
 * The entities the data-collector service works on, as the database holds them.
 * Dates are whole day numbers; a location is an opaque key standing for a point.
 */
module Domain {
  import opened Common

  /** A geographic point, compared only for equality. */
  type LocationKey = int

  /** The text written over personal data when a data collector is anonymised. */
  const AnonymizationText: string := "--"

  datatype DataCollectorType = Human | CollectionPoint

  datatype ProjectState = Open | Closed

  datatype Project = Project(state: ProjectState, nationalSocietyId: nat)

  /** A supervisor user together with the one national society it belongs to. */
  datatype Supervisor = Supervisor(name: string, phoneNumber: string, nationalSocietyId: nat)

  /** A processed report; only the sender's phone number matters here. */
  datatype Report = Report(phoneNumber: string)

  /**
   * A raw report as received. `isTraining` is a nullable flag; `report` is the
   * processed report, present exactly when the raw report was valid.
   */
  datatype RawReport = RawReport(sender: string, receivedDay: int, isTraining: Option<bool>, report: Option<Report>)

  datatype DataCollector = DataCollector(
    id: nat,
    name: string,
    displayName: string,
    phoneNumber: string,
    additionalPhoneNumber: string,
    birthGroupDecade: int,
    sex: nat,
    dataCollectorType: DataCollectorType,
    location: LocationKey,
    villageId: nat,
    zoneId: Option<nat>,
    supervisorId: nat,
    projectId: nat,
    createdAt: int,
    isInTrainingMode: bool,
    deletedAt: Option<int>,
    rawReports: seq<RawReport>)

  /** A raw report with its sender, and its processed report's phone number, anonymised. */
  function AnonymizedReport(r: RawReport): (a: RawReport)
    ensures a.sender == AnonymizationText
    ensures a.report.Some? <==> r.report.Some?
    ensures a.report.Some? ==> a.report.value.phoneNumber == AnonymizationText
    ensures a.receivedDay == r.receivedDay && a.isTraining == r.isTraining
  {
    r.(sender := AnonymizationText,
       report := if r.report.Some? then Some(Report(AnonymizationText)) else None)
  }

  /** Each raw report anonymised, in the same order. */
  function AnonymizedReports(reports: seq<RawReport>): (a: seq<RawReport>)
    ensures |a| == |reports|
    ensures forall i :: 0 <= i < |a| ==> a[i] == AnonymizedReport(reports[i])
  {
    if reports == [] then [] else [AnonymizedReport(reports[0])] + AnonymizedReports(reports[1..])
  }

  /**
   * A data collector after anonymisation at day `now`: its personal fields hold
   * the anonymisation text, it is marked deleted, and all its raw reports are
   * anonymised; nothing else changes.
   */
  function Anonymized(dc: DataCollector, now: int): (a: DataCollector)
    ensures a.name == a.displayName == a.phoneNumber == a.additionalPhoneNumber == AnonymizationText
    ensures a.deletedAt == Some(now)
    ensures a.rawReports == AnonymizedReports(dc.rawReports)
    ensures a.id == dc.id && a.projectId == dc.projectId && a.dataCollectorType == dc.dataCollectorType
    ensures a.isInTrainingMode == dc.isInTrainingMode && a.createdAt == dc.createdAt
    ensures a.location == dc.location && a.supervisorId == dc.supervisorId
    ensures a.birthGroupDecade == dc.birthGroupDecade && a.sex == dc.sex
    ensures a.villageId == dc.villageId && a.zoneId == dc.zoneId
  {
    dc.(name := AnonymizationText,
        displayName := AnonymizationText,
        phoneNumber := AnonymizationText,
        additionalPhoneNumber := AnonymizationText,
        deletedAt := Some(now),
        rawReports := AnonymizedReports(dc.rawReports))
  }
}
