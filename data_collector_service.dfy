/**
 * The data-collector service over an in-memory store: creating, editing,
 * deleting (or anonymising) collectors, switching their training mode and
 * replacing their supervisor. A lookup that the database would fail with an
 * exception is modelled as a `Raised` outcome that changes nothing after it.
 */
module DataCollectors {
  import opened Common
  import opened Domain
  import Sms = ReplaceSupervisorSms

  datatype ResultKey =
    | CreateSuccess
    | EditSuccess
    | RemoveSuccess
    | SetInTrainingSuccess
    | SetOutOfTrainingSuccess
    | ProjectIsClosed
    | DataCollectorNotFound

  /** Why an operation stopped with an exception. */
  datatype Fault =
    | EntityNotFound   // a `SingleAsync` that found no row
    | NullReference    // a member access on a missing row

  /**
   * What an operation hands back: a success carrying a value (`Success`), a
   * success carrying a message key (`SuccessMessage`), an error carrying a
   * message key, or an exception.
   */
  datatype Outcome =
    | Success(value: Option<ResultKey>)
    | SuccessMessage(key: ResultKey)
    | Error(key: ResultKey)
    | Raised(fault: Fault)

  /** The fields of the create form. */
  datatype CreateRequest = CreateRequest(
    name: string,
    displayName: string,
    phoneNumber: string,
    additionalPhoneNumber: string,
    birthGroupDecade: int,
    sex: nat,
    dataCollectorType: DataCollectorType,
    location: LocationKey,
    villageId: nat,
    zoneId: Option<nat>,
    supervisorId: nat)

  /** The fields of the edit form; the type cannot be edited. */
  datatype EditRequest = EditRequest(
    id: nat,
    name: string,
    displayName: string,
    phoneNumber: string,
    additionalPhoneNumber: string,
    birthGroupDecade: int,
    sex: nat,
    location: LocationKey,
    villageId: nat,
    zoneId: Option<nat>,
    supervisorId: nat)

  /** The position of the collector with the given id, if there is one. */
  function IndexOf(collectors: seq<DataCollector>, id: nat): (r: Option<nat>)
    ensures r.Some? ==> r.value < |collectors| && collectors[r.value].id == id
    ensures r.Some? ==> forall j :: 0 <= j < r.value ==> collectors[j].id != id
    ensures r.None? <==> forall j :: 0 <= j < |collectors| ==> collectors[j].id != id
  {
    if collectors == [] then None
    else if collectors[0].id == id then Some(0)
    else
      var rest := IndexOf(collectors[1..], id);
      assert forall j :: 0 < j < |collectors| ==> collectors[j] == collectors[1..][j - 1];
      if rest.Some? then Some(rest.value + 1) else None
  }

  /** A new collector: in training mode, with no reports, not deleted. */
  function NewCollector(id: nat, projectId: nat, req: CreateRequest, now: int): (dc: DataCollector)
    ensures dc.id == id && dc.projectId == projectId && dc.createdAt == now
    ensures dc.isInTrainingMode && dc.rawReports == [] && dc.deletedAt.None?
    ensures dc.name == req.name && dc.displayName == req.displayName && dc.phoneNumber == req.phoneNumber
    ensures dc.supervisorId == req.supervisorId && dc.villageId == req.villageId && dc.zoneId == req.zoneId
    ensures dc.dataCollectorType == req.dataCollectorType
    ensures dc.additionalPhoneNumber == req.additionalPhoneNumber && dc.birthGroupDecade == req.birthGroupDecade
    ensures dc.sex == req.sex && dc.location == req.location
  {
    DataCollector(id, req.name, req.displayName, req.phoneNumber, req.additionalPhoneNumber,
                  req.birthGroupDecade, req.sex, req.dataCollectorType, req.location,
                  req.villageId, req.zoneId, req.supervisorId, projectId, now,
                  true, None, [])
  }

  /**
   * A collector after an edit: the form's fields are taken over; its type,
   * training mode, creation time, project, reports and deletion are kept.
   */
  function Edited(dc: DataCollector, req: EditRequest): (e: DataCollector)
    ensures e.id == dc.id && e.dataCollectorType == dc.dataCollectorType
    ensures e.isInTrainingMode == dc.isInTrainingMode && e.createdAt == dc.createdAt
    ensures e.projectId == dc.projectId && e.rawReports == dc.rawReports && e.deletedAt == dc.deletedAt
    ensures e.name == req.name && e.displayName == req.displayName
    ensures e.phoneNumber == req.phoneNumber && e.additionalPhoneNumber == req.additionalPhoneNumber
    ensures e.birthGroupDecade == req.birthGroupDecade && e.sex == req.sex && e.location == req.location
    ensures e.villageId == req.villageId && e.zoneId == req.zoneId && e.supervisorId == req.supervisorId
  {
    dc.(name := req.name,
        displayName := req.displayName,
        phoneNumber := req.phoneNumber,
        additionalPhoneNumber := req.additionalPhoneNumber,
        birthGroupDecade := req.birthGroupDecade,
        location := req.location,
        sex := req.sex,
        villageId := req.villageId,
        supervisorId := req.supervisorId,
        zoneId := req.zoneId)
  }

  /**
   * The collectors of a project after bulk anonymisation: each one with
   * reports is anonymised, every other collector is unchanged.
   */
  function AnonymizeProject(collectors: seq<DataCollector>, projectId: nat, now: int): (r: seq<DataCollector>)
    ensures |r| == |collectors|
    ensures forall i :: 0 <= i < |r| ==>
      r[i] == (if collectors[i].projectId == projectId && collectors[i].rawReports != [] then Anonymized(collectors[i], now) else collectors[i])
    ensures forall i :: 0 <= i < |r| ==> r[i].id == collectors[i].id && r[i].projectId == collectors[i].projectId
  {
    if collectors == [] then []
    else
      var dc := collectors[0];
      [if dc.projectId == projectId && dc.rawReports != [] then Anonymized(dc, now) else dc]
        + AnonymizeProject(collectors[1..], projectId, now)
  }

  /** The gateway the service picks: the first one of the national society. */
  function FirstGateway(gateways: seq<Sms.GatewaySetting>, nationalSocietyId: nat): (g: Option<Sms.GatewaySetting>)
    ensures g.Some? ==> g.value in gateways && g.value.nationalSocietyId == nationalSocietyId
    ensures g.None? <==> forall i :: 0 <= i < |gateways| ==> gateways[i].nationalSocietyId != nationalSocietyId
    ensures g.Some? ==> exists i :: 0 <= i < |gateways| && gateways[i] == g.value
                                 && forall j :: 0 <= j < i ==> gateways[j].nationalSocietyId != nationalSocietyId
  {
    if gateways == [] then None
    else if gateways[0].nationalSocietyId == nationalSocietyId then Some(gateways[0])
    else
      var rest := FirstGateway(gateways[1..], nationalSocietyId);
      assert forall j :: 0 < j < |gateways| ==> gateways[j] == gateways[1..][j - 1];
      if rest.Some? then
        var k :| 0 <= k < |gateways[1..]| && gateways[1..][k] == rest.value
                 && forall j :: 0 <= j < k ==> gateways[1..][j].nationalSocietyId != nationalSocietyId;
        assert gateways[k + 1] == rest.value;
        rest
      else None
  }

  /** The collectors whose id is listed, each as often as stored, in store order. */
  function Listed(collectors: seq<DataCollector>, ids: seq<nat>): (r: seq<DataCollector>)
    ensures forall dc :: multiset(r)[dc] == if dc.id in ids then multiset(collectors)[dc] else 0
    ensures IsSubsequence(r, collectors)
  {
    if collectors == [] then []
    else
      var rest := Listed(collectors[1..], ids);
      assert collectors == [collectors[0]] + collectors[1..];
      if collectors[0].id in ids then [collectors[0]] + rest else rest
  }

  /** The phone numbers of the listed collectors: one per listed collector, in store order. */
  function PhoneNumbers(collectors: seq<DataCollector>, ids: seq<nat>): (phones: seq<string>)
    ensures |phones| == |Listed(collectors, ids)|
    ensures forall k :: 0 <= k < |phones| ==> phones[k] == Listed(collectors, ids)[k].phoneNumber
  {
    if collectors == [] then []
    else
      var rest := PhoneNumbers(collectors[1..], ids);
      if collectors[0].id in ids then [collectors[0].phoneNumber] + rest else rest
  }

  /** The store: the collector table and the tables it refers to. */
  class DataCollectorService {
    /** Projects by id. */
    var projects: map<nat, Project>
    /** Available supervisor users by id, as the create and edit forms may pick them. */
    var supervisors: map<nat, Supervisor>
    /** Every supervisor user by id, available or not, as replacing a supervisor looks it up. */
    var users: map<nat, Supervisor>
    /** The national society of each village, by village id. */
    var villages: map<nat, nat>
    /** The ids of the zones. */
    var zones: set<nat>
    /** The gateway settings, in the order the database returns them. */
    var gatewaySettings: seq<Sms.GatewaySetting>
    /** The collector table, in the order the database returns it. */
    var collectors: seq<DataCollector>
    /** The id the database gives the next collector. */
    var nextId: nat

    /** Collector ids are unique and below the next id; every collector's project exists. */
    predicate Valid()
      reads this
    {
      (forall i, j :: 0 <= i < j < |collectors| ==> collectors[i].id != collectors[j].id)
      && (forall i :: 0 <= i < |collectors| ==> collectors[i].id < nextId && collectors[i].projectId in projects)
    }

    constructor (projects: map<nat, Project>, supervisors: map<nat, Supervisor>, users: map<nat, Supervisor>,
                 villages: map<nat, nat>, zones: set<nat>, gatewaySettings: seq<Sms.GatewaySetting>)
      ensures Valid() && collectors == [] && nextId == 0
      ensures this.projects == projects && this.supervisors == supervisors && this.users == users
      ensures this.villages == villages
      ensures this.zones == zones && this.gatewaySettings == gatewaySettings
    {
      this.projects := projects;
      this.supervisors := supervisors;
      this.users := users;
      this.villages := villages;
      this.zones := zones;
      this.gatewaySettings := gatewaySettings;
      collectors := [];
      nextId := 0;
    }

    /**
     * The supervisor, village and zone a form names all exist: the supervisor
     * and the village belong to the project's national society.
     */
    predicate ReferencesExist(nationalSocietyId: nat, supervisorId: nat, villageId: nat, zoneId: Option<nat>)
      reads this
    {
      supervisorId in supervisors && supervisors[supervisorId].nationalSocietyId == nationalSocietyId
      && villageId in villages && villages[villageId] == nationalSocietyId
      && (zoneId.Some? ==> zoneId.value in zones)
    }

    /**
     * Adds a collector to an open project. A closed project is refused and a
     * missing project, supervisor, village or zone raises; in both cases the
     * store is unchanged.
     */
    method Create(projectId: nat, req: CreateRequest, now: int) returns (outcome: Outcome)
      requires Valid()
      modifies this`collectors, this`nextId
      ensures Valid()
      ensures projectId !in projects ==> outcome == Raised(EntityNotFound)
      ensures projectId in projects && projects[projectId].state != Open ==> outcome == Error(ProjectIsClosed)
      ensures projectId in projects && projects[projectId].state == Open
              && !ReferencesExist(projects[projectId].nationalSocietyId, req.supervisorId, req.villageId, req.zoneId)
              ==> outcome == Raised(EntityNotFound)
      ensures outcome != Success(Some(CreateSuccess)) ==> collectors == old(collectors) && nextId == old(nextId)
      ensures outcome == Success(Some(CreateSuccess)) <==>
              projectId in projects && projects[projectId].state == Open
              && ReferencesExist(projects[projectId].nationalSocietyId, req.supervisorId, req.villageId, req.zoneId)
      ensures outcome == Success(Some(CreateSuccess)) ==>
              collectors == old(collectors) + [NewCollector(old(nextId), projectId, req, now)] && nextId == old(nextId) + 1
    {
      if projectId !in projects {
        return Raised(EntityNotFound);
      }
      var project := projects[projectId];
      if project.state != Open {
        return Error(ProjectIsClosed);
      }
      if !ReferencesExist(project.nationalSocietyId, req.supervisorId, req.villageId, req.zoneId) {
        return Raised(EntityNotFound);
      }
      collectors := collectors + [NewCollector(nextId, projectId, req, now)];
      nextId := nextId + 1;
      outcome := Success(Some(CreateSuccess));
    }

    /**
     * Edits a collector of an open project. A missing collector or reference
     * raises and a closed project is refused, with the store unchanged; on
     * success only the edited collector changes, as `Edited` says.
     */
    method Edit(req: EditRequest) returns (outcome: Outcome)
      requires Valid()
      modifies this`collectors
      ensures Valid()
      ensures IndexOf(old(collectors), req.id).None? ==> outcome == Raised(EntityNotFound)
      ensures IndexOf(old(collectors), req.id).Some? && projects[old(collectors)[IndexOf(old(collectors), req.id).value].projectId].state != Open
              ==> outcome == Error(ProjectIsClosed)
      ensures IndexOf(old(collectors), req.id).Some? && projects[old(collectors)[IndexOf(old(collectors), req.id).value].projectId].state == Open
              && !ReferencesExist(projects[old(collectors)[IndexOf(old(collectors), req.id).value].projectId].nationalSocietyId,
                                  req.supervisorId, req.villageId, req.zoneId)
              ==> outcome == Raised(EntityNotFound)
      ensures outcome == SuccessMessage(EditSuccess) <==>
              IndexOf(old(collectors), req.id).Some? && projects[old(collectors)[IndexOf(old(collectors), req.id).value].projectId].state == Open
              && ReferencesExist(projects[old(collectors)[IndexOf(old(collectors), req.id).value].projectId].nationalSocietyId,
                                 req.supervisorId, req.villageId, req.zoneId)
      ensures outcome != SuccessMessage(EditSuccess) ==> collectors == old(collectors)
      ensures outcome == SuccessMessage(EditSuccess) ==>
              var i := IndexOf(old(collectors), req.id).value;
              collectors == old(collectors)[i := Edited(old(collectors)[i], req)]
              && ReferencesExist(projects[old(collectors)[i].projectId].nationalSocietyId, req.supervisorId, req.villageId, req.zoneId)
    {
      var found := IndexOf(collectors, req.id);
      if found.None? {
        return Raised(EntityNotFound);
      }
      var i := found.value;
      var project := projects[collectors[i].projectId];
      if project.state != Open {
        return Error(ProjectIsClosed);
      }
      if !ReferencesExist(project.nationalSocietyId, req.supervisorId, req.villageId, req.zoneId) {
        return Raised(EntityNotFound);
      }
      collectors := collectors[i := Edited(collectors[i], req)];
      outcome := SuccessMessage(EditSuccess);
    }

    /**
     * Deletes a collector. An unknown id is "not found" before the project is
     * looked at; a closed project is refused. A collector with reports is kept
     * and anonymised; one without is removed.
     */
    method Delete(id: nat, now: int) returns (outcome: Outcome)
      requires Valid()
      modifies this`collectors
      ensures Valid()
      ensures IndexOf(old(collectors), id).None? ==> outcome == Error(DataCollectorNotFound) && collectors == old(collectors)
      ensures IndexOf(old(collectors), id).Some? ==>
              var i := IndexOf(old(collectors), id).value;
              var dc := old(collectors)[i];
              if projects[dc.projectId].state != Open then
                outcome == Error(ProjectIsClosed) && collectors == old(collectors)
              else if dc.rawReports != [] then
                outcome == SuccessMessage(RemoveSuccess) && collectors == old(collectors)[i := Anonymized(dc, now)]
              else
                outcome == SuccessMessage(RemoveSuccess) && collectors == old(collectors)[..i] + old(collectors)[i + 1..]
    {
      var found := IndexOf(collectors, id);
      if found.None? {
        return Error(DataCollectorNotFound);
      }
      var i := found.value;
      var dc := collectors[i];
      if projects[dc.projectId].state != Open {
        return Error(ProjectIsClosed);
      }
      if dc.rawReports != [] {
        collectors := collectors[i := Anonymized(dc, now)];
      } else {
        RemovalKeepsValid(collectors, projects, nextId, i);
        collectors := collectors[..i] + collectors[i + 1..];
      }
      outcome := SuccessMessage(RemoveSuccess);
    }

    /** Anonymises every collector of the project that has reports, and only those. */
    method AnonymizeDataCollectorsWithReports(projectId: nat, now: int)
      requires Valid()
      modifies this`collectors
      ensures Valid()
      ensures collectors == AnonymizeProject(old(collectors), projectId, now)
    {
      collectors := AnonymizeProject(collectors, projectId, now);
    }

    /**
     * Sets the training mode of exactly the listed collectors, one by one;
     * every other collector is unchanged.
     */
    method SetTrainingState(ids: seq<nat>, inTraining: bool) returns (outcome: Outcome)
      requires Valid()
      modifies this`collectors
      ensures Valid()
      ensures |collectors| == |old(collectors)|
      ensures forall i :: 0 <= i < |collectors| ==>
        collectors[i] == (if old(collectors)[i].id in ids then old(collectors)[i].(isInTrainingMode := inTraining) else old(collectors)[i])
      ensures outcome == SuccessMessage(if inTraining then SetInTrainingSuccess else SetOutOfTrainingSuccess)
    {
      var k := 0;
      while k < |collectors|
        invariant 0 <= k <= |collectors| == |old(collectors)|
        invariant forall i :: 0 <= i < k ==>
          collectors[i] == (if old(collectors)[i].id in ids then old(collectors)[i].(isInTrainingMode := inTraining) else old(collectors)[i])
        invariant forall i :: k <= i < |collectors| ==> collectors[i] == old(collectors)[i]
      {
        if collectors[k].id in ids {
          collectors := collectors[k := collectors[k].(isInTrainingMode := inTraining)];
        }
        k := k + 1;
      }
      outcome := SuccessMessage(if inTraining then SetInTrainingSuccess else SetOutOfTrainingSuccess);
    }

    /**
     * Gives the listed collectors a new supervisor and tells them by SMS. A
     * missing supervisor raises before anything changes; a national society
     * without a gateway raises after the collectors were updated. `template`
     * is the SMS text for the gateway's language.
     */
    method ReplaceSupervisor(ids: seq<nat>, supervisorId: nat, template: string)
      returns (outcome: Outcome, sms: Option<Sms.OutgoingSms>)
      requires Valid()
      modifies this`collectors
      ensures Valid()
      ensures supervisorId !in users ==> outcome == Raised(NullReference) && sms.None? && collectors == old(collectors)
      ensures supervisorId in users ==>
        |collectors| == |old(collectors)|
        && forall i :: 0 <= i < |collectors| ==>
             collectors[i] == (if old(collectors)[i].id in ids then old(collectors)[i].(supervisorId := supervisorId) else old(collectors)[i])
      ensures supervisorId in users && FirstGateway(gatewaySettings, users[supervisorId].nationalSocietyId).None? ==>
        outcome == Raised(NullReference) && sms.None?
      ensures supervisorId in users && FirstGateway(gatewaySettings, users[supervisorId].nationalSocietyId).Some? ==>
        var gateway := FirstGateway(gatewaySettings, users[supervisorId].nationalSocietyId).value;
        var supervisor := users[supervisorId];
        outcome == Success(None) && sms.Some?
        && sms.value.phoneNumbers == PhoneNumbers(old(collectors), ids)
        && sms.value.message == Sms.ReplaceSupervisorMessage(template, supervisor.name, supervisor.phoneNumber)
        && (sms.value.EmailToSms? <==> IsNullOrEmpty(gateway.iotHubDeviceName))
        && (sms.value.EmailToSms? ==> sms.value.gateway == gateway)
        && (sms.value.IotHubSms? ==> gateway.iotHubDeviceName == Some(sms.value.deviceName))
    {
      if supervisorId !in users {
        return Raised(NullReference), None;
      }
      var supervisor := users[supervisorId];
      var gateway := FirstGateway(gatewaySettings, supervisor.nationalSocietyId);
      var k := 0;
      while k < |collectors|
        invariant 0 <= k <= |collectors| == |old(collectors)|
        invariant forall i :: 0 <= i < k ==>
          collectors[i] == (if old(collectors)[i].id in ids then old(collectors)[i].(supervisorId := supervisorId) else old(collectors)[i])
        invariant forall i :: k <= i < |collectors| ==> collectors[i] == old(collectors)[i]
      {
        if collectors[k].id in ids {
          collectors := collectors[k := collectors[k].(supervisorId := supervisorId)];
        }
        k := k + 1;
      }
      if gateway.None? {
        return Raised(NullReference), None;
      }
      SupervisorChangeKeepsPhones(old(collectors), collectors, ids, supervisorId);
      var message := Sms.SendReplaceSupervisorSms(gateway.value, PhoneNumbers(collectors, ids), supervisor, template);
      outcome, sms := Success(None), Some(message);
    }
  }

  /** Removing one collector keeps the store's invariant. */
  lemma RemovalKeepsValid(collectors: seq<DataCollector>, projects: map<nat, Project>, nextId: nat, i: nat)
    requires i < |collectors|
    requires forall a, b :: 0 <= a < b < |collectors| ==> collectors[a].id != collectors[b].id
    requires forall a :: 0 <= a < |collectors| ==> collectors[a].id < nextId && collectors[a].projectId in projects
    ensures var r := collectors[..i] + collectors[i + 1..];
      (forall a, b :: 0 <= a < b < |r| ==> r[a].id != r[b].id)
      && (forall a :: 0 <= a < |r| ==> r[a].id < nextId && r[a].projectId in projects)
  {
    var r := collectors[..i] + collectors[i + 1..];
    assert forall a :: 0 <= a < |r| ==> r[a] == collectors[if a < i then a else a + 1];
  }

  /** After removing the collector at `i`, exactly the other collectors remain. */
  lemma RemovedCollectorGone(collectors: seq<DataCollector>, i: nat)
    requires i < |collectors|
    requires forall a, b :: 0 <= a < b < |collectors| ==> collectors[a].id != collectors[b].id
    ensures forall dc :: dc in collectors[..i] + collectors[i + 1..] <==> dc in collectors && dc.id != collectors[i].id
  {
    var r := collectors[..i] + collectors[i + 1..];
    assert forall a :: 0 <= a < |r| ==> r[a] == collectors[if a < i then a else a + 1];
    forall dc | dc in collectors && dc.id != collectors[i].id ensures dc in r {
      var a :| 0 <= a < |collectors| && collectors[a] == dc;
      assert r[if a < i then a else a - 1] == dc;
    }
  }

  /** Changing supervisors leaves the listed collectors' phone numbers as they were. */
  lemma {:induction false} SupervisorChangeKeepsPhones(before: seq<DataCollector>, after: seq<DataCollector>, ids: seq<nat>, supervisorId: nat)
    requires |after| == |before|
    requires forall i :: 0 <= i < |after| ==>
      after[i] == (if before[i].id in ids then before[i].(supervisorId := supervisorId) else before[i])
    ensures PhoneNumbers(after, ids) == PhoneNumbers(before, ids)
  {
    if before != [] {
      assert forall i :: 0 <= i < |after[1..]| ==> after[1..][i] == after[i + 1] && before[1..][i] == before[i + 1];
      SupervisorChangeKeepsPhones(before[1..], after[1..], ids, supervisorId);
    }
  }
}
