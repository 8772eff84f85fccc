/** The server's write handlers as operations of one in-memory store.

    The three MongoDB collections become sequences (in insertion order) and
    every `io.emit` becomes an entry appended to an event log.  Each handler
    is one atomic step: the awaits between its writes are not interleaved
    with other handlers.
 */
module ServerStore {
  import opened Records

  /** The socket events the handlers broadcast. */
  datatype Event =
    | IncidentAlert(incidents: seq<Incident>, units: seq<ForceUnit>, newIncident: Option<Incident>)
    | UnitsUpdated(units: seq<ForceUnit>)
    | AdvisoryPosted(advisory: Advisory)
    | AdvisoriesCleared

  // HTTP status codes of the clear route
  const OK := 200
  const FORBIDDEN := 403
  const SERVER_ERROR := 500

  /** The document `POST /api/incident` saves: the six copied body fields,
      status 'PENDING' and no assigned unit, whatever else the body says. */
  function NewIncident(body: IncidentBody, id: Id, now: int): Incident {
    Incident(id, body.kind, body.description, body.severity, body.location, body.breakdown,
             body.actionPlan, PENDING, None, now)
  }

  /** The document `POST /api/units` saves: the body as given, with the
      schema default 'IDLE' for a missing status and an empty coordinate
      array for missing coordinates. */
  function NewUnit(body: UnitBody, id: Id): ForceUnit {
    ForceUnit(id, body.name, body.kind,
              if body.status.Some? then body.status.value else IDLE,
              if body.coordinates.Some? then body.coordinates.value else [])
  }

  /** The document `POST /api/advisory` saves: only the message is taken
      from the body; the author is the schema default. */
  function NewAdvisory(message: Option<string>, id: Id, now: int): Advisory {
    Advisory(id, message, now, DEFAULT_AUTHOR, None)
  }

  /** `Incident.findByIdAndUpdate(incidentId, {status: 'DISPATCHED', assignedUnit: unitId})`. */
  function Dispatch(incidents: seq<Incident>, incidentId: Id, unitId: Id): seq<Incident> {
    seq(|incidents|, i requires 0 <= i < |incidents| =>
      if incidents[i].id == incidentId
      then incidents[i].(status := DISPATCHED, assignedUnit := Some(unitId))
      else incidents[i])
  }

  /** `ForceUnit.findByIdAndUpdate(unitId, {status: 'BUSY'})`. */
  function MarkBusy(units: seq<ForceUnit>, unitId: Id): seq<ForceUnit> {
    seq(|units|, i requires 0 <= i < |units| =>
      if units[i].id == unitId then units[i].(status := BUSY) else units[i])
  }

  /** `ForceUnit.updateMany({}, {status: 'IDLE'})`. */
  function ResetUnits(units: seq<ForceUnit>): seq<ForceUnit> {
    seq(|units|, i requires 0 <= i < |units| => units[i].(status := IDLE))
  }

  /** `findById`: the document with the given id, if any. */
  function FindIncident(incidents: seq<Incident>, id: Id): (r: Option<Incident>)
    ensures r.Some? ==> r.value in incidents && r.value.id == id
    ensures r.None? <==> forall k :: 0 <= k < |incidents| ==> incidents[k].id != id
  {
    if incidents == [] then None
    else if incidents[0].id == id then Some(incidents[0])
    else FindIncident(incidents[1..], id)
  }

  /** The admin key is configured: `process.env.ADMIN_KEY` is truthy. */
  predicate KeyConfigured(serverKey: Option<string>) {
    serverKey.Some? && serverKey.value != ""
  }

  /** Every dispatched incident names a unit. */
  ghost predicate DispatchedAreAssigned(incidents: seq<Incident>) {
    forall i :: 0 <= i < |incidents| && incidents[i].status == DISPATCHED ==> incidents[i].assignedUnit.Some?
  }

  ghost predicate IncidentIdsFresh(incidents: seq<Incident>, bound: nat) {
    && (forall i :: 0 <= i < |incidents| ==> incidents[i].id < bound)
    && (forall i, j :: 0 <= i < j < |incidents| ==> incidents[i].id != incidents[j].id)
  }

  ghost predicate UnitIdsFresh(units: seq<ForceUnit>, bound: nat) {
    && (forall i :: 0 <= i < |units| ==> units[i].id < bound)
    && (forall i, j :: 0 <= i < j < |units| ==> units[i].id != units[j].id)
  }

  ghost predicate AdvisoryIdsFresh(advisories: seq<Advisory>, bound: nat) {
    && (forall i :: 0 <= i < |advisories| ==> advisories[i].id < bound)
    && (forall i, j :: 0 <= i < j < |advisories| ==> advisories[i].id != advisories[j].id)
  }

  class Store {
    var incidents: seq<Incident>
    var units: seq<ForceUnit>
    var advisories: seq<Advisory>
    /** Everything broadcast so far, oldest first. */
    var events: seq<Event>
    /** The next document id to hand out. */
    var nextId: nat

    ghost predicate Valid()
      reads this
    {
      && IncidentIdsFresh(incidents, nextId)
      && UnitIdsFresh(units, nextId)
      && AdvisoryIdsFresh(advisories, nextId)
      && DispatchedAreAssigned(incidents)
    }

    constructor ()
      ensures Valid()
      ensures incidents == [] && units == [] && advisories == [] && events == []
    {
      incidents, units, advisories, events := [], [], [], [];
      nextId := 0;
    }

    /** `POST /api/incident`. */
    method CreateIncident(body: IncidentBody, now: int) returns (created: Incident)
      requires Valid()
      modifies this
      ensures Valid()
      ensures created == NewIncident(body, old(nextId), now)
      ensures incidents == old(incidents) + [created]
      ensures units == old(units) && advisories == old(advisories)
      ensures events == old(events) + [IncidentAlert(incidents, units, Some(created))]
    {
      created := NewIncident(body, nextId, now);
      incidents := incidents + [created];
      nextId := nextId + 1;
      events := events + [IncidentAlert(incidents, units, Some(created))];
    }

    /** `POST /api/units`: store the unit, then broadcast the whole roster. */
    method AddUnit(body: UnitBody) returns (unit: ForceUnit)
      requires Valid()
      modifies this
      ensures Valid()
      ensures unit == NewUnit(body, old(nextId))
      ensures units == old(units) + [unit]
      ensures incidents == old(incidents) && advisories == old(advisories)
      ensures events == old(events) + [UnitsUpdated(units)]
    {
      unit := NewUnit(body, nextId);
      units := units + [unit];
      nextId := nextId + 1;
      events := events + [UnitsUpdated(units)];
    }

    /** `POST /api/deploy`: no check that either document exists or that the
        unit is idle. */
    method Deploy(incidentId: Id, unitId: Id)
      requires Valid()
      modifies this
      ensures Valid()
      ensures |incidents| == |old(incidents)| && |units| == |old(units)|
      ensures forall i :: 0 <= i < |incidents| ==>
        incidents[i] == if old(incidents)[i].id == incidentId
                        then old(incidents)[i].(status := DISPATCHED, assignedUnit := Some(unitId))
                        else old(incidents)[i]
      ensures forall i :: 0 <= i < |units| ==>
        units[i] == if old(units)[i].id == unitId then old(units)[i].(status := BUSY) else old(units)[i]
      ensures advisories == old(advisories) && nextId == old(nextId)
      ensures events == old(events) + [IncidentAlert(incidents, units, FindIncident(incidents, incidentId))]
    {
      incidents := Dispatch(incidents, incidentId, unitId);
      units := MarkBusy(units, unitId);
      events := events + [IncidentAlert(incidents, units, FindIncident(incidents, incidentId))];
    }

    /** `POST /api/advisory`. */
    method PostAdvisory(message: Option<string>, now: int) returns (advisory: Advisory)
      requires Valid()
      modifies this
      ensures Valid()
      ensures advisory == NewAdvisory(message, old(nextId), now)
      ensures advisory.author == DEFAULT_AUTHOR && advisory.relatedIncidentId.None?
      ensures advisories == old(advisories) + [advisory]
      ensures incidents == old(incidents) && units == old(units)
      ensures events == old(events) + [AdvisoryPosted(advisory)]
    {
      advisory := NewAdvisory(message, nextId, now);
      advisories := advisories + [advisory];
      nextId := nextId + 1;
      events := events + [AdvisoryPosted(advisory)];
    }

    /** `DELETE /api/clear`, guarded by the `x-admin-key` header. */
    method Clear(clientKey: Option<string>, serverKey: Option<string>) returns (code: int)
      requires Valid()
      modifies this
      ensures Valid()
      ensures !KeyConfigured(serverKey) ==> code == SERVER_ERROR
      ensures KeyConfigured(serverKey) && clientKey != serverKey ==> code == FORBIDDEN
      ensures KeyConfigured(serverKey) && clientKey == serverKey ==> code == OK
      ensures code != OK ==>
        incidents == old(incidents) && units == old(units) && advisories == old(advisories) && events == old(events)
      ensures code == OK ==>
        && incidents == [] && advisories == []
        && |units| == |old(units)|
        && (forall i :: 0 <= i < |units| ==> units[i] == old(units)[i].(status := IDLE))
        && events == old(events) + [IncidentAlert([], units, None), AdvisoriesCleared]
    {
      if !KeyConfigured(serverKey) {
        return SERVER_ERROR;
      }
      if clientKey != serverKey {
        return FORBIDDEN;
      }
      incidents := [];
      units := ResetUnits(units);
      advisories := [];
      events := events + [IncidentAlert([], units, None), AdvisoriesCleared];
      code := OK;
    }
  }

  // ---------------------------------------------------------------------
  // Lemmas about the store operations
  // ---------------------------------------------------------------------

  /** A created incident depends only on the six copied body fields: a
      client-supplied status or assigned unit makes no difference. */
  lemma NewIncidentIgnoresStatusFields(b1: IncidentBody, b2: IncidentBody, id: Id, now: int)
    requires b1.kind == b2.kind && b1.description == b2.description && b1.severity == b2.severity
    requires b1.location == b2.location && b1.breakdown == b2.breakdown && b1.actionPlan == b2.actionPlan
    ensures NewIncident(b1, id, now) == NewIncident(b2, id, now)
    ensures NewIncident(b1, id, now).status == PENDING && NewIncident(b1, id, now).assignedUnit.None?
  {
  }

  /** Redeploying a busy unit to a second incident leaves the first incident
      dispatched to it as well: two incidents then name the same unit. */
  lemma RedeployKeepsEarlierAssignment(incidents: seq<Incident>, units: seq<ForceUnit>, first: Id, second: Id, unitId: Id)
    requires first != second
    ensures var after := Dispatch(Dispatch(incidents, first, unitId), second, unitId);
      forall i :: 0 <= i < |after| && incidents[i].id in {first, second} ==>
        after[i].status == DISPATCHED && after[i].assignedUnit == Some(unitId)
    ensures MarkBusy(MarkBusy(units, unitId), unitId) == MarkBusy(units, unitId)
  {
  }

  /** Deploying to an incident id that names no incident changes no incident
      and broadcasts no updated incident, yet still marks the unit busy. */
  lemma DeployToMissingIncident(incidents: seq<Incident>, units: seq<ForceUnit>, incidentId: Id, unitId: Id)
    requires forall k :: 0 <= k < |incidents| ==> incidents[k].id != incidentId
    ensures Dispatch(incidents, incidentId, unitId) == incidents
    ensures FindIncident(Dispatch(incidents, incidentId, unitId), incidentId).None?
    ensures forall i :: 0 <= i < |units| && units[i].id == unitId ==> MarkBusy(units, unitId)[i].status == BUSY
  {
  }

  /** When the incident exists, the event carries it dispatched to the unit. */
  lemma DeployReportsDispatchedIncident(incidents: seq<Incident>, incidentId: Id, unitId: Id)
    requires exists k :: 0 <= k < |incidents| && incidents[k].id == incidentId
    ensures var found := FindIncident(Dispatch(incidents, incidentId, unitId), incidentId);
      found.Some? && found.value.status == DISPATCHED && found.value.assignedUnit == Some(unitId)
  {
    var after := Dispatch(incidents, incidentId, unitId);
    var k :| 0 <= k < |incidents| && incidents[k].id == incidentId;
    assert after[k].id == incidentId;
    var found := FindIncident(after, incidentId);
    var j :| 0 <= j < |after| && after[j] == found.value;
  }

  /** Clearing keeps every unit: same count, ids, names, types and
      coordinates, with every status reset to 'IDLE'. */
  lemma ResetKeepsRoster(units: seq<ForceUnit>)
    ensures |ResetUnits(units)| == |units|
    ensures forall i :: 0 <= i < |units| ==>
      var u := ResetUnits(units)[i];
      u.id == units[i].id && u.name == units[i].name && u.kind == units[i].kind
      && u.coordinates == units[i].coordinates && u.status == IDLE
  {
  }

  /** A unit body without a status yields an idle unit. */
  lemma NewUnitDefaultsToIdle(body: UnitBody, id: Id)
    requires body.status.None?
    ensures NewUnit(body, id).status == IDLE
  {
  }
}
