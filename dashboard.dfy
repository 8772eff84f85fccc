/** The surveillance dashboard's local state and the handlers that change
    it: focusing an incident (which recomputes dispatch suggestions),
    deploying a suggested unit, and the guarded system reset.

    Outgoing HTTP requests are recorded in `requests`; a delayed
    `setShouldFly(false)` is the separate step `EndFlight`.
 */
module Surveillance {
  import opened Records
  import opened Dispatch

  /** The map's home view and zoom levels. */
  const DEFAULT_VIEW: Coordinates := [Some(28.6139), Some(77.2090)]
  const DEFAULT_ZOOM := 11
  const FOCUS_ZOOM := 16

  datatype Request =
    | DeployRequest(incidentId: Id, unitId: Id)
    | ClearRequest(adminKey: string)

  /** How the `DELETE /api/clear` fetch ended. */
  datatype FetchOutcome = Answered(ok: bool) | NetworkError

  /** The key typed into the reset prompt is usable: not cancelled (null)
      and not empty. */
  predicate KeyGiven(key: Option<string>) {
    key.Some? && key.value != ""
  }

  class Dashboard {
    var incidents: seq<Incident>
    var units: seq<ForceUnit>
    var selectedIncident: Option<Incident>
    var suggestedUnits: seq<Candidate>
    var mapCenter: Option<Coordinates>
    var mapZoom: int
    var shouldFly: bool
    var isPanelOpen: bool
    /** Requests sent to the server, oldest first. */
    var requests: seq<Request>

    constructor ()
      ensures incidents == [] && units == [] && selectedIncident.None? && suggestedUnits == []
      ensures mapCenter.None? && mapZoom == DEFAULT_ZOOM && !shouldFly && !isPanelOpen
      ensures requests == []
    {
      incidents, units := [], [];
      selectedIncident := None;
      suggestedUnits := [];
      mapCenter := None;
      mapZoom := DEFAULT_ZOOM;
      shouldFly, isPanelOpen := false, false;
      requests := [];
    }

    /** `focusOnIncident`: an incident without a valid coordinate pair is
        ignored; otherwise it is selected, the map flies to it, and unless it
        is already dispatched the suggestions are recomputed. */
    method FocusOnIncident(incident: Incident, dist: Distance)
      modifies this
      ensures !IsValidCoord(ArrayValue(incident.location.coordinates)) ==>
        && selectedIncident == old(selectedIncident)
        && mapCenter == old(mapCenter) && mapZoom == old(mapZoom)
        && shouldFly == old(shouldFly) && isPanelOpen == old(isPanelOpen)
      ensures IsValidCoord(ArrayValue(incident.location.coordinates)) ==>
        && selectedIncident == Some(incident)
        && mapCenter == Some(incident.location.coordinates) && mapZoom == FOCUS_ZOOM
        && shouldFly && isPanelOpen
      ensures IsValidCoord(ArrayValue(incident.location.coordinates)) && incident.status != DISPATCHED ==>
        suggestedUnits == Suggest(old(units), incident.location.coordinates, dist)
      ensures !IsValidCoord(ArrayValue(incident.location.coordinates)) || incident.status == DISPATCHED ==>
        suggestedUnits == old(suggestedUnits)
      ensures incidents == old(incidents) && units == old(units) && requests == old(requests)
    {
      var at := incident.location.coordinates;
      if IsValidCoord(ArrayValue(at)) {
        selectedIncident, mapCenter, mapZoom := Some(incident), Some(at), FOCUS_ZOOM;
        shouldFly, isPanelOpen := true, true;
        if incident.status != DISPATCHED {
          suggestedUnits := Suggest(units, at, dist);
        }
      }
    }

    /** The delayed end of a map flight. */
    method EndFlight()
      modifies this
      ensures !shouldFly
      ensures selectedIncident == old(selectedIncident) && suggestedUnits == old(suggestedUnits)
      ensures mapCenter == old(mapCenter) && mapZoom == old(mapZoom) && isPanelOpen == old(isPanelOpen)
      ensures incidents == old(incidents) && units == old(units) && requests == old(requests)
    {
      shouldFly := false;
    }

    /** `handleDeploy`: without a selected incident nothing happens;
        otherwise the deploy request names the selected incident and the
        chosen unit, and the suggestion list is emptied. */
    method Deploy(unitId: Id)
      modifies this
      ensures selectedIncident.None? ==> requests == old(requests) && suggestedUnits == old(suggestedUnits)
      ensures selectedIncident.Some? ==>
        requests == old(requests) + [DeployRequest(selectedIncident.value.id, unitId)] && suggestedUnits == []
      ensures selectedIncident == old(selectedIncident) && incidents == old(incidents) && units == old(units)
      ensures mapCenter == old(mapCenter) && mapZoom == old(mapZoom)
      ensures shouldFly == old(shouldFly) && isPanelOpen == old(isPanelOpen)
    {
      if selectedIncident.None? {
        return;
      }
      requests := requests + [DeployRequest(selectedIncident.value.id, unitId)];
      suggestedUnits := [];
    }

    /** `handleResetView`. */
    method ResetView()
      modifies this
      ensures mapCenter == Some(DEFAULT_VIEW) && mapZoom == DEFAULT_ZOOM && shouldFly
      ensures selectedIncident == old(selectedIncident) && suggestedUnits == old(suggestedUnits)
      ensures isPanelOpen == old(isPanelOpen)
      ensures incidents == old(incidents) && units == old(units) && requests == old(requests)
    {
      mapCenter := Some(DEFAULT_VIEW);
      mapZoom := DEFAULT_ZOOM;
      shouldFly := true;
    }

    /** `handleResetSystem`: `key` is what the prompt returned (`None` when
        cancelled).  No request is sent without a key; on an ok answer the
        selection is cleared, the panel closed and the view reset.  The
        suggestion list is left as it was. */
    method ResetSystem(key: Option<string>, outcome: FetchOutcome)
      modifies this
      ensures !KeyGiven(key) ==>
        && requests == old(requests) && selectedIncident == old(selectedIncident)
        && mapCenter == old(mapCenter) && mapZoom == old(mapZoom)
        && shouldFly == old(shouldFly) && isPanelOpen == old(isPanelOpen)
      ensures KeyGiven(key) ==> requests == old(requests) + [ClearRequest(key.value)]
      ensures KeyGiven(key) && outcome == Answered(true) ==>
        && selectedIncident.None? && !isPanelOpen
        && mapCenter == Some(DEFAULT_VIEW) && mapZoom == DEFAULT_ZOOM && shouldFly
      ensures KeyGiven(key) && outcome != Answered(true) ==>
        && selectedIncident == old(selectedIncident)
        && mapCenter == old(mapCenter) && mapZoom == old(mapZoom)
        && shouldFly == old(shouldFly) && isPanelOpen == old(isPanelOpen)
      ensures suggestedUnits == old(suggestedUnits) && incidents == old(incidents) && units == old(units)
    {
      if !KeyGiven(key) {
        return;
      }
      requests := requests + [ClearRequest(key.value)];
      if outcome == Answered(true) {
        selectedIncident := None;
        isPanelOpen := false;
        ResetView();
      }
    }

    /** The `incident_alert` socket handler replaces both lists. */
    method OnIncidentAlert(newIncidents: seq<Incident>, newUnits: seq<ForceUnit>)
      modifies this
      ensures incidents == newIncidents && units == newUnits
      ensures selectedIncident == old(selectedIncident) && suggestedUnits == old(suggestedUnits)
      ensures mapCenter == old(mapCenter) && mapZoom == old(mapZoom)
      ensures shouldFly == old(shouldFly) && isPanelOpen == old(isPanelOpen)
      ensures requests == old(requests)
    {
      incidents, units := newIncidents, newUnits;
    }

    /** The `units_updated` socket handler replaces the roster. */
    method OnUnitsUpdated(newUnits: seq<ForceUnit>)
      modifies this
      ensures units == newUnits
      ensures incidents == old(incidents) && selectedIncident == old(selectedIncident)
      ensures suggestedUnits == old(suggestedUnits) && requests == old(requests)
      ensures mapCenter == old(mapCenter) && mapZoom == old(mapZoom)
      ensures shouldFly == old(shouldFly) && isPanelOpen == old(isPanelOpen)
    {
      units := newUnits;
    }
  }
}
