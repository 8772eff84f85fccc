/** Record shapes shared by the server store and the dashboard clients.

    The three collections of the server (incidents, force units, advisories)
    are Mongoose schemas whose fields are free strings, numbers and arrays;
    a field the request body leaves out is absent (`None`).  Status values
    are free strings with schema defaults, not enumerations.
 */
module Records {

  datatype Option<+T> = None | Some(value: T)

  /** Document ids (MongoDB ObjectIds), drawn from one counter in the store. */
  type Id = nat

  /** A Mongoose `[Number]` coordinate array, `[lat, lng]` by convention;
      its entries may be null. */
  type Coordinates = seq<Option<real>>

  // Status and label constants used by the server and the clients
  const PENDING := "PENDING"
  const DISPATCHED := "DISPATCHED"
  const IDLE := "IDLE"
  const BUSY := "BUSY"
  const POLICE := "POLICE"
  const FIRE := "FIRE"
  const MEDICAL := "MEDICAL"
  const ADVISORY := "ADVISORY"
  /** Schema default of an advisory's author. */
  const DEFAULT_AUTHOR := "Location Help Centre"

  datatype Location = Location(address: Option<string>, coordinates: Coordinates)

  datatype Breakdown = Breakdown(
    evidenceSource: Option<string>,
    acoustics: seq<string>,
    visualClues: seq<string>,
    logisticsNeeded: seq<string>)

  /** A stored incident document. */
  datatype Incident = Incident(
    id: Id,
    kind: Option<string>,
    description: Option<string>,
    severity: Option<real>,
    location: Location,
    breakdown: Breakdown,
    actionPlan: Option<string>,
    status: string,
    assignedUnit: Option<Id>,
    timestamp: int)

  /** A stored force unit document. */
  datatype ForceUnit = ForceUnit(
    id: Id,
    name: Option<string>,
    kind: Option<string>,
    status: string,
    coordinates: Coordinates)

  /** A stored advisory document. */
  datatype Advisory = Advisory(
    id: Id,
    message: Option<string>,
    timestamp: int,
    author: string,
    relatedIncidentId: Option<Id>)

  /** The JSON body of `POST /api/incident`.  Besides the six fields the
      handler reads, a client may send `status` and `assignedUnit`; the
      handler ignores them.  A nested object the client leaves out is
      represented by its Mongoose default (no address, empty arrays). */
  datatype IncidentBody = IncidentBody(
    kind: Option<string>,
    description: Option<string>,
    severity: Option<real>,
    location: Location,
    breakdown: Breakdown,
    actionPlan: Option<string>,
    status: Option<string>,
    assignedUnit: Option<Id>)

  /** The JSON body of `POST /api/units`, stored as given. */
  datatype UnitBody = UnitBody(
    name: Option<string>,
    kind: Option<string>,
    status: Option<string>,
    coordinates: Option<Coordinates>)
}
