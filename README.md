# CrowdGuard in Dafny

CrowdGuard is a crowd-safety command centre. Citizens post text or media,
an external model turns each post into an incident report, and an Express
server stores incidents, force units and public advisories in MongoDB. It
broadcasts every change over Socket.IO. Operators watch a surveillance
dashboard, which suggests the nearest idle police, fire and medical unit for
a focused incident. They place units on a map and reset the system with an
admin key.

This project models the parts of that system that are sequential logic:

- `records.dfy` (module `Records`): the record shapes of the three
  collections and of the two request bodies the server stores, with their
  schema defaults.
- `server_store.dfy` (module `ServerStore`): the write handlers of the
  server as a class `Store` holding the three collections. An `events` log
  stands for `io.emit`. Ids come from one counter.
- `analysis.dfy` (module `Analysis`): the two pure steps of the analyze
  route, namely building the ordered request parts and cleaning the model's
  reply (fence removal and `trim`). The cleaned text is proved fence-free,
  trimmed and idempotent under cleaning.
- `dispatch.dfy` (module `Dispatch`): `isValidCoord` and the suggestion
  chain of the dashboard (filter, annotate, stable sort by distance, head
  per type). Distance is an arbitrary function. The chain is proved against
  a declarative reference: the first nearest eligible unit of each type in
  roster order.
- `dashboard.dfy` (module `Surveillance`): the dashboard's local state as a
  class whose handlers focus an incident, deploy, and reset. Outgoing
  requests go to a `requests` log.
- `unit_manager.dfy` (module `UnitManagement`): the default unit name
  (prefix plus `101 + roster length`), with a decimal round trip, and the
  record posted on a map click.
- `social_feed.dfy` (module `SocialFeed`): the advisory feed reducer, proved
  to mirror the store's advisories newest first, and the composer's post
  status machine as a class.

Timers (`setTimeout`) are separate later steps (`EndFlight`, `FireTimer`).
The awaited analysis and publish calls become the `outcome` parameter of a
post, the haversine distance becomes the `dist` parameter of the suggestion
chain, and the clock becomes the `now` parameter of record creation.

## Model

| member | source | states |
|---|---|---|
| Analysis.RemoveAll | server/index.js:101 | A global literal `replace` of a non-empty pattern: defined by scanning left to right and dropping each non-overlapping occurrence. Its properties are RemoveAllAbsent and StripFencesIsFenceFree. |
| Analysis.Clean | server/index.js:101 | The cleaning chain: remove "```json", then "```", then trim. Its properties are CleanIsFenceFreeAndTrimmed and CleanIdempotent. |
| Analysis.ReplyFor | server/index.js:100-105 | The reply: the cleaned text handed to `JSON.parse` for every task but ADVISORY, the trimmed raw text for ADVISORY. Its property is ReplyRouting. |
| Analysis.AssembleParts | server/index.js:48-89 | The parts are the text (only when truthy), then the inline file with its mime type (only when its data is truthy), then the instruction. The instruction is always last and appears nowhere else. An advisory task's instruction embeds the text, or `undefined` when it is absent. |
| Analysis.TrimStart | server/index.js:101 | The result is a suffix of the input. Everything cut off is ECMAScript whitespace, and the result does not start with whitespace. |
| Analysis.TrimEnd | server/index.js:101 | The result is a prefix of the input. Everything cut off is whitespace, and the result does not end with whitespace. |
| Analysis.Trim | server/index.js:101 | `trim` gives the infix at `TrimOffset`. Everything around it is whitespace, and neither of its ends is whitespace. |
| Analysis.StripFencesIsFenceFree | server/index.js:101 | After the global removal of "```", no three consecutive backticks remain anywhere. |
| Analysis.CleanIsFenceFreeAndTrimmed | server/index.js:101 | The text handed to `JSON.parse` contains no code fence and has no leading or trailing whitespace. |
| Analysis.RemoveAllAbsent | server/index.js:101 | A global literal replace leaves a string unchanged when the pattern occurs nowhere in it. |
| Analysis.TrimIdentity | server/index.js:101 | Trimming a string whose ends are not whitespace gives the string back. |
| Analysis.CleanIdempotent | server/index.js:101 | Cleaning an already cleaned reply changes nothing. |
| Analysis.ReplyRouting | server/index.js:100-105 | Every task other than ADVISORY sends the cleaned, fence-free reply to the parser. ADVISORY returns the reply only trimmed, fences included. |
| ServerStore.NewIncident | server/index.js:144-145 | The saved incident: the six copied body fields, status 'PENDING', no assigned unit, the fresh id and the clock. Its property is NewIncidentIgnoresStatusFields. |
| ServerStore.NewUnit | server/models/ForceUnit.js:3-8 | The saved unit: the body's fields, with the schema default 'IDLE' for a missing status and an empty array for missing coordinates. Its property is NewUnitDefaultsToIdle. |
| ServerStore.NewAdvisory | server/models/Advisory.js:3-8 | The saved advisory: the message, the clock, the default author "Location Help Centre" and no related incident. |
| ServerStore.Dispatch | server/index.js:132 | The incident update of a deploy: every incident with the given id becomes 'DISPATCHED' and assigned to the unit; the others are kept. Its properties are the Store.Deploy contract and RedeployKeepsEarlierAssignment. |
| ServerStore.MarkBusy | server/index.js:133 | The unit update of a deploy: every unit with the given id becomes 'BUSY'; the others are kept. |
| ServerStore.ResetUnits | server/index.js:189 | `updateMany` with status 'IDLE' on every unit. Its property is ResetKeepsRoster. |
| ServerStore.Store.constructor | server/index.js:38 | A fresh database: no incidents, units or advisories, nothing broadcast, and the id invariant holds. |
| ServerStore.FindIncident | server/index.js:132 | The result is a stored incident with the requested id. It is absent exactly when no incident has that id. |
| ServerStore.Store.CreateIncident | server/index.js:142-156 | Appends exactly one incident built from the six copied body fields, with status 'PENDING', no assigned unit and a fresh id. The other collections are untouched. Broadcasts `incident_alert` with the full lists and the new incident. The id invariant is preserved. |
| ServerStore.Store.AddUnit | server/index.js:124-128 | Appends exactly one unit: the body, with status 'IDLE' when the body has none. Broadcasts `units_updated` with a roster that contains it. |
| ServerStore.Store.Deploy | server/index.js:130-140 | The named incident becomes 'DISPATCHED' and is assigned to the unit. The named unit becomes 'BUSY'. Every other record is unchanged, and nothing is validated. The broadcast carries the updated incident if it exists. |
| ServerStore.Store.PostAdvisory | server/index.js:158-169 | Appends one advisory with the message, the default author and no related incident. Broadcasts `advisory_posted` with it. |
| ServerStore.Store.Clear | server/index.js:172-196 | Answers 500 when no key is configured, 403 when the header key differs, and 200 otherwise. On 500 and 403 nothing changes. On 200 incidents and advisories are emptied, every unit is kept with status 'IDLE', and `incident_alert` then `advisories_cleared` are broadcast. |
| ServerStore.NewIncidentIgnoresStatusFields | server/index.js:144-145 | A client-supplied status or assigned unit makes no difference to the created incident, which is always 'PENDING' and unassigned. |
| ServerStore.RedeployKeepsEarlierAssignment | server/index.js:130-133 | Deploying one unit to two incidents leaves both dispatched to it. Marking a unit busy twice is marking it once. |
| ServerStore.DeployToMissingIncident | server/index.js:130-138 | An incident id that names no incident changes no incident and broadcasts no incident, yet the unit is still marked busy. |
| ServerStore.DeployReportsDispatchedIncident | server/index.js:132-138 | When the incident exists, the broadcast incident is dispatched to the unit. |
| ServerStore.ResetKeepsRoster | server/index.js:189 | Resetting units keeps their count, ids, names, types and coordinates, and sets every status to 'IDLE'. |
| ServerStore.NewUnitDefaultsToIdle | server/models/ForceUnit.js:6 | A unit body without a status yields an idle unit. |
| Dispatch.IsValidCoord | client/src/components/SurveillanceDashboard.tsx:50 | A coordinate value is valid exactly when it is an array of length 2 whose two entries are neither null nor undefined. |
| Dispatch.Filter | client/src/components/SurveillanceDashboard.tsx:152 | The result is no longer than the input. An element is in the result exactly when it is in the input and satisfies the predicate. |
| Dispatch.FilterAppend | client/src/components/SurveillanceDashboard.tsx:152 | Filtering distributes over concatenation, so the kept elements stay in input order. |
| Dispatch.Annotate | client/src/components/SurveillanceDashboard.tsx:153-156 | One candidate per unit, in order: entry i is unit i with its distance to the incident. |
| Dispatch.Insert | client/src/components/SurveillanceDashboard.tsx:159-161 | Inserting into a list sorted by distance gives a sorted list one longer. |
| Dispatch.SortByDistance | client/src/components/SurveillanceDashboard.tsx:159-161 | The sort keeps the length and orders by non-decreasing distance. |
| Dispatch.InsertPermutes | client/src/components/SurveillanceDashboard.tsx:159-161 | Insertion adds exactly the inserted candidate (as a multiset). |
| Dispatch.SortPermutes | client/src/components/SurveillanceDashboard.tsx:159-161 | The sort is a permutation of its input. |
| Dispatch.Suggest | client/src/components/SurveillanceDashboard.tsx:150-164 | The suggestion chain: idle well-placed units annotated with distance, then the head of each type's sorted list for POLICE, FIRE and MEDICAL, undefined heads dropped. Its properties are SuggestionShape and SuggestedAreFirstNearest. |
| Dispatch.BestIsFirstNearest | client/src/components/SurveillanceDashboard.tsx:159-161 | The head of a type's stably sorted idle candidates is absent exactly when no unit of that type is eligible. Otherwise it is the eligible unit no farther than any other, and on ties the first in roster order, with its distance. |
| Dispatch.BestPresence | client/src/components/SurveillanceDashboard.tsx:159-163 | A type has a best unit exactly when one of its units is eligible, and that unit is of the type. |
| Dispatch.DefinedInRankOrder | client/src/components/SurveillanceDashboard.tsx:163 | Dropping the undefined entries of [police, fire, medical] keeps at most three, in that order, each one of the three, and a type appears exactly when its entry was defined. |
| Dispatch.SuggestionShape | client/src/components/SurveillanceDashboard.tsx:150-163 | The suggestion list has at most 3 entries, at most one per type, in the order POLICE, FIRE, MEDICAL, and no other type. A type appears exactly when some unit of it is IDLE with valid coordinates. |
| Dispatch.SuggestedAreFirstNearest | client/src/components/SurveillanceDashboard.tsx:150-163 | Every suggested unit is a roster unit with status 'IDLE' and valid coordinates. It is no farther than any eligible unit of its type, and the first such in roster order. |
| Surveillance.Dashboard.constructor | client/src/components/SurveillanceDashboard.tsx:73-84 | Empty lists, no selection, no map centre, zoom 11, panel closed. |
| Surveillance.Dashboard.FocusOnIncident | client/src/components/SurveillanceDashboard.tsx:140-165 | An incident without a valid coordinate pair changes nothing. Otherwise it is selected, the map centres on it at zoom 16 and flies, and the panel opens. Suggestions are recomputed from the current roster only when its status is not 'DISPATCHED'; otherwise the previous list is kept. |
| Surveillance.Dashboard.EndFlight | client/src/components/SurveillanceDashboard.tsx:148 | The delayed callback only clears the fly flag. |
| Surveillance.Dashboard.Deploy | client/src/components/SurveillanceDashboard.tsx:167-175 | Without a selection nothing happens. Otherwise a deploy request names the selected incident and the chosen unit, and the suggestions are emptied. |
| Surveillance.Dashboard.ResetView | client/src/components/SurveillanceDashboard.tsx:119-124 | The map goes to DEFAULT_VIEW at zoom 11 and flies. |
| Surveillance.Dashboard.ResetSystem | client/src/components/SurveillanceDashboard.tsx:91-117 | No request is sent when the prompted key is cancelled or empty. Otherwise the key is sent. On an ok answer the selection is cleared, the panel closes and the view resets. On a refusal or a network error the local state is kept. Suggestions are never touched. |
| Surveillance.Dashboard.OnIncidentAlert | client/src/components/SurveillanceDashboard.tsx:185-188 | Both lists are replaced by the broadcast ones. The selection, the suggestions, the map view, the panel and the request log are unchanged. |
| Surveillance.Dashboard.OnUnitsUpdated | client/src/components/SurveillanceDashboard.tsx:195 | The roster is replaced by the broadcast one. Everything else is unchanged. |
| UnitManagement.Decimal | client/src/components/UnitManager.tsx:49 | The rendering of a number is a non-empty digit string with no leading zero. |
| UnitManagement.DecimalRoundTrip | client/src/components/UnitManager.tsx:49 | Reading the rendered digits back gives the number. |
| UnitManagement.Prefix | client/src/components/UnitManager.tsx:48 | 'PCR' for POLICE, 'ENG' for FIRE, 'MED' for every other type. |
| UnitManagement.DecimalUnique | client/src/components/UnitManager.tsx:49 | A digit string without a leading zero that denotes n is the rendering of n, so the rendering is the canonical one. |
| UnitManagement.NextName | client/src/components/UnitManager.tsx:47-50 | The name is the type's prefix ('PCR', 'ENG', otherwise 'MED'), a dash, and the decimal rendering of `101 + count`: digits that denote it, with no leading zero. |
| UnitManagement.NextNameInjective | client/src/components/UnitManager.tsx:47-50 | Equal generated names come from equal counts and equal prefixes. |
| UnitManagement.FirstNames | client/src/components/UnitManager.tsx:48-49 | An empty roster yields 'PCR-101', 'ENG-101' and 'MED-101'. |
| UnitManagement.ClickBody | client/src/components/UnitManager.tsx:67-72 | The posted body: the name, the selected type, status 'IDLE' and coordinates [lat, lng]. Its property is ClickedUnitIsEligible. |
| UnitManagement.ClickedUnitIsEligible | client/src/components/UnitManager.tsx:67-72 | The unit the server stores for a map click has the typed or generated name, the selected type, status 'IDLE' and coordinates [lat, lng]. It is therefore at once eligible for dispatch suggestions of its type. |
| UnitManagement.UnitManager.constructor | client/src/components/UnitManager.tsx:43-45 | Empty roster, type 'POLICE', empty name. |
| UnitManagement.UnitManager.Placeholder | client/src/components/UnitManager.tsx:137 | The placeholder carries the selected type's prefix and the decimal rendering of `101 +` the whole roster length, not the count of that type. |
| UnitManagement.UnitManager.SelectType | client/src/components/UnitManager.tsx:95-127 | Only the selected type changes. |
| UnitManagement.UnitManager.SetName | client/src/components/UnitManager.tsx:136 | Only the typed name changes. |
| UnitManagement.UnitManager.OnUnitsUpdated | client/src/components/UnitManager.tsx:52-56 | The roster is replaced by the received list. |
| UnitManagement.UnitManager.AddUnit | client/src/components/UnitManager.tsx:62-75 | A non-empty typed name is used verbatim; only an empty one falls back to the placeholder. Exactly one body is posted, with the selected type, status 'IDLE' and coordinates [lat, lng]. The typed name is then cleared. |
| SocialFeed.InitialFeed | client/src/components/SocialSimulator.tsx:20 | `data.advisories || []`: the loaded list, or empty when the field is missing. |
| SocialFeed.ApplyFeedEvent | client/src/components/SocialSimulator.tsx:22-26 | The feed reducer: a posted advisory goes to the front, a clear empties the feed, other broadcasts are ignored. Its properties are FeedWithoutClear, FeedAfterLastClear and FeedMirrorsStore. |
| SocialFeed.FeedWithoutClear | client/src/components/SocialSimulator.tsx:22-24 | Without a clear, the feed gains the posted advisories newest first, in front of what it held, whose order is kept. |
| SocialFeed.FeedAfterAppend | client/src/components/SocialSimulator.tsx:22-26 | Handling broadcasts in two batches is handling them in one. |
| SocialFeed.FeedAfterLastClear | client/src/components/SocialSimulator.tsx:26 | After a clear the feed holds only the advisories posted since, newest first. |
| SocialFeed.FeedMirrorsStore | client/src/components/SocialSimulator.tsx:22-26 | A feed that shows the store's advisories newest first still does after each store broadcast: a post appends in the store and prepends in the feed, and a clear empties both. |
| SocialFeed.PostTrace | client/src/components/SocialSimulator.tsx:46-61 | The statuses a post sets: PROCESSING, then PUBLISHING when the analysis answered, then SENT when the incident POST reached the server, ERROR at the first failure. Its property is PostTraceIsWalk. |
| SocialFeed.PostTraceIsWalk | client/src/components/SocialSimulator.tsx:44-62 | A post sets PROCESSING first and follows the machine's transitions. It ends in SENT exactly when the analysis answered and the incident POST reached the server, and in ERROR otherwise. |
| SocialFeed.SocialSimulator.constructor | client/src/components/SocialSimulator.tsx:9-13 | Empty text, no file or preview, status 'IDLE', empty feed. |
| SocialFeed.SocialSimulator.PostEnabled | client/src/components/SocialSimulator.tsx:112 | The post button is enabled only while the status is 'IDLE' and there is text or a file, so a press always meets HandlePost's precondition. |
| SocialFeed.SocialSimulator.SetText | client/src/components/SocialSimulator.tsx:94 | Only the text changes; the status, its log and the scheduled reset are kept. |
| SocialFeed.SocialSimulator.SelectFile | client/src/components/SocialSimulator.tsx:35-41 | A selected file is stored with its preview URL. An empty selection changes nothing. Text, status, status log and feed are kept. |
| SocialFeed.SocialSimulator.ClearFile | client/src/components/SocialSimulator.tsx:42 | File and preview both become null. Nothing else changes. |
| SocialFeed.SocialSimulator.LoadInitial | client/src/components/SocialSimulator.tsx:18-20 | The feed becomes the loaded advisories, or empty when the field is missing. Nothing else changes. |
| SocialFeed.SocialSimulator.ReceiveEvent | client/src/components/SocialSimulator.tsx:22-26 | A posted advisory goes to the front, and a clear empties the feed. Nothing else changes. |
| SocialFeed.SocialSimulator.HandlePost | client/src/components/SocialSimulator.tsx:44-63 | With neither text nor file nothing happens. Otherwise the statuses of the post's trace are logged, and the status ends SENT (with the analysis result published) or ERROR (with nothing published). The matching reset is scheduled, and text and file stay in place. The machine invariant is preserved. |
| SocialFeed.SocialSimulator.FireTimer | client/src/components/SocialSimulator.tsx:59-61 | The status returns to IDLE. After a success the text, file and preview are cleared; after an error they stay. |

## Left out

- The haversine `getDistanceKm` (client/src/components/SurveillanceDashboard.tsx:52-59) is floating-point trigonometry. Distance is a parameter returning a real number, and every dispatch property holds for any such function. The model does not include NaN: for nearly antipodal points rounding can make `1 - a` negative, `Math.sqrt` then gives NaN, and a NaN comparator result makes the sort order implementation-defined.
- The external model call and `JSON.parse` of its output are foreign code. So are the rate limiter of the analyze route and the client wrappers that call it. The model does not include the exact wording of the two prompt templates; an instruction part records only which template was used and, for an advisory, the interpolated text.
- Mongoose, MongoDB and Socket.IO internals are not modelled. The collections are in-memory sequences in insertion order, and `io.emit` appends to a log. Broadcast incident lists are in insertion order, not sorted by timestamp. `populate('assignedUnit')` is not modelled: an assigned unit is its id. ObjectId cast errors and unhandled promise rejections are not modelled either.
- The bulk read `GET /api/data` (newest first, at most 50 advisories) is not modelled. The clients' initial loads take its answer as a parameter.
- ServerStore.Store.Deploy: the unit id is always a present id. A request whose body lacks `unitId` or sends null would store a 'DISPATCHED' incident with no assigned unit (server/index.js:131-132); the model does not include such requests, and its invariant that every dispatched incident names a unit relies on that. The dashboard always sends a suggested unit's id.
- Concurrency between handlers and between awaits is not modelled. Each handler is one atomic step, so races such as two deploys of one unit are out of scope.
- Surveillance.Dashboard.Deploy: the request is recorded as sent. The model does not include a failed fetch, which the source does not catch.
- UnitManagement.UnitManager.AddUnit: the post is recorded as sent. The model does not include a failed fetch, which the source does not catch.
- SocialFeed.SocialSimulator.HandlePost: requires status 'IDLE'. The handler does not check it; the disabled post button (client/src/components/SocialSimulator.tsx:112) guarantees it.
- Timers are explicit later steps. The fixed delays (2500 ms, 2000 ms, 3000 ms) are not modelled, and a post waits for its reset before the next post.
- The dashboard's advisory broadcast (`handleBroadcastAdvisory`), its flash effect and its map rendering are not modelled. The broadcast is an external model call followed by a POST.
- The other client files (landing page, routing, status sidebar, helpline recorder, feed injector, service wrappers) are not part of this model. They are UI, I/O or network wrappers.
- Deploy order: the code writes the incident first and then the unit (server/index.js:132-133). Each handler is atomic here, so the order is not observable.
