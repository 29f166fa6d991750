# DevOps Incident Board: the incident lifecycle in Dafny

This project models the incident lifecycle of the DevOps Incident Board and proves properties
of that model. An incident is a record with a title, a severity, a status (OPEN, INVESTIGATING
or RESOLVED) and three resolution fields: a comment, who resolved it, and when. The lifecycle
exists twice:

- the in-memory mock API server (`MockApi`), a class holding the `incidents` array and the
  `nextId` counter, with one method per HTTP handler;
- the Spring backend. `IncidentEntity` models the mutable JPA entity with its constructors and
  setters. `IncidentApi` models the incident controller over a table of rows. `BeepApi` models
  the beep controller. `Jpa` models the repository `save` both controllers call.

The web UI's pure view logic is modelled too:

- `IncidentListView`: the board with its counters and its critical and other sections;
- `IncidentItemView`: the incident card's icon, badge, guards and text;
- `BeepItemView`: the beep card;
- `RelativeTime`: the relative-time text both cards share.

Small shared modules give the JavaScript and Java operations these rely on:

- `Js`: truthiness and `||`;
- `JavaStrings`: `String.trim`, the blank test and `replace`;
- `Sequences`: `Array.prototype.filter`;
- `Sorting`: a stable sort by a key in descending order, and a sorted listing of a table's rows;
- `Http`: the replies and their status codes.

The central property is the lifecycle invariant: a record whose status is not RESOLVED carries
no resolution field. It holds one way only, because a RESOLVED record may lack resolution fields.

- Mock server: `IncidentStore.Valid()` includes the invariant. The seed, create, status update
  and delete all preserve it.
- Spring backend: the status update preserves the invariant (`IncidentController.Consistent()`).
  Create stores whatever resolution fields the request body carries, so it can break the
  invariant. `IncidentApi.CreateMayStoreResolution` exhibits such a request.

Timestamps are integer milliseconds. The clock reading ("now") is a parameter, and so are
`LocalDateTime.parse`, `toLocaleDateString` and `window.confirm`.

## Model

| member | source | states |
|---|---|---|
| MockApi.SeedRecord | mock-api-server.js:11-138 | each seed record has its array position plus one as id, and satisfies the lifecycle invariant |
| MockApi.Seed | mock-api-server.js:11-138 | the server starts with twelve records with ids 1 to 12 in order, each satisfying the lifecycle invariant |
| MockApi.Position | mock-api-server.js:211 | `findIndex` by id: -1 exactly when no record has the id, otherwise the first position holding it |
| MockApi.RemoveAt | mock-api-server.js:213 | `splice(k, 1)` drops exactly the record at position k and keeps the others in order |
| MockApi.RemoveAtValid | mock-api-server.js:213 | removing a record keeps ids unique, issued and below the counter, keeps the lifecycle invariant, and leaves no record with the removed id |
| MockApi.Deleted | mock-api-server.js:211-213 | deleting an id no record has changes nothing; otherwise exactly one record, the first with that id, is removed |
| MockApi.DeletedValid | mock-api-server.js:210-219 | the delete handler keeps the store invariant and afterwards no record has the deleted id |
| MockApi.NewIncident | mock-api-server.js:167-175 | a created record has the given id and now as createdAt, and copies the title unchecked; a falsy description becomes '', severity 'MEDIUM', status 'OPEN', createdBy 'Anonymous'; no resolution field is set |
| MockApi.ApplyStatus | mock-api-server.js:187-200 | only status and the three resolution fields change, and status becomes the body's; a status other than RESOLVED clears all three; RESOLVED takes comment and resolver from the body (null when falsy) and resolvedAt from the body or now; the invariant holds afterwards |
| MockApi.ApplyStatusRepeated | mock-api-server.js:187-200 | repeating an update gives the same record if and only if the status is not RESOLVED, or the body gives resolvedAt, or the clock reads the same |
| MockApi.ResolveThenReopen | mock-api-server.js:190-200 | resolving always sets resolvedAt; a later move to any other status leaves no resolution field |
| MockApi.IncidentStore.constructor | mock-api-server.js:11-140 | the store starts with the seed and nextId 13, with unique ids below nextId and the invariant holding |
| MockApi.IncidentStore.FindIndex | mock-api-server.js:157 | the loop's search returns exactly `Position` |
| MockApi.IncidentStore.Health | mock-api-server.js:143-145 | the health route replies 200 "OK" |
| MockApi.IncidentStore.List | mock-api-server.js:148-153 | the reply is a permutation of the store, sorted with non-increasing createdAt; records with equal createdAt keep their store order; the store itself is not reordered |
| MockApi.IncidentStore.Get | mock-api-server.js:156-163 | 404 exactly when no record has the id; otherwise the first record with that id |
| MockApi.IncidentStore.Create | mock-api-server.js:166-180 | 201 with `NewIncident(nextId, body, now)`, appended at the end; nextId grows by one; the id was never issued before; ids stay unique and the invariant holds |
| MockApi.IncidentStore.UpdateStatus | mock-api-server.js:183-207 | unknown id: 404 and no change; otherwise only the matching record is replaced, by `ApplyStatus`, keeping length and order; the invariant holds |
| MockApi.IncidentStore.Delete | mock-api-server.js:210-219 | the store becomes `Deleted(store, id)`; the reply is 404 when no record has the id and 204 otherwise; the invariant holds |
| Sorting.SortDesc | mock-api-server.js:149-151 | the sorted copy is a permutation of the input, with non-increasing keys |
| Sorting.SortDescStable | mock-api-server.js:149-151 | the sort is stable: the records with any one key appear in input order |
| Sorting.InsertSorted | mock-api-server.js:149-151 | inserting into a sorted sequence keeps it sorted |
| Sorting.ValuesSortedDesc | beeper-backend/src/main/java/com/redhat/training/beeper/IncidentController.java:22 | `findAllByOrderByCreatedAtDesc` returns each row of the table once, with non-increasing createdAt |
| JavaStrings.Trim | beeper-backend/src/main/java/com/redhat/training/beeper/IncidentController.java:35 | `trim()` returns the slice of the string left after cutting every character at or below U+0020 from both ends: everything outside the slice is at or below U+0020, and a non-empty result starts and ends above it |
| JavaStrings.TrimEmptyIff | beeper-backend/src/main/java/com/redhat/training/beeper/IncidentController.java:35 | `trim().isEmpty()` holds exactly when every character is at or below U+0020 |
| JavaStrings.IsBlankIff | beeper-backend/src/main/java/com/redhat/training/beeper/IncidentController.java:35 | the title test holds exactly for null or all-whitespace strings |
| JavaStrings.Without | beeper-backend/src/main/java/com/redhat/training/beeper/IncidentController.java:72 | `replace("Z", "")` removes every Z and nothing else: the result has no Z, keeps the other characters with their multiplicities and in their order (a subsequence of the input), so it is shorter by exactly the number of Z |
| IncidentEntity.StatusValueOf | beeper-backend/src/main/java/com/redhat/training/beeper/IncidentController.java:63 | `Status.valueOf` accepts exactly the three constant names and returns the constant of that name |
| IncidentEntity.StatusNameRoundTrip | beeper-backend/src/main/java/com/redhat/training/beeper/IncidentController.java:63 | every status is recovered from its name |
| IncidentEntity.Incident.constructor | beeper-backend/src/main/java/com/redhat/training/beeper/Incident.java:43-47 | a new incident is OPEN and MEDIUM, created now, with no id and no resolution field |
| IncidentEntity.Incident.Of | beeper-backend/src/main/java/com/redhat/training/beeper/Incident.java:49-56 | takes the given fields, maps a null severity to MEDIUM and keeps any other, and is OPEN, created now, with no id and no resolution field |
| IncidentEntity.Incident.Load | beeper-backend/src/main/java/com/redhat/training/beeper/Incident.java:8-41 | an object read back from the table holds exactly the row's field values |
| IncidentEntity.Incident.SetId | beeper-backend/src/main/java/com/redhat/training/beeper/Incident.java:63-65 | changes the id and nothing else |
| IncidentEntity.Incident.SetTitle | beeper-backend/src/main/java/com/redhat/training/beeper/Incident.java:71-73 | changes the title and nothing else |
| IncidentEntity.Incident.SetDescription | beeper-backend/src/main/java/com/redhat/training/beeper/Incident.java:79-81 | changes the description and nothing else |
| IncidentEntity.Incident.SetSeverity | beeper-backend/src/main/java/com/redhat/training/beeper/Incident.java:87-89 | changes the severity and nothing else |
| IncidentEntity.Incident.SetStatus | beeper-backend/src/main/java/com/redhat/training/beeper/Incident.java:95-97 | changes the status and nothing else |
| IncidentEntity.Incident.SetCreatedAt | beeper-backend/src/main/java/com/redhat/training/beeper/Incident.java:103-105 | changes createdAt and nothing else |
| IncidentEntity.Incident.SetCreatedBy | beeper-backend/src/main/java/com/redhat/training/beeper/Incident.java:111-113 | changes createdBy and nothing else |
| IncidentEntity.Incident.SetResolutionComment | beeper-backend/src/main/java/com/redhat/training/beeper/Incident.java:119-121 | changes the resolution comment and nothing else |
| IncidentEntity.Incident.SetResolvedBy | beeper-backend/src/main/java/com/redhat/training/beeper/Incident.java:127-129 | changes resolvedBy and nothing else |
| IncidentEntity.Incident.SetResolvedAt | beeper-backend/src/main/java/com/redhat/training/beeper/Incident.java:135-137 | changes resolvedAt and nothing else |
| Jpa.SaveRow | beeper-backend/src/main/java/com/redhat/training/beeper/IncidentController.java:47 | `save` replaces the row whose id the entity names; otherwise it inserts under the next identity value, which then advances |
| IncidentApi.SaveIncident | beeper-backend/src/main/java/com/redhat/training/beeper/IncidentController.java:47 | the saved row is the entity with an id, stored under that id |
| IncidentApi.SaveIncidentValid | beeper-backend/src/main/java/com/redhat/training/beeper/IncidentController.java:47 | saving keeps every row under its own id below the counter; a stored id is kept; any other entity gets a fresh id |
| IncidentApi.SaveIncidentConsistent | beeper-backend/src/main/java/com/redhat/training/beeper/IncidentController.java:83 | saving a row that satisfies the invariant keeps the table satisfying it |
| IncidentApi.WithDefaults | beeper-backend/src/main/java/com/redhat/training/beeper/IncidentController.java:38-46 | a null or blank createdBy becomes "Anonymous", a null severity MEDIUM, a null status OPEN; non-null values and every other field are kept |
| IncidentApi.WithDefaultsComplete | beeper-backend/src/main/java/com/redhat/training/beeper/IncidentController.java:38-46 | after the defaults, createdBy is not blank and severity and status are set |
| IncidentApi.CreateMayStoreResolution | beeper-backend/src/main/java/com/redhat/training/beeper/IncidentController.java:33-48 | a body with a title and a resolver but no status is stored as OPEN with a resolver, so create does not keep the invariant |
| IncidentApi.Field | beeper-backend/src/main/java/com/redhat/training/beeper/IncidentController.java:68-70 | `statusUpdate.get(key)` is null exactly when the key is absent |
| IncidentApi.ApplyStatusUpdate | beeper-backend/src/main/java/com/redhat/training/beeper/IncidentController.java:62-87 | rejected (400) exactly for a status that names no constant; fails (500) exactly when the status is missing or a given resolvedAt does not parse; otherwise only status and the resolution fields change, a non-RESOLVED status clears all three, RESOLVED copies comment and resolver as given and takes resolvedAt parsed with Z removed, or now; the invariant holds |
| IncidentApi.ReopenForgetsResolution | beeper-backend/src/main/java/com/redhat/training/beeper/IncidentController.java:67-81 | reopening clears the resolution fields; resolving again afterwards takes only the new body's values and the new time |
| IncidentApi.IncidentController.constructor | beeper-backend/src/main/java/com/redhat/training/beeper/IncidentRepository.java:9 | the table starts empty with identity counter 1 |
| IncidentApi.IncidentController.Save | beeper-backend/src/main/java/com/redhat/training/beeper/IncidentController.java:47 | the table and counter become those of `SaveIncident`, keeping the table well formed |
| IncidentApi.IncidentController.GetAllIncidents | beeper-backend/src/main/java/com/redhat/training/beeper/IncidentController.java:20-24 | 200 with every stored row exactly once and nothing else, with non-increasing createdAt |
| IncidentApi.IncidentController.GetIncidentById | beeper-backend/src/main/java/com/redhat/training/beeper/IncidentController.java:26-31 | 200 with the row of that id, or 404 when there is none |
| IncidentApi.IncidentController.CreateIncident | beeper-backend/src/main/java/com/redhat/training/beeper/IncidentController.java:33-49 | null or blank title: 400, nothing saved, the object unchanged; otherwise the defaults are applied, the row is saved and returned with 201, and a request object sent without an id receives the generated id while one sent with an id keeps it; the invariant is kept when the saved row satisfies it |
| IncidentApi.IncidentController.UpdateIncidentStatus | beeper-backend/src/main/java/com/redhat/training/beeper/IncidentController.java:51-88 | unknown id: 404 and no change; otherwise the row is replaced by the result of `ApplyStatusUpdate` (200), or left unchanged with 400 or 500; the counter never moves and the invariant is kept |
| IncidentApi.IncidentController.DeleteIncident | beeper-backend/src/main/java/com/redhat/training/beeper/IncidentController.java:90-97 | an existing id: 204 and exactly that row removed; otherwise 404 and no change |
| IncidentApi.IncidentController.Health | beeper-backend/src/main/java/com/redhat/training/beeper/IncidentController.java:99-102 | the health route replies 200 "OK" |
| BeepApi.SaveBeep | beeper-backend/src/main/java/com/redhat/training/beeper/BeepController.java:39 | the saved beep is the given one with an id, stored under that id |
| BeepApi.SaveBeepValid | beeper-backend/src/main/java/com/redhat/training/beeper/BeepController.java:39 | saving keeps every beep under its own id below the counter, and a new beep gets a fresh id |
| BeepApi.WithAuthor | beeper-backend/src/main/java/com/redhat/training/beeper/BeepController.java:36-38 | a null or blank author becomes "Anonymous", any other beep is unchanged, and the author is never blank afterwards |
| BeepApi.BeepController.constructor | beeper-backend/src/main/java/com/redhat/training/beeper/BeepRepository.java:9 | the table starts empty with identity counter 1 |
| BeepApi.BeepController.GetAllBeeps | beeper-backend/src/main/java/com/redhat/training/beeper/BeepController.java:18-22 | 200 with every stored beep exactly once and nothing else, with non-increasing createdAt |
| BeepApi.BeepController.GetBeepById | beeper-backend/src/main/java/com/redhat/training/beeper/BeepController.java:24-29 | 200 with the beep of that id, or 404 when there is none |
| BeepApi.BeepController.CreateBeep | beeper-backend/src/main/java/com/redhat/training/beeper/BeepController.java:31-41 | null or blank message: 400 and nothing saved; otherwise the beep is saved with its author defaulted and returned with 201 |
| BeepApi.BeepController.DeleteBeep | beeper-backend/src/main/java/com/redhat/training/beeper/BeepController.java:43-50 | an existing id: 204 and exactly that beep removed; otherwise 404 and no change |
| BeepApi.BeepController.Health | beeper-backend/src/main/java/com/redhat/training/beeper/BeepController.java:52-55 | the health route replies 200 "OK" |
| Js.Or | beeper-ui/src/components/BeepItem.jsx:32 | `v \|\| fallback` is the fallback for undefined, null and '' and the value otherwise |
| RelativeTime.Bucket | beeper-ui/src/components/IncidentItem.jsx:5-18 | under a minute, future times included: just now; otherwise a count of minutes 1-59, hours 1-23 or days 1-6, each bracketing the age; from seven days on: the locale date; the five ranges are disjoint and cover every age |
| RelativeTime.FormatDate | beeper-ui/src/components/BeepItem.jsx:5-19 | the text is "Just now", "<n>m ago", "<n>h ago", "<n>d ago" (n the floored count) or the locale date, by the same ranges, so under a week it is always a relative text; both cards define the same function (IncidentItem.jsx:5-19) |
| RelativeTime.FormatDateSameBucket | beeper-ui/src/components/IncidentItem.jsx:5-19 | two dates under a week old read the same at a given time if and only if their ages fall in the same bucket with the same count |
| RelativeTime.Decimal | beeper-ui/src/components/IncidentItem.jsx:14-16 | a count is written as decimal digits without a leading zero |
| RelativeTime.DecimalRoundTrip | beeper-ui/src/components/IncidentItem.jsx:14-16 | reading back the written digits gives the count |
| RelativeTime.SameLabelSameBucket | beeper-ui/src/components/IncidentItem.jsx:13-16 | two ages under a week get the same text if and only if they fall in the same bucket with the same count |
| IncidentItemView.SeverityIcon | beeper-ui/src/components/IncidentItem.jsx:34-42 | the result is always one of five icons; it is the neutral one exactly for values that are not one of the four severities |
| IncidentItemView.SeverityIconInjective | beeper-ui/src/components/IncidentItem.jsx:34-42 | the four severities get four different icons |
| IncidentItemView.StatusBadgeClass | beeper-ui/src/components/IncidentItem.jsx:44-51 | the result is always one of four classes; it is '' exactly for values that are not one of the three statuses |
| IncidentItemView.StatusBadgeClassInjective | beeper-ui/src/components/IncidentItem.jsx:44-51 | the three statuses get three different classes |
| IncidentItemView.Render | beeper-ui/src/components/IncidentItem.jsx:53-91 | the icon is one of five and is the neutral one exactly for an unknown severity; the badge class is one of four and empty exactly for an unknown status; the severity and title are shown as sent; the description block appears exactly for a truthy description and is never empty; the author is never empty, createdBy or "Anonymous"; the time is a relative text under a week old and the locale date after |
| IncidentItemView.HandleStatusChange | beeper-ui/src/components/IncidentItem.jsx:27-32 | `onStatusChange(id, selected)` is called if and only if the selected status differs from the current one |
| IncidentItemView.HandleDelete | beeper-ui/src/components/IncidentItem.jsx:21-25 | `onDelete(incident.id)` is called if and only if the user confirms |
| IncidentListView.Render | beeper-ui/src/components/IncidentList.jsx:5-74 | an empty list gives the empty state, and only an empty list does; otherwise the sections are the critical and non-critical filters, the counters are the total and the critical, OPEN and RESOLVED counts, and a section is shown only when non-empty |
| IncidentListView.RenderPartitions | beeper-ui/src/components/IncidentList.jsx:17-18 | every incident is in exactly the section its severity picks; both sections keep input order; together they hold every incident once and their sizes add up to the total |
| IncidentListView.StatsBounded | beeper-ui/src/components/IncidentList.jsx:22-38 | the critical count and open plus resolved are at most the total |
| IncidentListView.SomeSectionShown | beeper-ui/src/components/IncidentList.jsx:41-71 | a non-empty board shows at least one section |
| Sequences.Filter | beeper-ui/src/components/IncidentList.jsx:17 | `filter` keeps only matching elements, taken from the input |
| Sequences.FilterMembership | beeper-ui/src/components/IncidentList.jsx:17-18 | an element is in the filtered list exactly when it is in the input and matches |
| Sequences.FilterIsSubsequence | beeper-ui/src/components/IncidentList.jsx:17-18 | filtering keeps relative order |
| Sequences.FilterPartition | beeper-ui/src/components/IncidentList.jsx:17-18 | filtering by a condition and by its negation splits the input exactly |
| Sequences.FilterDisjoint | beeper-ui/src/components/IncidentList.jsx:32-36 | two conditions that never hold together select at most as many elements as the input has |
| BeepItemView.AuthorName | beeper-ui/src/components/BeepItem.jsx:32 | the author shown is the beep's author when truthy and "Anonymous" otherwise, never empty |
| BeepItemView.Render | beeper-ui/src/components/BeepItem.jsx:27-46 | the author is never empty, the sender or "Anonymous"; the message is shown as sent; the time is a relative text under a week old and the locale date after |
| BeepItemView.HandleDelete | beeper-ui/src/components/BeepItem.jsx:21-25 | `onDelete(beep.id)` is called if and only if the user confirms |

## Left out

- Routing, JSON parsing and serialisation, CORS, the error bodies of 404 replies, `console.log`
  output and `app.listen` are transport and logging. Each handler is one atomic step, so
  concurrency between requests is not modelled.
- Path ids: `parseInt(req.params.id)` and Spring's `Long` conversion are taken as already done,
  and every path id is an integer. `parseInt`'s prefix parsing (a path "3x" reaches record 3 on
  the mock server, one with no leading digits reaches none) and Spring's rejection of a path
  that is not a number are not modelled.
- JavaScript's `undefined` and `null` are both `None`. JSON values that are not strings (numbers,
  objects) in string fields are not modelled.
- Timestamps are integer milliseconds. ISO strings, `Date` parsing, invalid dates (NaN) and time
  zones are not modelled. The clock, `LocalDateTime.parse` and `toLocaleDateString` are
  parameters. A `resolvedAt` string sent to the mock server is taken as the time it denotes.
- MockApi.ApplyStatus: the mock server stores a truthy `resolvedAt` string as given; the model
  stores the time it denotes, and a falsy one is None.
- IncidentApi.IncidentController.CreateIncident: the request object is taken as already built by
  JSON deserialisation. A body that sets `createdAt` to null and the resulting database error
  are not modelled; createdAt is never null.
- JPA column lengths and NOT NULL constraints are enforced by the database, not by the code, and
  are not modelled. The initial database contents are taken as an empty table.
- Jpa.SaveRow: a `save` of an entity whose id names no row inserts it under a fresh id, as
  Hibernate's merge does. Optimistic locking and flush timing are not modelled.
- Getters are read as the fields they return.
- `Severity.java` and `Status.java` are not part of this model. Their constants come from the
  controller's uses, the card's icon switch (IncidentItem.jsx:36-39) and the form's severity
  options (IncidentForm.jsx:71-74).
- Sorting.ValuesSortedDesc: the database's order among rows with equal createdAt is unspecified,
  so the model promises only non-increasing createdAt among the table's rows.
- IncidentItemView.Render: `incident.severity.toLowerCase()` in the card's class name throws for a
  missing severity. CSS class names and the React element tree are not modelled.
- The other UI files, the UI proxy server and the welcome controller are not part of this model.
