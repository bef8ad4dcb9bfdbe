# Novedades: a Dafny model of the announcement service

The system publishes announcements ("novedades"). An Express server keeps them in the
PostgreSQL table `cbt.novedades` and serves four routes on `/novedades`: list, create,
edit and delete. Every change is broadcast over Socket.IO to all connected clients.
Two React front ends (`novedades-app-front` and the older
`frontend/novedades-app-frontend`) keep a local list in step with the server. Each
fetches the listing once, then applies the `novedadAgregada` and `novedadEliminada`
broadcasts.

The administration component also has a form, and its submit posts a new
announcement. The entity administration page labels each entity with the name of its
type. The service-worker registration decides, from the host name and the worker
script's response, whether and how to register.

The model is functional throughout:

- **Js**: the JavaScript semantics the code depends on. This covers JSON values,
  `parseInt`, `Number(x)`, `String(n)` for integers, truthiness and
  `Array.prototype.includes` (SameValueZero).
- **Table**: the table as a map from id to row, plus the id sequence. It also models
  how PostgreSQL reads an `integer` parameter that arrives as URL text.
- **Listing**: `ORDER BY prioridad ASC, id ASC`, as a strict order and an insertion
  sort.
- **Server**: each route is a pure transition. It maps a table, a request and a flag
  for a failing database call to a new table, a response and the broadcasts.
- **Sync**: the client reducers (fetch, add, delete), and how they relate to the
  server's table.
- **AdminPanel**: the administration form, `handleSubmit`, `handleDelete`, and the
  finding below.
- **EntityPanel**: the type-label lookup, the forms reset after adds, and the fetches
  on mount.
- **Loopback**: `isLocalhost`. The regular expression is modelled alternative by
  alternative and proved equal to a reference. The reference accepts `127` followed by
  three dot-separated octets of one to three digits with value 0–255: the 127.0.0.0/8
  block of section 3.2.1.3 of RFC 1122. `[::1]` is the IPv6 loopback of section 2.5.3
  of RFC 4291.
- **ServiceWorker**: the decisions of `register`, `checkValidServiceWorker` and
  `registerValidSW`. The browser APIs become their inputs.

Nondeterminism and I/O are parameters:

- `fault: bool` says whether the database call throws.
- `Option<Response>` is a settled axios request, where `None` is a network error.
- `resolved: bool` says whether an entity request succeeded.
- The worker's state and the content type are plain inputs.

## Model

| member | source | states |
|---|---|---|
| Js.Includes | backend/server.js:57 | `includes` holds exactly when the value is an element of the array, compared with SameValueZero |
| Js.ParseIntOfNumberString | frontend/novedades-app-frontend/src/components/NovedadesList.js:34 | `parseInt` reads back the id that `${id}` wrote into the URL and the broadcast, for every integer including negatives |
| Js.NumberOfNumberString | novedades-app-front/src/EntityManagement.js:194 | `Number` of the decimal text of an integer is that integer, so a string id compares equal to the number it spells |
| Table.ParseIdParam | backend/server.js:100 | the key `WHERE id = $n` compares with, when read from the URL text, is always within PostgreSQL's `integer` range; text it cannot read fails the statement |
| Table.IdParamRoundTrip | backend/server.js:122-123 | the path segment a client builds from any `integer` id reads back as that id |
| Table.IdParamRejectsTrailingText | backend/server.js:122-123 | text with trailing letters (`12abc`) names no row and fails the statement |
| Table.IdParamIgnoresBlanks | backend/server.js:100 | surrounding blanks around the digits are ignored (` 42 ` is 42) |
| Listing.SortedRows | backend/server.js:38-42 | the listing is strictly increasing by (prioridad, id) and holds exactly the stored rows, each once, so it is a sorted permutation of the table |
| Listing.OrderedUnique | backend/server.js:41 | two duplicate-free listings ordered by (prioridad, id) with the same rows are equal: the order is fully determined |
| Server.PriorityAcceptedExactly | backend/server.js:56-57 | the priority passes exactly when it is the number 1, 2 or 3; strings such as "1" do not pass |
| Server.PriorityExamples | backend/server.js:87-88 | 4, 0, the string "1" and a missing priority are rejected, and 2 is accepted |
| Server.RowOf | backend/server.js:62-69 | the row the INSERT or UPDATE writes carries the five request fields and a priority of 1 to 3 |
| Server.ListNovedades | backend/server.js:36-49 | GET changes nothing and broadcasts nothing; on success it returns the table's rows ordered by (prioridad, id); a failing query gives 500 with its message |
| Server.AddNovedad | backend/server.js:52-79 | POST answers 400 exactly when the priority is rejected; otherwise 200 exactly when the insert succeeds. On 200 one row with a fresh id and the request's fields is added, and the broadcast payload equals the response body. Every other status leaves the table alone and broadcasts nothing |
| Server.EditNovedad | backend/server.js:82-116 | PUT answers 400 exactly for a rejected priority, 500 exactly when the statement fails, and 404 exactly when no row has the id. Each of these keeps the table and broadcasts nothing. On 200 only that row's five fields change, every other row and key stays, and `novedadEditada` carries the response body |
| Server.UpdateRow | backend/server.js:92-115 | the UPDATE step with the key already read: 500 on failure or an unreadable key, 404 for an absent key, otherwise only that row is replaced |
| Server.RemoveNovedad | backend/server.js:119-132 | DELETE succeeds exactly when the statement runs, whether or not a row had the id. It then removes that id only, answers "Novedad eliminada" and broadcasts the id text as received. On failure it answers 500 and changes nothing |
| Server.Handle | backend/server.js:36-132 | every route keeps the table valid and broadcasts at most once, exactly when a non-GET request succeeds |
| Server.RejectedPriorityIsInert | backend/server.js:57-59 | a POST or PUT with a rejected priority is answered 400 before any database call: same table, no broadcast |
| Server.StorageFailureIsInert | backend/server.js:112-115 | when the database call fails, every route leaves the table as it was, broadcasts nothing, and answers 500 (400 when the priority was already rejected) |
| Server.AddThenRemoveRestoresRows | backend/server.js:119-127 | deleting the row a create just made, by the id text a client would send, restores the table's rows |
| Server.EditIsIdempotent | backend/server.js:93-104 | repeating the same PUT leaves the table as the first one left it |
| Server.ListingShowsAddedRow | backend/server.js:69-74 | after a successful create, the next listing contains the returned row |
| Sync.ApplyAdded | novedades-app-front/src/components/NovedadesList.js:24-26 | the add broadcast appends the row at the end, keeps the earlier entries as they were, and adds a copy even when the row is already listed |
| Sync.RemoveId | novedades-app-front/src/components/NovedadesList.js:28-30 | the filter keeps exactly the entries whose id differs from the target, with their multiplicities. A NaN target keeps everything, and an absent id leaves the list identical |
| Sync.ApplyDeleted | frontend/novedades-app-frontend/src/components/NovedadesList.js:32-36 | after a delete broadcast no entry has the id `parseInt` reads from the payload; every other entry stays; an id not present changes nothing |
| Sync.RemoveIdDistributes | novedades-app-front/src/components/AdministracionNovedades.js:34 | the filter works piecewise on a concatenation, so the surviving entries keep their relative order |
| Sync.RemoveIdKeepsOrder | frontend/novedades-app-frontend/src/components/AdministracionNovedades.js:36 | a list ordered by (prioridad, id) stays ordered after the delete filter |
| Sync.PgIntegerAgrees | novedades-app-front/src/components/NovedadesList.js:29 | `parseInt` reads the same signed number as the database from any text the database accepts |
| Sync.IdParamAgreesWithParseInt | novedades-app-front/src/components/NovedadesList.js:29 | whenever the database accepts the DELETE id text, the client's `parseInt` of the broadcast id gives the same number |
| Sync.FetchMirrorsServer | novedades-app-front/src/components/NovedadesList.js:12-18 | a successful fetch replaces the list with the server's listing, which is ordered and holds the table's rows; a failed fetch leaves the list unchanged |
| Sync.DeleteAgreesWithServer | novedades-app-front/src/components/NovedadesList.js:28-30 | after a successful DELETE and its broadcast, neither the table nor any client list holds the deleted id |
| Sync.RemoveIdMatchesListing | backend/server.js:38-42 | filtering one id out of the ordered listing gives the ordered listing of the table without that id |
| Sync.DeleteKeepsListingInSync | frontend/novedades-app-frontend/src/components/AdministracionNovedades.js:35-37 | a client showing the server's listing still shows it, order included, after any DELETE and its broadcast |
| Sync.AddKeepsRowsInSync | frontend/novedades-app-frontend/src/components/AdministracionNovedades.js:32-34 | a client holding the table's rows still holds exactly them, new row included, after any POST and its broadcast |
| Sync.EditLeavesClientStale | novedades-app-front/src/components/AdministracionNovedades.js:26-41 | no listener handles `novedadEditada`, so after an edit that changes a row a client keeps the old version, which is no longer in the table |
| Sync.AddIsNotIdempotent | frontend/novedades-app-frontend/src/components/NovedadesList.js:27-29 | the same add broadcast twice leaves two more copies of the row |
| AdminPanel.SetField | novedades-app-front/src/components/AdministracionNovedades.js:43-48 | `handleInputChange` sets the named field to the input's value and leaves the other three as they were |
| AdminPanel.RequestBodyAsWritten | novedades-app-front/src/components/AdministracionNovedades.js:53 | the posted body is the form state: titulo, descripcion and fechaCaducidad are the fields' text, the priority is sent as the input's text, and there is no `resumen` |
| AdminPanel.RequestBody | frontend/novedades-app-frontend/src/components/AdministracionNovedades.js:55 | the corrected body sends the priority as the number `Number` reads exactly when it can read the field, and `null` otherwise; the three text fields and the missing `resumen` are as in the form |
| AdminPanel.AfterSubmit | novedades-app-front/src/components/AdministracionNovedades.js:50-63 | a successful submit empties the four fields; a failed one leaves the form; neither touches the list |
| AdminPanel.SubmitAsWritten | frontend/novedades-app-frontend/src/components/AdministracionNovedades.js:52-66 | a submit as written never changes the local list and keeps the table valid |
| AdminPanel.Submit | frontend/novedades-app-frontend/src/components/AdministracionNovedades.js:55-62 | with the corrected body, the form is emptied exactly when the server answers 200, and the list is not touched locally |
| AdminPanel.DeleteClicked | novedades-app-front/src/components/AdministracionNovedades.js:65-71 | `handleDelete` leaves the panel as it was; only the server's table changes |
| AdminPanel.OnFetch | frontend/novedades-app-frontend/src/components/AdministracionNovedades.js:19-26 | a fetch replaces the list on success, leaves the panel on failure, and never touches the form |
| AdminPanel.OnEvents | novedades-app-front/src/components/AdministracionNovedades.js:29-35 | the broadcast listeners change the list only, never the form |
| AdminPanel.AsWrittenSubmitAlwaysRejected | novedades-app-front/src/components/AdministracionNovedades.js:53 | as written, every submit gets 400: the table and the panel are unchanged and nothing is broadcast |
| AdminPanel.SubmitCreatesIffPriorityReadsInRange | frontend/novedades-app-frontend/src/components/AdministracionNovedades.js:55-62 | with the conversion, a submit answers 200 exactly when the field reads as 1, 2 or 3 and the insert succeeds. It then stores one new row with the form's fields, broadcasts it and empties the form |
| AdminPanel.TypedPriorityTwo | novedades-app-front/src/components/AdministracionNovedades.js:102-109 | typing 2 into the number input gives 400 as written and 200 with the conversion |
| AdminPanel.SubmittedRowArrivesByBroadcast | frontend/novedades-app-frontend/src/components/AdministracionNovedades.js:56 | after a successful submit the new row reaches the panel's list through the broadcast alone, appended at the end |
| AdminPanel.DeleteButtonRemovesRow | novedades-app-front/src/components/AdministracionNovedades.js:150 | the delete button of a stored row gets 200, removes the row from the table, and the broadcast removes it from the panel |
| EntityPanel.FindType | novedades-app-front/src/EntityManagement.js:193-195 | `find` returns the first type whose `Number(id)` equals `Number(tipo_id)`, and nothing exactly when no type matches |
| EntityPanel.LabelIsFirstMatch | novedades-app-front/src/EntityManagement.js:193-199 | the label is the name of the first type with a numerically equal id |
| EntityPanel.LabelDefaultsToSinTipo | novedades-app-front/src/EntityManagement.js:199 | with no numerically equal type, the empty list included, the label is 'Sin Tipo' |
| EntityPanel.LabelIgnoresLaterTypes | novedades-app-front/src/EntityManagement.js:193-195 | types after the first match never change the label |
| EntityPanel.UnreadableIdNeverMatches | novedades-app-front/src/EntityManagement.js:194 | a `tipo_id` that `Number` reads as NaN matches no type |
| EntityPanel.StringIdMatchesNumber | novedades-app-front/src/EntityManagement.js:194 | the string "3" matches a type whose id is the number 3 |
| EntityPanel.BackendUrl | novedades-app-front/src/EntityManagement.js:8 | without a loaded configuration the URL is falsy; otherwise it is the configured value |
| EntityPanel.OnMount | novedades-app-front/src/EntityManagement.js:38-43 | both lists are fetched, types first, exactly when a truthy back-end URL is configured; otherwise nothing is fetched |
| EntityPanel.AfterAddType | novedades-app-front/src/EntityManagement.js:50-62 | a successful type add clears the type form to `{nombre:''}` and fetches the types again; a failure changes nothing |
| EntityPanel.AfterDeleteType | novedades-app-front/src/EntityManagement.js:64-74 | a type delete refetches the types exactly when it succeeded and leaves the panel |
| EntityPanel.AfterAddEntity | novedades-app-front/src/EntityManagement.js:81-93 | a successful entity add clears the entity form to `{nombre:'', tipo_id:''}` and refetches the entities; a failure changes nothing |
| EntityPanel.AfterDeleteEntity | novedades-app-front/src/EntityManagement.js:95-105 | an entity delete refetches the entities exactly when it succeeded |
| EntityPanel.OnTypesFetched | novedades-app-front/src/EntityManagement.js:19-26 | a successful type fetch replaces the types and nothing else; a failed one changes nothing |
| EntityPanel.OnEntitiesFetched | novedades-app-front/src/EntityManagement.js:29-36 | a successful entity fetch replaces the entities and nothing else; a failed one changes nothing |
| EntityPanel.UnconfiguredPanelShowsSinTipo | novedades-app-front/src/EntityManagement.js:38-43 | with no configuration, or an undefined URL, nothing is fetched and every entity is labelled 'Sin Tipo' |
| Loopback.OctetMatchIsValidOctet | novedades-app-front/src/serviceWorkerRegistration.js:10 | the three octet alternatives of the pattern together match exactly the one-to-three-digit strings of value at most 255 |
| Loopback.SplitDots | novedades-app-front/src/serviceWorkerRegistration.js:10 | splitting at dots gives at least one part, and no part contains a dot |
| Loopback.GroupsMatchIsSplit | novedades-app-front/src/serviceWorkerRegistration.js:10 | for `k` at least 1, `k` repetitions of `\.(octet)` match a text exactly when it is a dot followed by `k` dot-separated valid octets |
| Loopback.PatternIsLoopbackAddress | novedades-app-front/src/serviceWorkerRegistration.js:9-11 | the anchored pattern accepts exactly the 127.x.y.z addresses whose last three parts are valid octets |
| Loopback.UndottedLocalNames | novedades-app-front/src/serviceWorkerRegistration.js:4-7 | among names without a dot, exactly `localhost` and `[::1]` are local |
| Loopback.LeadingZerosAccepted | novedades-app-front/src/serviceWorkerRegistration.js:10 | `127.000.0.1` is local: octets may have leading zeros |
| Loopback.OctetAbove255Rejected | novedades-app-front/src/serviceWorkerRegistration.js:10 | `127.256.0.1` is not local |
| Loopback.FourDigitOctetRejected | novedades-app-front/src/serviceWorkerRegistration.js:10 | `127.0255.0.1` is not local |
| Loopback.ShortAddressRejected | novedades-app-front/src/serviceWorkerRegistration.js:10 | `127.0.0` is not local: three groups are required |
| Loopback.LongAddressRejected | novedades-app-front/src/serviceWorkerRegistration.js:10 | `127.0.0.1.5` is not local: the pattern is anchored |
| Loopback.WrongPrefixRejected | novedades-app-front/src/serviceWorkerRegistration.js:10 | `1270.0.0.1` and `10.0.0.1` are not local |
| ServiceWorker.Register | novedades-app-front/src/serviceWorkerRegistration.js:14-38 | nothing is registered exactly when the build is not production, service workers are unsupported, or the public URL has another origin. Otherwise a local host checks the script first and any other host registers at once |
| ServiceWorker.RegisterByHost | novedades-app-front/src/serviceWorkerRegistration.js:26-35 | `localhost` and `127.000.0.1` check the script first, and `10.0.0.1` registers at once |
| ServiceWorker.IndexFrom | novedades-app-front/src/serviceWorkerRegistration.js:83 | the search returns an occurrence at or after the start with none before it, or -1 when there is none |
| ServiceWorker.IndexOf | novedades-app-front/src/serviceWorkerRegistration.js:83 | `indexOf` is -1 exactly when the text does not occur; otherwise it is the first occurrence |
| ServiceWorker.CheckValid | novedades-app-front/src/serviceWorkerRegistration.js:73-101 | a failed request is only reported. A 404, or a content type present without "javascript", unregisters and reloads. Anything else registers |
| ServiceWorker.MissingContentTypeRegisters | novedades-app-front/src/serviceWorkerRegistration.js:80-83 | a non-404 response without a content type registers the worker |
| ServiceWorker.ContentTypeExamples | novedades-app-front/src/serviceWorkerRegistration.js:81-93 | `application/javascript` registers and `text/html` unregisters |
| ServiceWorker.InstallCallback | novedades-app-front/src/serviceWorkerRegistration.js:44-66 | a callback fires only when the installing worker reaches `installed`. `onUpdate` fires exactly when a controller exists and it is configured; `onSuccess` fires exactly when there is no controller and it is configured |
| ServiceWorker.CallbacksFollowController | novedades-app-front/src/serviceWorkerRegistration.js:51-63 | with a controller `onSuccess` never fires, and without one `onUpdate` never fires |

## Left out

- The Express app, CORS, the `pg` pool, the SQL text and `server.listen` are not modelled. The table is a map, and `ORDER BY` and `RETURNING *` are their specified results. The clients address port 3001 while the server defaults to 3002; that is configuration.
- Socket.IO transport is not modelled: delivery to every client, reconnection and the listeners' cleanup on unmount. An emit is an entry in the reply's event list.
- The failure of any database call is the `fault` parameter, not a cause. The causes include a date `fechaCaducidad` cannot hold, a lost connection and a constraint violation.
- A failed insert still consumes a sequence value. The model leaves `nextId` unchanged, which only renumbers later ids.
- Server.AddNovedad: `nextId` exhaustion is modelled as a 500, but the error text of a `serial` overflow is not.
- Table.ParseIdParam: only the classic `integer` input syntax is modelled: blanks, sign, decimal digits, blanks. The hexadecimal, octal, binary and underscore forms that PostgreSQL 16 and later also accept are not. On such a server the DELETE text `0o17`, `0b11` or `1_000` removes row 15, 3 or 1000, while the clients' `parseInt` reads 0, 0 or 1 and keeps the row. Sync.IdParamAgreesWithParseInt and Sync.DeleteAgreesWithServer therefore hold for the classic syntax only.
- Table: the id column is assumed to be `serial`, that is PostgreSQL `integer`. The repository holds no schema. node-postgres returns an `integer` as a JavaScript number but a `bigint` as a string. With a `bigserial` id, `nov.id !== parseInt(id)` would hold for every entry, and the delete broadcast would remove nothing from the clients. Sync.DeleteAgreesWithServer, Sync.DeleteKeepsListingInSync and AdminPanel.DeleteButtonRemovesRow rely on the numeric id.
- Js: numbers are integers. Fractions, exponents, `Infinity`, `-0`, NaN as a value and precision beyond 2^53 are not modelled. `Number` reads any text with a decimal point or an exponent as NaN here. For a non-integral value such as `2.5` the server's answer is the same (400). It is not the same for integral spellings such as `2.0`, `2.`, `2e0` or `0.2e1`: JavaScript reads each as 2, which passes, while the model sends `null` and gets 400.
- AdminPanel.SubmitCreatesIffPriorityReadsInRange: its "exactly when" uses the integer-only `Number` of this model. With the priority typed as `2.0`, `2e0` or a similar integral spelling, the real corrected submit creates the row while the model answers 400.
- Js.ParseInt: `parseInt` of a decimal run longer than 2^53 loses precision in JavaScript. Here it is exact.
- Objects and arrays as JSON values are not modelled, since no modelled check reads them.
- React rendering, hooks and axios are not modelled, except for the state transitions listed above. The HTML `required` attributes, which stop an empty submit in the browser, are left out.
- `App.js`, `Navbar.js`, `Login.js`, `UserManagement.js`, `ConfigContext.js`, `localStorage` and the bearer tokens are UI and I/O glue. They are not part of this model, and no authentication server code exists to model.
- The entity and type server endpoints (`/tipos_entidades`, `/entidades`) are not part of this model. Their outcome is the `resolved` flag. A refetch is an entry in the step's fetch list, and its result is applied by `OnTypesFetched` and `OnEntitiesFetched`.
- `handleNewTypeChange` and `handleNewEntityChange` are plain field updates, the same as `AdminPanel.SetField`, and are not repeated.
- The browser service-worker APIs are not modelled: `navigator.serviceWorker.register`, `ready`, `unregister`, `window.location.reload` and console logging. `unregister()` (serviceWorkerRegistration.js:103-113) only calls the browser and has no decision to model.
- Announcement expiry, entity associations and idempotent adds are not implemented by the code, so they are not modelled. The add listener's duplication is modelled as written.
- Sync.EditLeavesClientStale states a consequence of the missing `novedadEditada` listener, not a requirement. No code promises that clients see edits.

## Findings

| source | as written | input that shows it | evidently intended | confidence | as-written member | corrected member |
|---|---|---|---|---|---|---|
| novedades-app-front/src/components/AdministracionNovedades.js:53 | the form state is posted as it is; the priority comes from `<input type="number">`, whose value is a string, and the server's `[1, 2, 3].includes(prioridad)` rejects every string | the user types 2 in the priority field and submits: the body holds `prioridad: "2"`, the server answers 400, nothing is stored and the form keeps its text | the priority is posted as a number, so that 1, 2 and 3 create the announcement | not executed; high, since `includes` compares without conversion | AdminPanel.AsWrittenSubmitAlwaysRejected | AdminPanel.SubmitCreatesIffPriorityReadsInRange |
| frontend/novedades-app-frontend/src/components/AdministracionNovedades.js:55 | the same submit in the older front end, whose comment at line 56 relies on the broadcast to show the new row, which never comes | the user types 2 in the priority field and submits: 400, and no `novedadAgregada` broadcast reaches any client | the priority is posted as a number, so the broadcast adds the row | not executed; high, since `includes` compares without conversion | AdminPanel.TypedPriorityTwo | AdminPanel.SubmittedRowArrivesByBroadcast |
