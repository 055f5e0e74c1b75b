# AppEmpleados: owner-scoped CRUD, auth gate and list pages in Dafny

This is a model of the part of AppEmpleados that decides who may see and change what.

- **Server.** Two Express controllers handle employees (`empleados`) and products (`productos`). They keep documents in a Firestore collection. A create stamps the caller's email into the document's `owner` field; an update removes it (see below).
  - `all` lists the caller's own documents.
  - `upsert` validates a body, then updates the document it names (404 if the id is unknown, 403 if the caller is not the owner) or creates a new one stamped with the caller as owner.
  - `delete` removes a document after the same two checks.
- **Auth gate.** The `verificarToken` middleware runs in front of every route. It reads a `Bearer` token and lets the request through only when the token verifies.
- **List pages.** The two React list pages keep a local mirror of the list and a form. They update both after each server answer.

Module by module:

- `Js` (js.dfy): the JavaScript values the controllers see. It defines truthiness as used by `!x`, property lookup that yields `undefined`, and the optional email.
- `Store` (store.dfy): a Firestore collection as a class `Collection`.
  - Its `docs` field is a map from id to document. It is read with `GetDocs`, written with `SetDoc` (a full overwrite that refuses `undefined` values and reserved field names) and emptied per key with `DeleteDoc`.
  - `NewDocRef` hands out an id not yet in use.
- `OwnerCrud` (owner_crud.dfy): the protocol both controllers share. `UpsertSpec`, `UpdateSpec`, `CreateSpec` and `DeleteSpec` each map a table before a request to a reply and the table after it. Lemmas state the outcomes.
- `CrudCtrl` (crud_ctrl.dfy): the handlers written step by step over a `Collection`.
  - `Upsert`, `Update`, `Create` and `Delete` are proved to produce exactly the reply and table of the specification functions.
  - `All` is proved to reply with the caller's exact listing (`OwnerCrud.ExactListing`): every owned document once, with its id, and nothing else.
- `Empleados` and `Productos` (empleados.dfy, productos.dfy): the two controllers' configurations. These are the required-field lists and whether `precio` is parsed. The modules also hold facts specific to each controller.
- `AuthGate` (auth_gate.dfy): the header check, the token extraction done by `split('Bearer ')[1]`, the verifier outcome, and the middleware as a method over the request/response exchange.
- `Routes` (routes.dfy): the route table. Each resource route and `/verificar-token` runs the gate before its handler.
- `ListMirror` (list_mirror.dfy): the pure updaters of the pages. These are the `dni` and `precio` input filters, replace-by-id, append and remove-by-id.
- `Pages` (pages.dfy): the page component as a class whose fields are its state hooks. Its methods are the handlers `abrirModal`, `cerrarModal`, `handleInputChange`, `handleSubmit` and `eliminar…`.

Behaviours the model keeps as the code has them:

- **An update drops the owner.** The comment above the owner removal (backend/controllers/empleados.ctrl.js:55) calls `owner` a property that must not be modified. Yet the update path deletes `owner` from the payload and then writes the document without merging. So an updated document has no `owner` field and no longer belongs to anybody: `OwnerCrud.UpdateRevokesOwnership`. The model follows the code.
- **Truthiness decides validation and the branch.** A required field holding `0`, `false` or `""` is reported as missing. An `id` holding `""` takes the create path, and that empty id is stored in the new document. It also replaces the fresh id in the reply, because the reply spreads the body after `id`.
- **Bodies the update path or the store cannot take.**
  - The owner-removal step calls `hasOwnProperty` on the body. A body that carries its own `hasOwnProperty` property (a string, say) makes that call throw once the 404 and 403 checks have passed: 500, no write (`OwnerCrud.OwnPropertyNamedHasOwnPropertyFails`).
  - Firestore's `setDoc` refuses an empty field name and one that begins and ends with `__` (such as `__proto__`). A body with such a field is never written, on either path (`OwnerCrud.ReservedFieldNeverWritten`).
- **Email-less callers.** A token without an email makes the caller's email `undefined`. Such a caller matches only documents that have no `owner`. A create by such a caller would store an undefined owner, which the store refuses (500).

## Model

| member | source | states |
|---|---|---|
| Js.Field | backend/controllers/empleados.ctrl.js:32 | definition of `d[f]` for a name not inherited from `Object.prototype` (every name the controllers and pages read, such as `owner`, `id`, `precio` and the required fields, is one): a property read yields a defined value only when the document holds it under that name, and `undefined` otherwise |
| Js.Truthy | backend/controllers/empleados.ctrl.js:32-39 | definition of JavaScript truthiness as `!x` and `if (x)` test it: false exactly for undefined, null, false, 0 and ""; its consequences are in `OwnerCrud.FirstMissingIsFirst` and `Empleados.ZeroTenureRejected` |
| Js.OrUndefined | backend/controllers/empleados.ctrl.js:67 | `req.usuario?.email` is `undefined` exactly when the token carries no email |
| Store.Collection.GetDocs | backend/controllers/empleados.ctrl.js:8 | the snapshot lists every stored document once, each with its id and data, and nothing else |
| Store.Collection.NewDocRef | backend/controllers/empleados.ctrl.js:70 | a generated id is non-empty and names no stored document |
| Store.Collection.SetDoc | backend/controllers/empleados.ctrl.js:63 | a write replaces the whole document at that id; a document holding `undefined` or a reserved field name is refused and nothing changes |
| Store.ReservedName | backend/controllers/empleados.ctrl.js:63 | definition: the field names the store refuses to write, the empty name and names that begin and end with `__`; used by `Store.Storable` |
| Store.Storable | backend/controllers/empleados.ctrl.js:71 | definition: what `setDoc` accepts, no undefined value and no reserved field name; its consequences are in `OwnerCrud.ReservedFieldNeverWritten` and `OwnerCrud.CreateWithoutEmailFails` |
| Store.Collection.DeleteDoc | backend/controllers/empleados.ctrl.js:103 | exactly that id is removed |
| OwnerCrud.OwnerMatches | backend/controllers/empleados.ctrl.js:15 | definition of `d.owner === req.usuario?.email`, the test shared by listing, update and delete; see `OwnerCrud.ListingExact`, `OwnerCrud.NonOwnerUpdateForbidden` and `OwnerCrud.DeleteOutcomes` |
| OwnerCrud.Entry | backend/controllers/empleados.ctrl.js:11-14 | definition of `{ id: doc.id, ...doc.data() }`; see `OwnerCrud.EntryOwner` and `OwnerCrud.CreatedReplyId` |
| OwnerCrud.ListEntries | backend/controllers/empleados.ctrl.js:10-15 | definition of the map-then-filter over the snapshot; its properties are in `OwnerCrud.ListEntriesOfOwned` and `OwnerCrud.ListingExact` |
| OwnerCrud.EntryOwner | backend/controllers/empleados.ctrl.js:11-15 | adding `id` to a document does not change whom its `owner` matches |
| OwnerCrud.ListEntriesOfOwned | backend/controllers/empleados.ctrl.js:10-15 | the listing is the owned snapshot entries, in snapshot order, each as id plus fields, and an entry is owned iff it is in the snapshot and its owner equals the caller's email |
| OwnerCrud.OwnedDistinct | backend/controllers/empleados.ctrl.js:10-15 | filtering a snapshot with distinct ids keeps the ids distinct |
| OwnerCrud.ListingExact | backend/controllers/empleados.ctrl.js:10-15 | over a full snapshot, the listing holds each stored document whose owner equals the caller's email exactly once, as its id plus its stored fields, and no other document |
| OwnerCrud.ExactListing | backend/controllers/empleados.ctrl.js:10-15 | definition of the caller's exact listing of a table: entry i is document ids[i] with its id, no document twice, and a stored document is listed iff its owner equals the caller's email |
| OwnerCrud.ListingIsExact | backend/controllers/empleados.ctrl.js:10-15 | the listing of a full snapshot is the caller's exact listing of the table, with the owned ids in snapshot order |
| CrudCtrl.All | backend/controllers/empleados.ctrl.js:4-17 | `all` replies with the caller's exact listing of the stored table: each owned document once, as id plus fields, and no other document |
| OwnerCrud.FirstMissing | backend/controllers/empleados.ctrl.js:30-35 | definition of the early-exit check over the required fields; its properties are in `OwnerCrud.FirstMissingIsFirst` and `CrudCtrl.CheckRequired` |
| OwnerCrud.ParseFloat | backend/controllers/productos.ctrl.js:38 | definition of `parseFloat` on a body value, with the string parser a parameter; see `Productos.PrecioNotNumberRejected` |
| OwnerCrud.Coerced | backend/controllers/productos.ctrl.js:37-43 | definition of the price step; see `Productos.PrecioNotNumberRejected` and `Productos.PrecioStoredAsNumber` |
| OwnerCrud.UpsertSpec | backend/controllers/empleados.ctrl.js:24-78 | definition of one `upsert` (validation, price step, then the update or create branch); its outcomes are in the lemmas below and `CrudCtrl.Upsert` is proved equal to it |
| OwnerCrud.UpdateSpec | backend/controllers/empleados.ctrl.js:39-64 | definition of the update branch; see `OwnerCrud.UnknownIdNotFound`, `NonOwnerUpdateForbidden`, `OwnPropertyNamedHasOwnPropertyFails` and `UpdateOverwrites` |
| OwnerCrud.CreateSpec | backend/controllers/empleados.ctrl.js:65-72 | definition of the create branch; see `OwnerCrud.CreatePath`, `CreateStampsOwner`, `CreatedReplyId` and `CreateWithoutEmailFails` |
| OwnerCrud.FirstMissingIsFirst | backend/controllers/empleados.ctrl.js:30-35 | no field is reported iff every required field is truthy; otherwise the reported field is the first falsy one in list order |
| CrudCtrl.CheckRequired | backend/controllers/empleados.ctrl.js:31-35 | the early-exit loop over the required fields returns the first falsy field, or none |
| OwnerCrud.MissingFieldRejected | backend/controllers/empleados.ctrl.js:30-35 | if the fields before position i are truthy and field i is falsy, upsert answers 400 "El campo <field> es requerido" and the table is unchanged |
| Empleados.ZeroTenureRejected | backend/controllers/empleados.ctrl.js:30-35 | an employee whose `antiguedad` is 0 is rejected with 400 naming `antiguedad`, with no write |
| OwnerCrud.UpsertErrorsWriteNothing | backend/controllers/empleados.ctrl.js:24-78 | every upsert ends in exactly one of 200, 201, 400, 403, 404 or 500, and every error reply leaves the table unchanged |
| OwnerCrud.UnknownIdNotFound | backend/controllers/empleados.ctrl.js:39-44 | an accepted body whose id is a non-empty string not in the table gets 404 and the table is unchanged |
| OwnerCrud.NonOwnerUpdateForbidden | backend/controllers/empleados.ctrl.js:47-53 | an accepted body naming a stored document that the caller does not own gets 403 and the table is unchanged |
| OwnerCrud.UpdateOverwrites | backend/controllers/empleados.ctrl.js:56-64 | a permitted update of a storable body without its own `hasOwnProperty` answers 200 with `{id, ...payload minus id and owner}`, stores exactly that payload with no owner field, keeps the key set and changes no other key |
| OwnerCrud.OwnPropertyNamedHasOwnPropertyFails | backend/controllers/empleados.ctrl.js:56-58 | once the 404 and 403 checks pass, a body carrying its own `hasOwnProperty` property makes the owner-removal call throw: 500 and the table unchanged |
| OwnerCrud.ReservedFieldNeverWritten | backend/controllers/empleados.ctrl.js:63-71 | a body with an empty or `__…__` field name is never saved or created, whatever branch it takes, and the table is unchanged |
| OwnerCrud.CoercedStorable | backend/controllers/productos.ctrl.js:43 | the price step keeps a storable body storable |
| OwnerCrud.UpdateRevokesOwnership | backend/controllers/empleados.ctrl.js:56-63 | after an update, the document is listed for no caller with an email, and that caller's delete or re-update of it gets 403 |
| OwnerCrud.CreatePath | backend/controllers/empleados.ctrl.js:65-72 | an accepted body with a falsy or absent id is stored under the fresh id, with owner set to the caller's email, and the reply is that document with its id |
| OwnerCrud.CreateStampsOwner | backend/controllers/empleados.ctrl.js:65-72 | a create answers 201, overrides any client-supplied owner with the caller's email, adds exactly the fresh key, and leaves every other key unchanged |
| OwnerCrud.CreatedReplyId | backend/controllers/empleados.ctrl.js:72 | the create reply's id is the fresh id unless the body carried an `id` property, whose falsy value then wins; the stored document keeps the body's id |
| OwnerCrud.CreatedVisibleOnlyToCreator | backend/controllers/empleados.ctrl.js:65-72 | a created document is listed for its creator and for no other caller |
| OwnerCrud.CreateWithoutEmailFails | backend/controllers/empleados.ctrl.js:67-71 | a create by a caller without an email stores nothing and ends in 500 |
| OwnerCrud.DeleteSpec | backend/controllers/empleados.ctrl.js:86-104 | definition of one `delete`; its outcomes are in `OwnerCrud.DeleteOutcomes` and `CrudCtrl.Delete` is proved equal to it |
| OwnerCrud.DeleteOutcomes | backend/controllers/empleados.ctrl.js:86-104 | delete answers 404 for an unknown id and 403 for someone else's document, both with no change; otherwise it answers 200 and removes exactly that key |
| CrudCtrl.Upsert | backend/controllers/empleados.ctrl.js:24-78 | the upsert handler's reply and new table are exactly those of the upsert protocol, and the store stays well formed |
| CrudCtrl.Update | backend/controllers/empleados.ctrl.js:39-64 | the update branch's reply and new table are exactly those of the update protocol |
| CrudCtrl.Create | backend/controllers/empleados.ctrl.js:65-73 | the create branch's reply and new table are exactly those of the create protocol, with the id the store hands out |
| CrudCtrl.Delete | backend/controllers/empleados.ctrl.js:80-104 | the delete handler's reply and new table are exactly those of the delete protocol |
| Empleados.AnaAccepted | backend/controllers/empleados.ctrl.js:30-39 | a complete employee without an id passes validation and takes the create path |
| Empleados.AnaStorable | backend/controllers/empleados.ctrl.js:71 | that employee holds no undefined value and no reserved field name |
| Empleados.AnaCreatedByA | backend/controllers/empleados.ctrl.js:65-72 | owner A's create of that employee stores it under the fresh id with owner A |
| Empleados.AnaOfAOwner | backend/controllers/empleados.ctrl.js:67 | the stored employee is owned by A and not by B |
| Empleados.OwnersScenario | backend/controllers/empleados.ctrl.js:65-104 | A creates an employee (201, fresh id, owner A); B does not see it and B's delete gets 403 with no change; A's delete gets 200 and restores the original table |
| Productos.PrecioNotNumberRejected | backend/controllers/productos.ctrl.js:37-40 | a product whose required fields are present but whose price does not parse gets 400 "El precio debe ser un número válido" with no read or write |
| Productos.PrecioStoredAsNumber | backend/controllers/productos.ctrl.js:42-80 | on update and on create, the returned and the stored `precio` are the parsed number, not the input text |
| Productos.UpdateKeepsPrecio | backend/controllers/productos.ctrl.js:64-72 | the update branch returns and stores the payload's `precio` unchanged |
| Productos.CreateKeepsPrecio | backend/controllers/productos.ctrl.js:73-80 | the create branch returns and stores the payload's `precio` unchanged |
| AuthGate.BadHeaderSkipsVerifier | backend/controllers/middleware.ctrl.js:8-10 | a missing header, or one not starting with the case-sensitive "Bearer ", gives 401 whatever the verifier would say |
| AuthGate.HasBearer | backend/controllers/middleware.ctrl.js:8 | definition of `authHeader && authHeader.startsWith('Bearer ')`; see `AuthGate.BadHeaderSkipsVerifier` |
| AuthGate.UpToBearer | backend/controllers/middleware.ctrl.js:12 | definition of the text before the first "Bearer "; characterised by `AuthGate.UpToBearerSpec` and `AuthGate.UpToBearerUnique` |
| AuthGate.Token | backend/controllers/middleware.ctrl.js:12 | definition of `authHeader.split('Bearer ')[1]` for a header starting with "Bearer "; see `AuthGate.UpToBearerSpec` |
| AuthGate.Gate | backend/controllers/middleware.ctrl.js:8-22 | definition of the gate's outcome; see `AuthGate.BadHeaderSkipsVerifier`, `AuthGate.GateFollowsVerifier` and `AuthGate.VerificarToken` |
| AuthGate.UpToBearerSpec | backend/controllers/middleware.ctrl.js:12 | the token is a prefix of the text after the leading "Bearer ", contains no later "Bearer ", and ends at the end of the text or at the next "Bearer " |
| AuthGate.UpToBearerUnique | backend/controllers/middleware.ctrl.js:12 | that description determines the token: any prefix with those properties is the extracted token |
| AuthGate.GateFollowsVerifier | backend/controllers/middleware.ctrl.js:12-22 | with a bearer header, a verified token proceeds with its decoded claims and a rejected one gives 403; the outcome depends on the verifier only at that token |
| AuthGate.VerificarToken | backend/controllers/middleware.ctrl.js:4-22 | the middleware's outcome is the gate's; on success it attaches the claims and calls `next` once without writing a status; otherwise it writes 401 or 403, attaches nothing and does not call `next` |
| Routes.Dispatch | backend/index.js:75-88 | each route's handler runs on its own collection with the gate's email: a list route replies with the caller's exact listing of its collection, an upsert or delete route gives exactly the protocol's reply and table, `/verificar-token` answers with the claims, and the other collection is unchanged |
| Routes.Handle | backend/index.js:75-88 | the gate runs first on every route; a rejected request gets 401 or 403 and changes neither collection; an admitted one gets exactly its handler's reply and table, list routes the caller's exact listing |
| ListMirror.SanitiseKeepsOnly | src/app/empleados/page.js:57-62 | the filtered text holds only digits (and dots for the price filter) |
| ListMirror.Sanitise | src/app/empleados/page.js:58 | definition of `value.replace(/\D/g, '')` and, for prices, `replace(/[^\d.]/g, '')` (src/app/productos/page.js:56); its properties are in the `ListMirror.Sanitise…` lemmas |
| ListMirror.SanitiseCounts | src/app/empleados/page.js:57-62 | every kept character survives as often as it occurred, and no other character survives |
| ListMirror.SanitiseConcat | src/app/productos/page.js:54-60 | the filter works piecewise, so the surviving characters keep their original order |
| ListMirror.SanitiseClean | src/app/productos/page.js:54-60 | a text made only of kept characters passes the filter unchanged |
| ListMirror.SanitiseIdempotent | src/app/empleados/page.js:57-62 | filtering twice gives the same result as filtering once |
| Pages.DniKeepsDigitsOnly | src/app/empleados/page.js:57-62 | the `dni` filter turns "12.345" into "12345" |
| Pages.PrecioKeepsEveryDot | src/app/productos/page.js:54-60 | the `precio` filter keeps every dot: "1.2.3$" becomes "1.2.3" |
| ListMirror.ReplaceById | src/app/empleados/page.js:87-90 | after an edit the list keeps its length; exactly the entries with the edited id become the server's record, and the others stay in place |
| ListMirror.RemoveById | src/app/empleados/page.js:111 | a delete never lengthens the list |
| ListMirror.RemoveByIdKeepsOthers | src/app/empleados/page.js:111 | after a delete no entry has that id, and every entry with another id is kept as often as before |
| ListMirror.RemoveByIdConcat | src/app/productos/page.js:108 | removal works piecewise, so the remaining entries keep their order |
| ListMirror.RemoveByIdNoMatch | src/app/productos/page.js:108 | a list without that id is left unchanged |
| Pages.BlankForm | src/app/empleados/page.js:19-26 | the initial form holds exactly the page's fields, all empty |
| Pages.NewForm | src/app/empleados/page.js:37-45 | a new-record form holds the page's fields, all empty, plus `owner` set to the user's email or "" |
| Pages.EmpleadosNewForm | src/app/empleados/page.js:37-45 | the new employee form holds exactly the six employee fields and `owner` |
| Pages.ProductosNewForm | src/app/productos/page.js:36-42 | the new product form holds exactly the four product fields and `owner` |
| Pages.SubmitPayload | src/app/empleados/page.js:73-78 | creating sends the form as it is; editing sends the form with the edited record's id (dropped when undefined); no other field differs from the form |
| Pages.Page.constructor | src/app/empleados/page.js:14-26 | a page starts with an empty list, a blank form, nothing being edited and the modal closed |
| Pages.Page.AbrirModal | src/app/empleados/page.js:31-48 | opening the modal edits the given record, or a new-record form, and leaves the list alone |
| Pages.Page.CerrarModal | src/app/empleados/page.js:50-53 | closing the modal clears the edited record and keeps the list and the form |
| Pages.Page.HandleInputChange | src/app/empleados/page.js:55-69 | the filtered field takes the filtered input, any other field takes the input verbatim, and nothing else in the form or the page changes |
| Pages.Page.HandleSubmit | src/app/empleados/page.js:71-99 | sends the submit payload; a failure changes nothing; a successful edit replaces the entries with the edited id; a successful create appends the server's record; both close the modal |
| Pages.Page.Eliminar | src/app/empleados/page.js:102-117 | only a confirmed and successful delete removes the entries with that id; otherwise the list is unchanged |

## Left out

- Firestore is an in-memory map. `getDocs`, `getDoc`, `setDoc`, `deleteDoc` and `doc(collection(...))` are methods of `Store.Collection`. Generated ids come from a counter, so only their freshness is modelled, not their format.
- Each request is atomic. The race between the existence/owner check and the write, across concurrent requests, is not modelled.
- Token verification (`admin.auth().verifyIdToken`) is a parameter `verify: string -> Option<Claims>`. The claims are reduced to `uid` and `email`.
- `parseFloat` is a parameter `parse: string -> Option<real>`. A number in the body reads back as itself, and a boolean, `null` or `undefined` gives no number. IEEE values, `Infinity` and `NaN` as stored values are not modelled.
- The catch-all 500 replies and `console.error` logging are modelled only for the failures the model can name:
  - the store refusing a document that holds an undefined value or a reserved field name;
  - a body with its own `hasOwnProperty` property on the update path;
  - a truthy non-string `id`, from which no document path can be built.
  Other failures of the store or the network, and the middleware's outer 500 path, are not modelled.
- Store.ReservedName: it treats as reserved every name that begins and ends with `__`. Firestore's check is the pattern `^__.*__$`, whose `.` does not match a line break, so a name with a line break between the underscores is stored by Firestore but refused by the model. This keeps the predicate cheap for the solver.
- Body values are scalars: strings, numbers, booleans, `null` and `undefined`. Nested objects and arrays are not modelled.
- Ids containing `/` (sub-collection paths in Firestore) are treated like any other string.
- The order in which the listing returns documents is the snapshot order, and the model leaves that order unspecified.
- The collection names (`'empleados'`, `'productos'`) are not modelled. Each controller is given its own `Collection` object instead.
- The error-message bodies of 403 and 404 replies (`error`, `message`) are not modelled. Only their status is.
- Express setup, CORS, body-size limits and security headers in backend/index.js are not modelled. The client network and session code in `src/app/utils/fetchInterceptor.js`, the `*.services.js` files and `src/app/login/page.js` is not part of this model.
- React machinery is not modelled: the `useEffect` auth-state and loading flows, the country and currency lists, `confirm`, `alert` and JSX rendering. The user's answer to `confirm` and the service's success are parameters of `Pages.Page.Eliminar` and `Pages.Page.HandleSubmit`.
- Pages.Page.HandleSubmit: the server's answer is a parameter, not the result of the network call. The page is not tied to the controller's reply.
