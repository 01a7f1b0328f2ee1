# Family graph: store, snapshots, identifiers and the renderer's own logic

The system keeps a graph of people and their relations. Person nodes are keyed by their
name (`nom`, written `Prénom NOM`) and carry an optional origin and a position. Each relation
is a typed directed edge (`FAMILLE`, `AMIS`, `AMOUR`, …) from one name to another. A REST back
end runs one Cypher statement per handler against the store. It can export the graph and
import it again, keep snapshots of it as JSON files, and give every person and relation a
six-digit identifier. The browser front end draws the graph, overlays pending change
proposals, checks names and comma-separated lists, derives an id for each drawn relation, and
dissolves origin groups.

The Dafny modules follow the program's files:

- `GraphStore` (`graph_store.dfy`): the store as a class with a list of nodes and a list of
  relations. It holds the write handlers of `backend/index.js` as methods. Its invariant
  `Valid` says that no relation dangles.
- `GraphRead` (`graph_read.dfy`): the read query's rows folded into the name-keyed dictionary
  and the edge list, for `GET /graph`, `GET /export` and the snapshot reader. The dictionary
  has two kinds. `PlainObject` is the handlers' `{}`, where the key `__proto__` is not stored.
  `NullPrototype` is the corrected `Object.create(null)`, where every name is a key.
- `RoundTrip` (`round_trip.dfy`): export followed by import, proved for every store whose
  Person names are unique and for the read query's rows in any order. It is proved on the
  corrected dictionary, and it carries over to the handlers' `{}` when no Person is named
  `__proto__`.
- `Snapshots` (`snapshots.dfy`): `backend/snapshots.js`. The snapshot directory is an object
  that holds a present flag and its files in directory order.
- `Ids` (`ids.dfy`): `backend/ids.js`. The random source is an oracle of draws.
- `NameRules`, `PendingOverlay`, `EdgeIds`, `Groups` (`renderer_*.dfy`): the logic of
  `frontend/renderer.js`.
- `Wrappers`, `Text`, `Collections`: option and result types, JavaScript string operations
  (trim, split, join, sort, reverse, decimal digits), `Array.prototype.filter` and `map`.

Calls into the database, the file system, the clock, `crypto.randomUUID` and `Math.random`
become parameters. They are the rows a query returns, the directory's files, the timestamp,
the UUID and the sequence of draws. A request body field that JavaScript sees as `undefined`,
`null` or a value is an `Arg` (`Absent`, `Null`, `Given`).

## Model

| member | source | states |
|---|---|---|
| GraphStore.Store.CreatePerson | backend/index.js:63-89 | 400 when `nom` is falsy or `x` or `y` is missing, and then nothing changes; otherwise 201 and exactly one new Person with the given fields (a `null` field is stored as absent, and there is no `nodeId`); relations untouched; no relation dangles afterwards |
| GraphStore.Store.SetCoordinates | backend/index.js:92-102 | always 200; only the Persons called `nom` get the given `x` and `y`; relations untouched; a missing name selects nothing |
| GraphStore.Store.UpdatePerson | backend/index.js:105-119 | 400 and nothing changes without a truthy `oldNom`; otherwise 200, the Persons called `oldNom` get the name `nom || oldNom` and the given origin, and their relations follow them to the new name, so none dangles |
| GraphStore.Store.DeletePerson | backend/index.js:122-132 | always 200; exactly the Persons called `nom` and the relations touching that name are removed; all else stays in order |
| GraphStore.Store.DeleteAll | backend/index.js:135-139 | every node, Proposal nodes included, and every relation is removed |
| GraphStore.Store.AddRelation | backend/index.js:223-234 | always 201; appends one relation for each pair of Persons matching `source` and `target`, so none when either name is unknown; no relation dangles |
| GraphStore.Store.DeleteRelation | backend/index.js:237-249 | always 200; removes exactly the relations of that type from `source` to `target`; nodes untouched |
| GraphStore.Store.DeletePersons | backend/snapshots.js:133 | the Persons go with all their relations; other nodes stay |
| GraphStore.Store.RecreateNodes | backend/index.js:186-201 | appends, in order, one Person per JSON node (a typed record, see "Left out") with `origine \|\| null`, `x \|\| 0`, `y \|\| 0` and no `nodeId` |
| GraphStore.Store.RecreateEdges | backend/index.js:204-214 | appends, in order, the relations between matching Persons for each JSON relation |
| GraphStore.Store.Import | backend/index.js:178-220 | everything is deleted first; reports the two input lengths on success; a body without a node list fails with nothing left, and one without a relation list fails after the Persons are recreated |
| GraphStore.RenamedNames | backend/index.js:110-117 | after a rename the Person names are the old ones with `oldNom` replaced by the new name |
| GraphStore.WithoutPersonNames | backend/index.js:125-130 | after `DETACH DELETE` the Person names are the old ones without `nom` |
| GraphStore.NewEdgesJoinPersons | backend/index.js:226-230 | every relation `CREATE` makes joins two existing Persons |
| GraphStore.MatchedEdgesOneEach | backend/index.js:204-214 | with one Person per name, each JSON relation between known names creates exactly one relation |
| GraphRead.FoldCharacterized | backend/index.js:27-54 | the dictionary has unique keys, each the `nom` of its value; each name the dictionary stores maps to the last property map written for it; on the plain `{}` the name `__proto__` is never a key; the edges are those of the complete rows, in order; each end of an edge is a key unless the dictionary does not store that name |
| GraphRead.Assemble | backend/index.js:27-54 | the loop computes the fold characterized above, on a dictionary of either kind |
| GraphRead.FoldKindsAgree | backend/index.js:27-54 | when no row writes the name `__proto__`, the plain `{}` and `Object.create(null)` give the same fold |
| GraphRead.GetGraph | backend/index.js:18-60 | the node ids are distinct; each is the `nom` of its properties; a node exists exactly for each name other than `__proto__` that some row wrote; every row's Person not named `__proto__` is a node; the edges are those of the complete rows, and each end not named `__proto__` is a node |
| GraphRead.Export | backend/index.js:142-175 | the nodes are the plain `{}` dictionary's values, with distinct names, each the last map written for that name; a node exists exactly for each name other than `__proto__` that some row wrote; the edges are as in `GET /graph`; the given date is returned |
| RoundTrip.QueryRowsFacts | backend/index.js:144-147 | for a store with unique names and no dangling relation, the rows carry every relation once, write only Persons' properties, and write every Person's properties |
| RoundTrip.QueryResultFacts | backend/index.js:144-147 | the same for the query's rows in any order (the query has no `ORDER BY`): the exported relations are a rearrangement of the store's, and the written maps are exactly those of the Persons |
| RoundTrip.PlainObjectAgrees | backend/index.js:150-175 | when no Person is named `__proto__`, the handlers' `{}` gives the same export and the same re-import as the corrected dictionary, so the round trip holds for the handlers as written |
| RoundTrip.ProtoPersonLost | backend/index.js:150-175 | a store with a Person `__proto__` related to Marie MARTIN: the export keeps the relation but omits that Person, so the import recreates only Marie MARTIN and no relation; the corrected dictionary brings back both Persons and the relation |
| RoundTrip.ExportImport | backend/index.js:142-220 | on the corrected dictionary and for unique names, importing the exported body recreates one Person per original Person: same count, unique names, each with its name and the import defaults, and no `nodeId`; for the query's rows in any order it also recreates the original relations, each as often as in the store, with the same endpoints and type and no `edgeId`; in store order when the rows come relation by relation |
| Snapshots.FilenameListed | backend/snapshots.js:72 | a created snapshot's file name passes the list filter and contains `-<id>.json` |
| Snapshots.ListedNamesProperties | backend/snapshots.js:86-89 | the listed names are in descending order and are exactly the directory's `snapshot-*.json` names, with multiplicities |
| Snapshots.ListSnapshots | backend/snapshots.js:81-105 | nothing when the directory is missing; otherwise one entry per listed name, in that order, with the file's id, timestamp, message, author and node and edge counts |
| Snapshots.GetSnapshotById | backend/snapshots.js:108-122 | null exactly when the directory is missing or no file name contains `-<id>.json`; otherwise the content of the first such file in directory order |
| Snapshots.Written | backend/snapshots.js:75 | writing overwrites a file of that name in place or adds it last; no other file changes |
| Snapshots.CreatedFoundExactly | backend/snapshots.js:58-78 | when no other file carries the id tag, looking the id up after creation returns the snapshot just written |
| Snapshots.GetCurrentGraph | backend/snapshots.js:20-55 | the nodes are the plain `{}` dictionary's values with distinct names, each the last map written; a node exists exactly for each name other than `__proto__` that some row wrote; the edges are those of the complete rows |
| Snapshots.SnapshotDir.InitSnapshotsDir | backend/snapshots.js:12-17 | the directory exists afterwards, with its files unchanged |
| Snapshots.SnapshotDir.CreateSnapshot | backend/snapshots.js:58-78 | the id is the UUID's first 8 characters; the file `snapshot-<timestamp with ':' as '-'>-<id>.json` holds the current graph with the message and author; the file is listed and can be found by its id; writing fails when the directory is missing |
| Snapshots.RestoredNodes | backend/snapshots.js:133-164 | after restore the non-Person nodes are all kept, the Persons are exactly the recreated ones, and relations are created only between recreated Persons |
| Snapshots.RestoreSnapshot | backend/snapshots.js:125-171 | an unknown id fails and changes nothing; otherwise the non-Person nodes are kept followed by the recreated Persons, the relations are those matched among them, and the two input counts are reported |
| Snapshots.RestoreOfCurrent | backend/snapshots.js:20-171 | on the corrected dictionary, restoring a snapshot of the current graph (unique names), whatever the order of the query's rows, brings back every Person with the import defaults, and the relations, each as often as in the store, without their `edgeId`; in store order when the rows come relation by relation |
| Ids.Random6 | backend/ids.js:3-5 | the id is six decimal digits that read back as the draw |
| Ids.Random6Injective | backend/ids.js:3-5 | different draws give different ids |
| Ids.Probe | backend/ids.js:8-13 | at most 50 draws; on success the id is the first draw not in use and all earlier draws were in use; on failure all 50 draws were in use and the message is returned |
| Ids.GenerateUniqueNodeId | backend/ids.js:3-14 | the id is `random6` of a draw, the first of at most 50 draws whose id no Person's `nodeId` equals, every earlier draw being in use; or failure after 50 draws that were all in use |
| Ids.GenerateUniqueEdgeId | backend/ids.js:16-26 | the id is `random6` of a draw, the first of at most 50 draws whose id no relation's `edgeId` equals, every earlier draw being in use; or failure after 50 draws that were all in use |
| Ids.InvalidNames | backend/ids.js:29-31 | a name is selected exactly when some Person of that name has a `nodeId` that is missing or not six long |
| Ids.InvalidKeys | backend/ids.js:37-41 | a key (endpoints and type) is selected exactly when some relation of that key has an `edgeId` that is missing or not six long |
| Ids.ValidPersonKept | backend/ids.js:29-36 | a Person whose name is shared by no Person lacking a valid id is not selected, so the migration leaves it untouched |
| Ids.ValidRelationKept | backend/ids.js:37-51 | a relation whose key is shared by no relation lacking a valid id is not selected, so the migration leaves it untouched |
| Ids.FreshIdSeparates | backend/ids.js:34-35 | an id not in use, once set on the Persons of one name, differs from the id of every Person of another name |
| Ids.AssignNodeIds | backend/ids.js:32-36 | only Persons of a selected name change, and only their `nodeId`; on success each has a valid id, distinct from that of every Person of another name; relations untouched |
| Ids.AssignEdgeIds | backend/ids.js:42-51 | only relations of a selected key change, and only their `edgeId`; on success each has a valid id, distinct from that of every relation of another key; nodes untouched |
| Ids.Migrate | backend/ids.js:28-52 | names, properties, endpoints and types are kept, and records not selected keep their ids; on success every Person and relation has a six-character id, with distinct selected names or keys getting distinct ids; a store whose ids are all valid is left as it is with no draw used |
| NameRules.NomMatchesIff | frontend/renderer.js:11 | the matcher accepts exactly one capital, lower-case letters, one space, one capital, then capitals and hyphens |
| NameRules.IsValidNomIff | frontend/renderer.js:12-14 | `isValidNom` holds exactly for strings whose trimmed form has that shape; non-strings are refused |
| NameRules.NomExampleAccepted | frontend/renderer.js:10-14 | the documented example `Jean HEUDE-LEGRANG` is accepted |
| NameRules.NomExampleHyphenatedFirstName | frontend/renderer.js:11 | `Jean-Pierre DUPONT` is refused |
| NameRules.ParseCommaListEntries | frontend/renderer.js:355-357 | every parsed entry is non-empty, trimmed, free of commas, and the trimmed text of one comma-separated field |
| NameRules.ParseJoin | frontend/renderer.js:774 | entries that are non-empty, trimmed and comma-free parse back from their comma-joined text, in order |
| NameRules.ParseOptionalListAgrees | frontend/renderer.js:819 | a null answer and an empty answer both give no origins; any other answer is parsed |
| NameRules.AddPersonList | frontend/renderer.js:354-367 | no valid name exactly when the parsed list is empty; created exactly when the list is non-empty and every entry is valid, with the names in order; otherwise the invalid entries are reported, in order, and nothing is created |
| PendingOverlay.NodePassFacts | frontend/renderer.js:235-246 | shown elements are kept; a pending person appears exactly for each proposed name not shown, built from the first proposal of that name |
| PendingOverlay.EdgePassFacts | frontend/renderer.js:248-265 | shown elements are kept; each proposal whose ends are shown gets an element `pending_e_<id>`; each added element is such a pending relation, with both ends shown |
| PendingOverlay.MarkPassFacts | frontend/renderer.js:267-281 | nothing is added or removed; each element gains exactly the classes of the proposals naming it and is otherwise unchanged |
| PendingOverlay.OverlayKeepsShown | frontend/renderer.js:228-283 | shown elements keep their content and gain only classes; a person is shown for every proposed name |
| PendingOverlay.GraphView.LoadPendingOnGraph | frontend/renderer.js:228-283 | a failed or non-array response changes nothing; otherwise the three loops leave the overlay of the three passes |
| EdgeIds.FallbackTypeRoundTrip | frontend/renderer.js:206 | without a stored id, the type read back from the fallback id is the relation's type (or `CONNECTION`), whatever underscores the names contain, as long as the type has none |
| EdgeIds.StoredIdHidesType | frontend/renderer.js:833 | a relation shown under its stored id `482913` has its type read back as `482913`, and a delete request with that type removes nothing |
| EdgeIds.UnderscoreTypeCut | frontend/renderer.js:829-834 | without a stored id, a type `head_tail` is read back as `tail`, which differs from the type, and a delete request with it keeps the stored relation |
| EdgeIds.RecoveredTypeDeletes | frontend/renderer.js:829-860 | with the type taken from the shown relation, a delete request built from it removes that stored relation, with or without a stored id |
| Groups.RemoveOriginCounts | frontend/renderer.js:514 | the group's origin is gone, and every other origin keeps its number of occurrences |
| Groups.RemoveOriginAppend | frontend/renderer.js:514 | removal works piece by piece, so the remaining origins keep their order |
| Groups.RemoveOriginIdempotent | frontend/renderer.js:514 | removing the origin twice gives the same list as once |
| Groups.GroupMembers | frontend/renderer.js:873 | a member is exactly a shown non-group node whose origins include the group's |
| Groups.PatchDropsOrigin | frontend/renderer.js:512-519 | no request keeps the group's origin; a member's origins are sent unchanged exactly when they did not include it |
| Groups.DissolveGroup | frontend/renderer.js:508-534 | one request per member, in order, renaming the member to itself with the origin removed; the success count is the number of ok replies, and the two counts add up to the number of members |

## Left out

- Floating-point positions: `x` and `y` are integers. The renderer's rounding of positions and
  its layout arithmetic are not modelled.
- The DOM, Cytoscape's drawing, `fetch`, `alert`, `prompt`, `confirm` and timers: the handlers'
  choices are modelled, and the strings they show are not.
- `Object.values` lists integer-like keys first. The model keeps the dictionary in insertion
  order, which matches only for names that are not array indices.
- The relation type is interpolated into the Cypher text (`[r:${type}]`). The model treats it
  as a plain value and does not model a malformed or hostile type rejected by the database.
- `JSON.parse` failures on a damaged snapshot file, and write errors other than a missing
  directory, are not modelled.
- The neo4j driver, the database's concurrency and transaction semantics are not modelled:
  each handler's statements run in order on one store.
- `runQuery` is not part of this model; the rows of the read query are a parameter.
- The visibility engine, the proposal workflow on the server, authentication and sign-up are
  outside this core.
- The renderer sends `origines` (a list) to `PATCH /person` while `backend/index.js` reads
  `origine`. `Groups.DissolveGroup` models the requests the renderer sends, and
  `GraphStore.Store.UpdatePerson` models what the shown server does with its own field.
- RoundTrip.ExportImport: stated on the prototype-free dictionary, the corrected design. For
  the handlers' `{}` it carries over only when no Person is named `__proto__`
  (`RoundTrip.PlainObjectAgrees`). Otherwise that Person and its relations are lost, as the
  Findings row on `backend/index.js:27-47` shows.
- Snapshots.RestoreOfCurrent: stated on the prototype-free dictionary, like
  `RoundTrip.ExportImport`. `getCurrentGraph` builds a plain `{}` as well, so a snapshot of a
  store with a Person named `__proto__` does not hold that Person.
- RoundTrip.ExportImport: proved only for stores whose Person names are unique. With
  duplicate names the dictionary keeps one map per name and import multiplies relations.
- String order is Dafny's character order; JavaScript sorts by UTF-16 code units, which
  agrees for the characters of the snapshot file names.
- The regular expression's character classes are ASCII only, as in the source. Unicode
  whitespace in `trim` is modelled by the characters listed in `Text.IsWhiteSpace`.
- PendingOverlay.GraphView.LoadPendingOnGraph: an edge element used as a relation end in the
  pending overlay is allowed by the model. Cytoscape would throw there, and the surrounding
  `catch` swallows the error. The throw would also stop the rest of the relation pass and the
  whole mark pass, keeping what was added before it. The model goes on with the later
  proposals instead.
- Snapshots.Written: a new snapshot file is placed last in directory order. `readdir` order is
  not specified. No proved property depends on this: the listing is sorted, and a lookup
  after creation assumes a unique id tag.
- The drawing colour of a relation (`colors[type]`) is computed but no property is stated
  about it.
- Ids.Migrate: a Person whose `nodeId` is already six long is kept only when no other Person
  of its name lacks a valid id. The update at `backend/ids.js:35` matches by name, so it
  overwrites every same-named Person's id. Likewise `backend/ids.js:47-50` matches by
  endpoints and type, so parallel relations of one key all get the new id. The model states
  this behaviour as it is and does not claim more.
- JSON nodes given to `/import` and to a snapshot restore are typed records: `nom` is a
  string, and `x` and `y` are integers or absent. A node without `nom`, or with a non-string
  `nom`, is not represented. The source would create a Person without a name from it.
- Which draws `Math.random` produces is not modelled: the draws are an oracle, so the ids'
  randomness is not captured, only their form and uniqueness.

## Findings

| source | as written | input that shows it | evidently intended | confidence | as-written member | corrected member |
|---|---|---|---|---|---|---|
| frontend/renderer.js:206, frontend/renderer.js:833 | a relation is shown under `edge.edgeId` when the back end sends one, and the double-click handler reads the type back as the last `_` piece of that id | a relation `Jean DUPONT -FAMILLE-> Marie MARTIN` with `edgeId` `482913`: the type read back is `482913`, so delete and retype send that type and remove nothing | the type is read from what the view keeps for the relation, so the delete request names the real type | medium, not executed; the `GET /graph` shown here does not send `edgeId`, so this applies to back ends that do | EdgeIds.StoredIdHidesType | EdgeIds.RecoveredTypeDeletes |
| frontend/renderer.js:206, frontend/renderer.js:833 | without a stored id, a relation is shown under `source_target_type`, and the double-click handler reads the type back as the last `_` piece of that id | a relation `Jean DUPONT -DEMI_FRERE-> Paul DUPONT`, a type that `/relation` and `/import` accept: the type read back is `FRERE`, so delete and retype send `FRERE` and remove nothing; this happens with the `GET /graph` shown here | the type is read from what the view keeps for the relation | high, not executed | EdgeIds.UnderscoreTypeCut | EdgeIds.RecoveredTypeDeletes |
| backend/index.js:27-47, backend/index.js:150-161, backend/snapshots.js:28-41 | the dictionary of Persons is a plain `{}` filled with `nodes[nom] = …`; for the name `__proto__` this runs the prototype setter and adds no key, so `Object.values(nodes)` omits that Person while its relations stay in the edge list | `POST /person` with `nom` `__proto__` (accepted: the handler only checks that `nom` is truthy), then a relation from it to Marie MARTIN: `GET /graph` and `GET /export` list Marie MARTIN alone beside an edge from `__proto__`, and importing that export recreates Marie MARTIN and no relation | every name is a key of the dictionary (`Object.create(null)` or a `Map`), so export then import recreates every Person and relation | high, not executed | RoundTrip.ProtoPersonLost | RoundTrip.ExportImport |
