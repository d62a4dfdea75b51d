# Imported-file bookkeeping of three-step-explorer

three-step-explorer is a browser page that imports STEP CAD files, shows them in a
three.js scene and remembers imported files in the browser's local storage. Apart from
library wiring, `index.js` keeps a small amount of state of its own, and this project
models that state and proves what its handlers do to it:

- **Display names.** The file-input handler gives every selected file a display name.
  It uses a counter table (`existingNames`, persisted under the local-storage key
  `"fileNames"`) that maps an original file name to the next suffix. A name whose counter
  is falsy is shown as it is and its counter becomes 1. A name whose counter is `c` is
  shown as `name (c)` and its counter becomes `c + 1`. The table is written back once,
  after the loop.
- **Payload store.** When a file has been read, its parse result is stored in local
  storage under the display name. The row's Remove button deletes that key. It also
  deletes the *display name* from its selection's counter table and writes that table
  back. The Clear button wipes local storage and the file list.
- **Added objects.** The row's Add button reads the stored parse result. It appends one
  `{name, model}` record per mesh to `addedObjects` and rebuilds the scene list after each
  mesh, one row per record in array order.

The model has three modules:

- `DisplayNames` (`display_names.dfy`) covers how a counter is written and the
  `name (c)` label. `StringToInt` is a reference inverse, used to prove that labels of
  one name never coincide.
- `NameCounters` (`name_counters.dfy`) holds the loop's rule as functions: `Register`
  for one file and `RegisterAll` for a whole selection. Lemmas about both sit beside
  them.
- `Viewer` (`viewer.dfy`) holds the page's state as classes:
  - `Session` holds local storage, the file list, `addedObjects` and the scene list.
  - `NameTable` is the `existingNames` object of one selection.
  - `FileEntry` is a file-list row, together with what its closures capture.

  `Session`'s methods are the handlers.

Decisions worth knowing when reading the model:

- Truthiness of the counter: `existingNames[name]` is falsy when the key is absent or
  holds 0. `Counter` reads both as 0. As a result the new counter is always the old
  reading plus one, and the shown name is `Label(name, reading)`.
- Each selection reads its own copy of the table (index.js:129). Every Remove closure
  of that selection updates this same object and writes it back (index.js:206-207). The
  model gives each selection its own `NameTable` object, and each `FileEntry` refers to
  the table of its selection. Remove on an old row therefore writes back a table that
  never saw later selections. At session level, removing a `B (n)` row can move `B`'s
  persisted counter back: `RemovingLabelledEntryKeepsCounter` holds for the row's own
  table only. `StaleTableScenario` shows a label handed out twice this way. Writing back
  an old table also drops counters that later selections added: import "A", import "C",
  remove the "A" row, and the next "C" is shown plain "C" while the first "C" row is
  still listed (`StaleTableDropsLaterScenario`).
- The Remove handler fails at index.js:209, because `mesh` is not in scope there. The
  row's removal from the list and the storage and counter bookkeeping before that line
  take effect: `addedObjects` and the scene list keep the removed file's objects.
- The Add handler with nothing stored under the name fails at index.js:150, when it
  reads `meshes` of `null`. Nothing changes.
- `Session` keeps, as ghost state, the set of every row the file-input handler created.
  A read completion (`StorePayload`) requires its row to be one of them, listed or not.
- Add and Remove require their row to be in the file list. A row taken off the list,
  or cleared by the Clear button, takes its buttons with it, so they cannot be pressed.
- A mesh's scene handle is a number drawn from `nextHandle`. Each mesh is attached to the
  scene at the moment its record is appended, so attachment is not tracked separately.

Behaviour a reader might not expect:

- A comment in the program (index.js:119) asks that a name already in the file list get
  `(1)`, `(2)`, ... appended. The code does this per original file name only.
- Within one selection, copies of the same file name are never shown alike
  (`SameNameDistinctLabels`).
- Across selections, copies of one name can be shown alike. Removing the row shown under
  the plain name deletes that name's counter (`RemovingPlainEntryResets`), so the suffix
  sequence starts again while older labelled rows are still listed
  (`RelabelAcrossSelectionsScenario`). A stale table can do the same
  (`StaleTableScenario`).
- A file whose own name looks like a label can collide with that label
  (`LabelsMayCollideAcrossNames`).
- Clear empties local storage and the file list only. It leaves `addedObjects` and the
  scene as they are.
- Remove does not detach anything from the scene.

## Model

| member | source | states |
|---|---|---|
| `DisplayNames.NatToString` | index.js:135 | a non-negative counter is written as a non-empty string of decimal digits with no leading zero |
| `DisplayNames.IntToString` | index.js:135 | a counter is written with a leading minus sign exactly when it is negative, and digits after that |
| `DisplayNames.StringToIntOfIntToString` | index.js:135 | reading back the written counter gives the counter, negative ones included |
| `DisplayNames.IntToStringInjective` | index.js:135 | two different counters are never written alike |
| `DisplayNames.Disambiguate` | index.js:135 | the label starts with the file name, then " (", ends with ")", and is longer than the name by the counter's text plus three |
| `DisplayNames.DisambiguateInjective` | index.js:135 | the counter can be recovered from a label of a given name |
| `DisplayNames.Label` | index.js:132-135 | the shown name equals the file name exactly when the counter reads falsy (0), and is `name (c)` otherwise |
| `DisplayNames.LabelInjective` | index.js:132-135 | different counter readings give different shown names for one file name |
| `NameCounters.Counter` | index.js:133 | the reading is 0 (falsy) exactly when the key is absent or holds 0, and is the stored value when present |
| `NameCounters.Register` | index.js:132-138 | after one file, its original name is a key of the table and holds the reading plus one |
| `NameCounters.RegisterSpec` | index.js:132-138 | one file: shown as `Label(name, counter)`, unchanged exactly when the counter is falsy; the counter keyed by the original name becomes reading + 1; the key set gains only that name and every other entry keeps its value |
| `NameCounters.RegisterAll` | index.js:131-139 | a batch shows one name per selected file |
| `NameCounters.RegisterAllStep` | index.js:131-139 | a batch one file longer registers the extra file against the table the shorter batch left |
| `NameCounters.RegisterAllCounters` | index.js:131-139 | after a batch each name's counter has advanced by the number of times it was selected, the keys gained are exactly the selected names, and unselected names keep their entry |
| `NameCounters.RegisterAllDisplayed` | index.js:131-139 | the i-th file is shown as its name labelled with its initial counter plus the number of earlier copies of it in the batch |
| `NameCounters.SameNameDistinctLabels` | index.js:131-139 | two copies of the same file name in one batch are never shown alike |
| `NameCounters.OccurrencesGrow` | index.js:131-139 | a later prefix of the batch holds strictly more copies of a name it repeats |
| `NameCounters.RepeatedImportAt` | index.js:131-139 | the j-th of k copies of a name is labelled with its initial counter plus j |
| `NameCounters.RepeatedImport` | index.js:131-139 | k copies of a name continue its suffix sequence from its counter and leave the counter k further on |
| `NameCounters.RepeatedImportFromEmpty` | index.js:131-139 | from an empty table, k copies are shown `name`, `name (1)`, ..., `name (k-1)` and the counter ends at k |
| `NameCounters.LabelsMayCollideAcrossNames` | index.js:131-139 | the batch "a", "a", "a (1)" shows "a (1)" twice |
| `NameCounters.RemovingPlainEntryResets` | index.js:206 | deleting the plain name from the table makes its next import show it plain and set its counter to 1 |
| `NameCounters.RemovingLabelledEntryKeepsCounter` | index.js:206 | deleting `name (n)` from a table leaves that table's counter of `name`, and the name its next import shows, unchanged |
| `Viewer.NewObjects` | index.js:151-195 | the records for a payload of n meshes are n in number, in mesh order, all carrying the shown name, with consecutive handles |
| `Viewer.RenderObjectList` | index.js:235-240 | the scene list has one row per added object, showing its name, in array order |
| `Viewer.NameTable.Register` | index.js:132-139 | the in-place update of `existingNames` for one file yields the shown name and table that `Register` defines |
| `Viewer.Session.constructor` | index.js:122-123 | on page load local storage holds what earlier visits left, and nothing is added or listed yet |
| `Viewer.Session.ImportBatch` | index.js:127-139 | the shown names and the selection's table are `RegisterAll` of the persisted table; the persisted table becomes that table; one fresh row per file, in order, sharing the table; storage and added objects unchanged |
| `Viewer.Session.AppendRow` | index.js:216-218 | a fresh row showing the given name is appended to the file list; nothing else changes |
| `Viewer.Session.StorePayload` | index.js:222-227 | for a row the file-input handler created, the parse result is stored under exactly the name the row shows, overwriting, whether or not the row is still listed; nothing else changes |
| `Viewer.Session.Add` | index.js:147-198 | with no payload stored nothing is added; otherwise exactly one record per mesh is appended after the earlier ones, each with the shown name; the scene list shows one row per record |
| `Viewer.Session.Remove` | index.js:202-209 | the row leaves the file list; exactly the shown name's payload key is deleted; the shown name is deleted from the row's own selection table, which becomes the persisted table; added objects and the scene list are untouched |
| `Viewer.Session.Clear` | index.js:13-17 | all payloads, the persisted table and the file list are emptied; added objects and the scene list stay |
| `Viewer.StaleTableScenario` | index.js:129-207 | import "B" twice, then "B", then remove the first selection's "B (1)" row: its stale table moves B's persisted counter back, and the next "B" is shown "B (2)" while the earlier "B (2)" row is still listed |
| `Viewer.RelabelAcrossSelectionsScenario` | index.js:129-207 | import "B", import "B", remove the plain "B" row, import "B" twice: the second is shown "B (1)" while the earlier "B (1)" row is still listed |
| `Viewer.StaleTableDropsLaterScenario` | index.js:129-207 | import "A", import "C", remove the "A" row: its stale table drops C's counter, and the next "C" is shown plain "C" while the earlier "C" row is still listed |
| `Viewer.ImportAddRemoveScenario` | index.js:147-226 | importing "part.step" shows it plain; Add of its one-mesh payload records one object; Remove deletes the payload but one object stays listed |

## Left out

- Rendering: the three.js scene, camera, renderer, orbit controls, view-helper gizmo,
  grid, axes and animation loop (index.js:31-116) are library wiring.
- Mesh contents: geometry buffers and materials (index.js:152-193) are foreign calls on
  float data. A payload is reduced to its mesh count and a mesh to a numeric handle. The
  supplied colour is never used: both branches use the same grey and differ only in
  material type, which affects rendering alone.
- The importer and file reading (index.js:120, 221-228) are a WASM call and asynchronous
  input. `StorePayload` takes the parse result as a parameter and may be called at any
  time. A parse result without `meshes`, which would make Add fail at index.js:151, is not
  modelled. Neither are failures inside the mesh loop.
- The order of read completions is not modelled. Each completion is a separate
  `StorePayload` call.
- DOM output and logging: list items, buttons and `console.log` are not modelled. The file
  list is kept only as the sequence of rows whose buttons can be pressed. The scene list
  is kept as the names it shows.
- The list the load handler builds from the table's keys (index.js:20-29) is DOM-only and
  has no buttons.
- The scene list's buttons (index.js:243-255): Remove only logs; Select fails at
  index.js:246 because `fileName` is not in scope there. Neither changes any state.
- Removal from `addedObjects` and detaching meshes from the scene (index.js:209-213) never
  happen: the handler fails at index.js:209 first.
- Local storage holds the payloads and the `"fileNames"` table under one key space. A file
  shown as `fileNames` would overwrite the table in the program. The model keeps the two
  apart.
- JSON serialisation of the table and of payloads is treated as exact. Counters are
  unbounded integers. JavaScript numbers stop advancing by one beyond 2^53 and are written
  in exponent form from 10^21 on. Counters of another type found in storage (text, say) are
  not modelled. Keys with special meaning on a JavaScript object are not modelled either:
  `__proto__`, and inherited keys such as `constructor` or `toString`, which read as
  truthy on a plain `{}` and would give a function's source text as the suffix.
- A full local storage, or one that cannot be written, is not modelled.
