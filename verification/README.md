# To-do task store, modelled in Dafny

The to-do app keeps its tasks in a `Task` store: a map from task id to a
record `{id, title, isCompleted}`, hydrated at construction from one key
(`"TASK"`) of the browser's local store and written back in full after every
create, and after every complete or delete whose id is present (completing a
task that is already completed writes without changing anything). Two derived
views split the map into completed and pending tasks.

The model is functional. A `Store` value holds the in-memory map and the
persisted slot; each operation returns the next `Store`. Reads hand out the
map by value.

- `storage.dfy`, module `Storage`: the persistence adapter. `Slot<T>` is what
  reading and parsing the key yields: missing, malformed, falsy, or a stored
  value. `GetItem` implements the fail-open read: anything but a stored value
  reads as the empty value (`{}`), and the read never fails. `SetItem` is the
  write; an `Encoding` says whether the value's JSON text parses back to an
  equal truthy value, to a falsy one, or not at all (`undefined`).
- `task.dfy`, module `TaskStore`: `TaskRec`, `Store`, the id draw `DrawId`,
  hydration `Init`, `Persist` (`persistData`), `CreateTask`, `CompleteTask`,
  `DeleteTask`, `GetAllTask`, and the reference filters `Completed` and
  `Pending`. The lemmas cover the partition of the views, idempotence of
  completion, overwrite on an id collision, undoing a fresh create, the
  key/id invariant, and reload after persisting.
- `views.dfy`, module `TaskViews`: `getCompletedTask` and `getPendingTask` as
  the store computes them, a scan over the keys. Both are proved equal to the
  reference filters.
- `session.dfy`, module `Session`: a sequence of create, complete and delete
  intents applied to a store. The lemmas carry the one-step invariants over
  any run.

Parameters standing in for what the model cannot see:
- `Math.random()` is a caller-supplied `draw: real` with `0.0 <= draw < 1.0`.
  The id is `Floor(draw * 999)`, computed on exact reals.
- The contents of the local store under `"TASK"` at start-up are the
  `Slot<Tasks>` given to `Init`.

## Model

| member | source | states |
|---|---|---|
| `Storage.SetItem` | todo/src/js/storage.js:11-13 | after a write, reading the key gives the value written when its JSON text parses back to an equal truthy value (as a map of records does), and the empty value when it parses to a falsy value or is `undefined` |
| `Storage.GetItem` | todo/src/js/storage.js:20-29 | reading never fails: a usable slot reads as the value it holds; a missing, unparsable or falsy slot reads as the empty value |
| `TaskStore.DrawId` | todo/src/js/task.js:30 | every generated id lies in 0..998 |
| `TaskStore.Init` | todo/src/js/task.js:10-22 | a new store hydrates from the slot and writes nothing; it agrees with its persisted copy exactly when the slot held a usable map, and it starts empty from a missing, unparsable or falsy slot |
| `TaskStore.Persist` | todo/src/js/task.js:102-104 | the map is left as it is, and the persisted copy then equals it |
| `TaskStore.CreateTask` | todo/src/js/task.js:29-38 | the returned record has the drawn id, the given title and is pending. The map then holds it under that id. Every other key is unchanged. The key set grows by at most that id. The persisted copy mirrors the map |
| `TaskStore.CompleteTask` | todo/src/js/task.js:45-50 | on a present id, that record becomes completed and keeps its id and title. Every other key and the key set are unchanged, and the copy is persisted. On an absent id the map and the persisted copy are unchanged |
| `TaskStore.DeleteTask` | todo/src/js/task.js:56-61 | on a present id, exactly that key is removed, every remaining record is unchanged, and the copy is persisted. On an absent id nothing changes and nothing is written |
| `TaskStore.GetAllTask` | todo/src/js/task.js:67-69 | the whole map is exactly the union of the completed and pending views |
| `TaskStore.ViewsPartition` | todo/src/js/task.js:67-97 | the completed and pending views have disjoint key sets whose union is the key set of `getAllTask`. Their union is the whole map, and each view maps a key to the store's own record with the matching flag |
| `TaskStore.CompleteIdempotent` | todo/src/js/task.js:45-50 | completing twice gives the same map and persisted copy as completing once |
| `TaskStore.CompletionMonotone` | todo/src/js/task.js:45-61 | completing or deleting never clears a completion flag |
| `TaskStore.CreateOverwrites` | todo/src/js/task.js:29-38 | creating under an id already in use replaces the old record (last write wins): the size is unchanged and the record under that id is the new pending one |
| `TaskStore.CreateFreshGrows` | todo/src/js/task.js:29-38 | creating under a free id adds exactly one record |
| `TaskStore.DeleteUndoesFreshCreate` | todo/src/js/task.js:29-61 | deleting the task just created under a free id restores the original map |
| `TaskStore.CreateKeepsWellKeyed` | todo/src/js/task.js:29-38 | if every key equals its record's id, it still does after a create |
| `TaskStore.CompleteKeepsWellKeyed` | todo/src/js/task.js:45-50 | if every key equals its record's id, it still does after a complete |
| `TaskStore.DeleteKeepsWellKeyed` | todo/src/js/task.js:56-61 | if every key equals its record's id, it still does after a delete |
| `TaskStore.CreateKeepsKeysInRange` | todo/src/js/task.js:29-38 | if every key lies in 0..998, it still does after a create |
| `TaskStore.CompleteKeepsKeysInRange` | todo/src/js/task.js:45-50 | if every key lies in 0..998, it still does after a complete |
| `TaskStore.DeleteKeepsKeysInRange` | todo/src/js/task.js:56-61 | if every key lies in 0..998, it still does after a delete |
| `TaskStore.ReloadRoundTrip` | todo/src/js/task.js:102-112 | a fresh store reading the persisted copy of a mirrored store has the same map |
| `TaskStore.CreateThenComplete` | todo/src/js/task.js:29-97 | from an empty store, create then complete a task: the completed view holds exactly that task, now completed, and the pending view is empty |
| `TaskViews.Scan` | todo/src/js/task.js:76-82 | one pass over the keys, in any order, collects exactly the records whose flag matches, under their own keys |
| `TaskViews.GetCompletedTask` | todo/src/js/task.js:75-83 | a key is in the result iff its record is completed; each entry is the store's own record; the result equals the completed view |
| `TaskViews.GetPendingTask` | todo/src/js/task.js:89-97 | a key is in the result iff its record is not completed; each entry is the store's own record; the result equals the pending view |
| `Session.StepMirrors` | todo/src/js/task.js:36-59 | every create, and every complete or delete whose id is present, leaves the persisted copy equal to the map; a complete or delete on an absent id changes nothing |
| `Session.RunMirrors` | todo/src/js/task.js:29-61 | after any sequence of intents the persisted copy mirrors the map, unless the store is exactly as it started |
| `Session.RunKeepsMirrored` | todo/src/js/task.js:29-61 | a store whose persisted copy mirrors its map keeps doing so over any sequence of intents |
| `Session.RunKeepsWellKeyed` | todo/src/js/task.js:29-61 | the key-equals-id invariant holds after any sequence of intents |
| `Session.RunKeepsKeysInRange` | todo/src/js/task.js:29-61 | the keys-in-0..998 invariant holds after any sequence of intents |
| `Session.FreshSessionInvariants` | todo/src/js/task.js:10-61 | a store that started from a missing, unparsable or falsy slot only ever holds ids in 0..998, each under its own key |
| `Session.SessionReload` | todo/src/js/task.js:10-104 | whatever the slot held at start-up, and with no other writer to the key, a fresh store constructed after any session reads back the map the session ended with |

## Left out

- JSON encoding and the browser's local store are not modelled. A write is
  described only by its `Encoding`; the store always writes a map of records,
  which is a JSON object and so reads back as itself. A reload builds fresh
  record objects, so the model's "same map" stands for "same keys, ids,
  titles and flags".
- `Storage.SetItem`: the caller's `Encoding` is not checked against the value.
  Values that JSON does not reproduce are not modelled: a Date reads back as a
  string, `NaN` as `null`, and fields holding `undefined` or functions are
  dropped. Each reads back as a truthy value that differs from the one
  written. The store never writes such a value.
- A stored JSON value that is truthy but not an object (`5`, `"x"`, `[1]`,
  `true`) is hydrated as is by the source. Later writes to such a value
  misbehave. The model's slot can only hold a map of records, so this case is
  not modelled.
- A hydrated entry that is not a record is not modelled. A falsy entry
  (`{"5": null}`) is skipped by the truthiness test in `completeTask` and
  `deleteTask`, and it breaks the views. A truthy non-record entry
  (`{"5": 7}`) passes that test, and `completeTask` then throws a TypeError
  when it sets a property on a number, because module code is strict. Records
  in the model always exist, so "present" means "key in the map".
- `TaskStore.Persist`: the write never fails in the model. `localStorage.setItem`
  can throw (quota exceeded, storage disabled), with no try around it. By then
  `createTask`, `completeTask` and `deleteTask` have already changed the map,
  so the exception leaves the map changed, the stored copy stale, and reaches
  the caller. Every `Mirrored` guarantee assumes the write succeeded.
- One `Store` is the only writer of the `"TASK"` key. In the browser every
  `Task` of the same origin shares that key: another open tab, or another
  `new Task()` (one is built per page load). Each `persistData` writes the
  whole map, so across writers the last write wins. If tabs A and B both
  start from `{}` and each creates a task, the key ends up holding only B's
  task, and A's map no longer matches it. `Store.persisted`, `Mirrored` and
  `Session.SessionReload` describe the key only while no other writer
  touches it.
- `DrawId`: the random draw is computed on exact reals, not IEEE doubles.
  The range 0..998 also holds for doubles, but double rounding is not
  modelled.
- Ids arrive from the DOM as strings, and object keys are strings. Keys are
  modelled as `int`.
- `getAllTask` returns the live internal object, and `createTask` returns the
  same object it stores. `getCompletedTask` and `getPendingTask` build fresh
  objects but fill them with the store's own record objects. A caller could
  mutate any of these and bypass persistence. The model returns values, so
  this aliasing is not modelled.
- `Object.keys` lists integer-like keys in ascending order. `TaskViews.Scan`
  is proved for every visiting order, so it covers that order too.
- The `console.log` diagnostic on a parse failure is I/O and is not modelled.
- `layout.js` (DOM construction, event binding, the tab-to-view dispatch that
  picks `getAllTask`, `getPendingTask` or `getCompletedTask`) and `main.js`
  (bootstrap) are view glue and are not part of this model. The bundler
  configuration has no behaviour.
- The code treats `isCompleted` as going only from false to true: there is no
  uncomplete operation, and the view disables a completed task's checkbox
  (layout.js lines 55 and 200). An id collision breaks this: `createTask`
  replaces a completed record with a pending one. `TaskStore.CompletionMonotone` therefore covers only
  complete and delete, and `TaskStore.CreateOverwrites` states the collision
  behaviour.
