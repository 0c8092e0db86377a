# In-memory entity stores of the notes, tasks and users servers

The repository runs three small HTTP services. Each one keeps its records in an
in-memory store. A store is a table from integer ID to record plus a `nextID`
counter. `Add` hands out the counter's value as the new record's ID and
increments it. `GetAll` lists the records in the unspecified order of Go's map
iteration. The stores differ only in their record type and in the item
operation they offer:

- the note store (`Note{ID, Content}`) has `Update` and `Delete`;
- the task store (`Task{ID, Name, Status}`) has `Execute`, which runs
  `echo <name>` and, if that succeeds, sets `Status` from `"pending"` to
  `"completed"`;
- the user store (`User{ID, Name, CreatedAt}`) has `Delete`.

The model has one module per server: `NoteServer`, `TaskServer` and
`UserServer`. Each holds the record datatype and a class with the store's two
fields, `map<int, Record>` and `nextID: nat`. `Valid()` is the store's
invariant: every key is in `[0, nextID)`, and the record under a key carries
that key as its `id`. For tasks it also says every status is `"pending"` or
`"completed"`. Every method keeps `Valid()`. Every method states its whole new
state. A lookup that misses changes nothing.

The module `Tables` holds `Bag`: the multiset of a map's values, one occurrence
per key. This is what an unordered listing is compared with. `GetAll` ranges
over a copy of the map, taking any key next. It is proved to return exactly
`Bag` of the store's map, so every record appears once and nothing else
appears. Each mutating method also says how `Bag` changes, so a later listing
follows from its contract. Examples: `Add` adds exactly the new record, and
`Delete` removes exactly the deleted one.

Outside influences are parameters:

- `TaskStore.Execute` takes `commandOk`, the outcome of the external command.
- `UserStore.Add` takes `now`, the clock reading.

## Model

| member | source | states |
|---|---|---|
| `NoteServer.NoteStore.constructor` | note_server.go:21-25 | a new note store is empty, its counter is 0, and its invariant holds |
| `NoteServer.NoteStore.Add` | note_server.go:27-34 | returns the old `nextID`, which no stored note had; stores `Note(id, content)` under it and nothing else changes; `nextID` grows by exactly one; the listing gains exactly that note; the invariant is kept |
| `NoteServer.NoteStore.GetAll` | note_server.go:36-44 | the result holds every stored note exactly once and nothing else (as a multiset it equals the map's values, one per key); its length is the number of notes |
| `NoteServer.NoteStore.Update` | note_server.go:46-55 | returns true iff `id` is stored; then only that note changes, and it keeps its ID and takes the new content; otherwise the map is unchanged; `nextID` never changes; the invariant is kept |
| `NoteServer.NoteStore.Delete` | note_server.go:57-65 | returns true iff `id` was stored; afterwards `id` is absent and every other note is unchanged; `nextID` is unchanged, so the deleted ID is never handed out again; the listing loses exactly that note |
| `NoteServer.NoteLifecycle` | note_server.go:27-65 | from a new store: the first note gets ID 0 and is listed alone; after an update it is listed with the new text; deleting an ID never handed out fails; the first delete of the note succeeds and a second fails; the listing is then empty |
| `TaskServer.TaskStore.constructor` | task_server.go:23-27 | a new task store is empty, its counter is 0, and its invariant holds |
| `TaskServer.TaskStore.Add` | task_server.go:29-36 | returns the old `nextID`, which no stored task had; stores `Task(id, name, "pending")` under it and nothing else changes; `nextID` grows by exactly one; the invariant, including the status set, is kept |
| `TaskServer.TaskStore.GetAll` | task_server.go:38-46 | the result holds every stored task exactly once and nothing else; its length is the number of tasks |
| `TaskServer.TaskStore.Execute` | task_server.go:48-60 | returns true iff `id` is stored and the command succeeds; then only that task changes, and it keeps its ID and name and becomes `"completed"`; on a missing ID or a failed command nothing changes; `nextID` never changes; every status stays `"pending"` or `"completed"` |
| `TaskServer.TaskLifecycle` | task_server.go:29-60 | from a new store: the first task gets ID 0 and is listed as pending; executing it with a failed command, or executing an ID never handed out, fails; executing it with a successful command succeeds; it is then listed as completed with the same ID and name |
| `UserServer.UserStore.constructor` | user_server.go:23-27 | a new user store is empty, its counter is 0, and its invariant holds |
| `UserServer.UserStore.Add` | user_server.go:29-36 | returns the old `nextID`, which no stored user had; stores `User(id, name, now)` under it; `nextID` grows by exactly one; no stored user's name or creation time changes |
| `UserServer.UserStore.GetAll` | user_server.go:38-46 | the result holds every stored user exactly once and nothing else; its length is the number of users |
| `UserServer.UserStore.Delete` | user_server.go:48-56 | returns true iff `id` was stored; afterwards `id` is absent and every other user is unchanged, name and creation time included; `nextID` is unchanged |
| `UserServer.UserIds` | user_server.go:29-56 | from a new store: IDs are handed out as 0, 1, 2 even when 0 was deleted in between; a second delete of 0 fails; the listing is exactly the two remaining users with the names and times they were added with |
| `Tables.BagRemove` | note_server.go:40-42 | ranging over a map may visit its keys in any order: whichever key comes first, the remaining entries make up the rest of the listing |
| `Tables.BagSize` | note_server.go:39-43 | a listing of a map holds one value per key, so its size is the map's size |

## Left out

- The HTTP handlers, routing, JSON encoding and decoding, and `main` (note_server.go:67-120, task_server.go:62-104, user_server.go:58-100). They are I/O over `net/http` and `encoding/json`. As written they also do not compile. They pass the path suffix, a `string`, to the `int`-keyed store methods, and `task_server.go` uses `json` without importing it. No parsing step is invented here. The model covers the stores' `int` API.
- The mutexes. Each method holds the lock for its whole call, so each method is modelled as one atomic step. Lock contention is not modelled. Neither is `Execute` blocking the whole task store while the command runs.
- The external command of `Execute` (`echo` with the task's name). `TaskServer.TaskStore.Execute: commandOk` stands for its outcome. Its output and the reason it fails are not modelled.
- The clock. `UserServer.UserStore.Add` takes the creation time as a parameter. `Timestamp` is a count of nanoseconds. Go's `time.Time` also carries a location and a monotonic reading, and these are not modelled.
- Machine integers. `nextID` is a `nat`, and Go's 64-bit `int` overflow after 2^63 additions is not modelled. IDs passed to `Update`, `Delete` and `Execute` are unbounded `int`s. A negative ID is simply absent.
- The order of `GetAll`'s result. Go's map iteration order is unspecified, so the result is specified as a multiset. The slice's preallocated capacity is not modelled.
- Aliasing of records. Go copies records into and out of the map. Dafny datatypes are values, so there is nothing to alias.
