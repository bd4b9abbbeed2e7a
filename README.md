# Note store of a server-rendered note-taking application

The application keeps every note in one process-wide table, `noteStore`, keyed by
strings. A counter, `id`, supplies those keys. Saving a note bumps the counter and
stores the note under the decimal form of the new value. Editing looks a note up.
Updating replaces its title and description but keeps its creation time. Deleting
removes it. An absent key gives a 404.

This project models that store in Dafny, in four modules:

- `Decimal` (decimal.dfy): `strconv.Itoa` for the counter's range. It proves that
  reading the string back gives the number, so distinct counter values give
  distinct keys. It also proves that Itoa produces exactly the canonical digit
  strings.
- `Notes` (notes.dfy): the store as a value (`Store(notes, id)`). It has one
  transition function per handler, and the invariant that every stored key is
  `Itoa(n)` for some `1 <= n <= id`. The lemmas prove that each transition keeps
  the invariant, that a save never overwrites, and that the table never holds
  more notes than the counter. They also cover runs of requests: keys are issued
  as consecutive decimal strings, are never reused (even after a delete), and
  after N saves the table holds exactly N more entries, under the keys returned.
- `NoteServer` (store.dfy): the class `NoteStore` with the two fields the
  handlers update in place. Its methods do what the handlers do. `Update` deletes
  and then re-inserts, as the source does. `Create`, `Update` and `Delete` are
  proved to produce the state given by the `Notes` transition of the same name;
  `Get` is proved against `Notes.Edit`; `List` returns the table unchanged.
- `Templates` (templates.dfy): the template-name lookup in `renderTemplate`, and
  the list page's lookup of a name that was never registered (see Findings).

The clock (`time.Now()`) is a parameter of `Create`. A creation time is a value of
an abstract type `Time`, which the store only copies. The edit handler returns
the note paired with its key (`EditNote`, main.go:79), and the model does the
same (`Notes.EditView`). The update handler deletes the entry and inserts a new
one (main.go:98-99). `NoteStore.Update` does the same, and its contract shows
that the net effect is one assignment.

The method `NoteServer.SampleSession` is a client of the class: two saves get
keys "1" and "2", deleting "1" leaves only the second note, and the next save
gets "3".

## Model

| member | source | states |
|---|---|---|
| `Decimal.Itoa` | main.go:68 | the key is a non-empty digit string with no leading zero, and it is "0" exactly for zero |
| `Decimal.ValueOfItoa` | main.go:68 | reading a key back as a decimal number gives the counter value it was made from |
| `Decimal.ItoaInjective` | main.go:66-69 | two counter values that give the same key are equal, so a new counter value never collides with an old key |
| `Decimal.ItoaOfValue` | main.go:68 | every canonical digit string is the key of its own value |
| `Decimal.ItoaRange` | main.go:68 | a string is a possible key exactly when it is canonical |
| `Notes.Empty` | main.go:24-25 | at start-up the table is empty and the counter is zero |
| `Notes.Create` | main.go:63-69 | the counter rises by exactly one; the key is the decimal form of the new value; the note stored there has the given title, description (no validation, empty accepted) and time; the key set grows by that key only; every other entry is unchanged |
| `Notes.Edit` | main.go:78-83 | lookup finds something exactly when the key is present, and then returns the stored note paired with its key |
| `Notes.Update` | main.go:92-102 | answers Ok exactly when the key is present; then the title and description are replaced and `CreateOn` is kept; key set, counter and all other entries are unchanged; an absent key leaves the whole store unchanged |
| `Notes.Delete` | main.go:110-114 | answers Ok exactly when the key is present; the key set loses exactly that key; remaining entries and the counter are unchanged; an absent key leaves the store unchanged |
| `Notes.CreateIsFresh` | main.go:66-69 | in a valid store the key the next save uses is not yet present, so a save never overwrites |
| `Notes.CreateKeepsValid` | main.go:66-69 | a save keeps every key issued and adds exactly one entry |
| `Notes.UpdateKeepsValid` | main.go:98-99 | an update keeps every key issued and the table size unchanged |
| `Notes.DeleteKeepsValid` | main.go:110-111 | a delete keeps every key issued and shrinks the table by one exactly when the key was present |
| `Notes.StoredKeysAreCanonical` | main.go:68-69 | every stored key is canonical and not "0", so a path such as "01" never finds a note |
| `Notes.IssuedKeysBound` | main.go:66-69 | a set of keys all issued by a counter at `id` has at most `id` members |
| `Notes.SizeBound` | main.go:24-25 | the table never holds more notes than the counter's value |
| `Notes.Handle` | main.go:125-128 | a save issues exactly one key, the decimal form of the next counter value; other requests issue none and leave the counter alone |
| `Notes.Run` | main.go:123-128 | across a sequence of requests exactly one key is issued per save, the counter rises by the number of keys issued, and the i-th key issued is the decimal form of the start value plus i plus one |
| `Notes.HandleKeepsValid` | main.go:60-117 | every handler keeps all stored keys issued |
| `Notes.RunKeepsValid` | main.go:123-128 | any sequence of requests keeps all stored keys issued |
| `Notes.KeysDistinct` | main.go:66-69 | two keys issued at different points of a run differ, deletes notwithstanding |
| `Notes.KeysFresh` | main.go:66-69 | no key issued along a run was present in the valid store the run began from |
| `Notes.SavesOnly` | main.go:60-71 | after N saves, N keys have been returned; the table holds exactly the old keys plus those; its size has grown by exactly N |
| `NoteServer.NoteStore.constructor` | main.go:24-25 | a new store is empty with the counter at zero, and satisfies the key invariant |
| `NoteServer.NoteStore.Create` | main.go:60-71 | increments `id` in place, inserts the note under `Itoa(id)`, which was absent before, and keeps the invariant; the new state is `Notes.Create` of the old |
| `NoteServer.NoteStore.Get` | main.go:73-86 | read-only; returns the stored note with its key exactly when the key is present, as `Notes.Edit` |
| `NoteServer.NoteStore.List` | main.go:52-54 | hands out the whole table: same keys, and each entry is what a lookup of that key finds |
| `NoteServer.NoteStore.Update` | main.go:88-105 | the delete-then-reinsert has the net effect of one assignment that keeps `CreateOn`; on an absent key, store and counter are unchanged; the new state is `Notes.Update` of the old |
| `NoteServer.NoteStore.Delete` | main.go:107-117 | removes exactly that key; the counter and all other entries are unchanged; an absent key changes nothing; the new state is `Notes.Delete` of the old |
| `Templates.RenderTemplate` | main.go:39-44 | a page is rendered exactly when its name is registered, otherwise the missing-template error results |
| `Templates.ListPageAsWritten` | main.go:52-54 | with the name the list handler uses, the lookup always fails |
| `Templates.ListPage` | main.go:34 | with the registered name "index", the list page is found |
| `Templates.AddPageFound` | main.go:57 | the add page asks for a registered name and is found |
| `Templates.EditPageFound` | main.go:84 | the edit page asks for a registered name and is found |

## Findings

| source | as written | input that shows it | evidently intended | confidence | as-written member | corrected member |
|---|---|---|---|---|---|---|
| main.go:53 | `getNotes` renders template "Index", but `init` registers "index" (main.go:34); map lookup is case-sensitive | any GET / request, whatever the store holds | the list page looks up "index" and renders the notes | high; not executed | `Templates.ListPageAsWritten` | `Templates.ListPage` |

## Left out

- HTTP plumbing is left out: routing through gorilla/mux, server start-up, the port and the start-up message (main.go:119-137). So is static file serving (main.go:121-122).
- Responses are not modelled: the 302 redirects and the `http.Error` replies become the `Outcome`/`Option` results. The 500 for a missing template is `Templates.Render.TemplateMissing`.
- Form parsing (`ParseForm`, `PostFormValue`) and route variables (`mux.Vars`) are left out. Title, description and key are arguments.
- Template parsing in `init` is left out, as is `ExecuteTemplate` and its errors (main.go:29-37, 46-49). They are file I/O and library code. Only the name lookup is modelled.
- `time.Now()` is left out: it is an external clock and becomes the `now` argument.
- Concurrency is left out. The handlers share the map and counter with no lock, and net/http runs them concurrently. The model is sequential: one request at a time.
- NoteServer.NoteStore.Create: the counter is an unbounded `nat`. Go's `int` (32 or 64 bits, depending on the platform) would wrap to a negative value after 2^31-1 or 2^63-1 saves, and `Itoa` would then give a "-" key. The model does not capture that wrap-around.
- NoteServer.NoteStore.Create: returns the new key, which the handler does not; the handler redirects instead.
- Decimal.Itoa: covers non-negative values only, since the counter never goes below zero.
