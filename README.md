# nav-json-validator in Dafny

A model of the `navjson` package of nav-json-validator, the checker for the
`nav.json` document that describes the navigation tree of a documentation
site. The package does two things:

- `New(dir, data)` decodes the JSON text and then checks, in this order,
  that `root` is set, that `assetRoot` is set and that `files` is a non-empty
  list. The first check that fails decides the error. On success the
  document remembers `dir` as its base directory.
- `ValidateFiles` walks the `files` tree depth first, left to right, and
  checks that every named entry exists on disk and is not a directory. The first
  failure stops the whole walk. Every call of the recursive helper
  `validateFiles` first stats its own directory. A nameless entry without
  children is skipped. A nameless entry with children nests them under
  `join(dir, path)`. A named entry is looked up at `join(dir, name)`, and its
  children are nested under `join(dir, Dir(name))`. Its `path` is ignored.

Files:

- `filesystem.dfy`, module `FileSystem`: the collaborators. The filesystem
  is a snapshot `map<string, Kind>` with `Kind = Missing | NotDirectory |
  Directory`. Every `os.Stat` error counts as `Missing`; `NotDirectory` is
  any existing path that `IsDir()` rejects (a regular file, a FIFO, a
  device, ...). `path.Join` and
  `path.Dir` are two arbitrary functions passed in as a `PathOps` value, so
  every result holds whatever they compute.
- `navjson.dfy`, module `NavJson`: the datatypes `NavFile` and `NavJSON`,
  `New`, and the walk. `Walk`, `WalkEntries` and `WalkEntry` are the
  specification of `validateFiles`: the function, its `for` loop, and one
  iteration of that loop. Each returns a `Run`, which holds the error
  returned and the paths handed to `os.Stat`, in order. `ValidateFilesIn` is
  the imperative version: a recursive method with the Go code's loop and
  early returns, proved equal to `Walk`.
- `properties.dfy`, module `NavJsonProperties`: the lemmas.

The JSON decoder is an input. A `Decoding` is either `DecodeFailed` or the
decoded exported fields. Malformed JSON and a field of the wrong JSON type,
such as `skipMenuOrdering` given as a string, both arrive as
`DecodeFailed`.

Two consequences of the code worth naming:

- The directory check runs on every call of `validateFiles`, recursive ones
  included (`navjson/navjson.go:70`); see `WalkChecksDirectoryFirst` and
  `NestedDirectoryChecked`.
- A field of the wrong JSON type is one more way `json.Unmarshal` fails
  (`navjson/navjson.go:39-42`), so it arrives as `DecodeFailed` and `New`
  returns `Decode`.

## Model

| member | source | states |
|---|---|---|
| NavJson.New | navjson/navjson.go:32-60 | On success the document has a non-empty `root`, `assetRoot` and `files`, its directory is `dir`, decoding succeeded, and every decoded field is kept unchanged |
| NavJsonProperties.NewFailsIff | navjson/navjson.go:39-57 | `New` fails if and only if decoding fails, `root` is empty, `assetRoot` is empty or `files` is empty; the error does not depend on `dir` |
| NavJsonProperties.NewFirstFailingCheck | navjson/navjson.go:39-57 | The checks run in the order decode, `root`, `assetRoot`, `files`: each error kind is returned exactly when its check fails and every earlier check passed |
| NavJsonProperties.NewRoundTrip | navjson/navjson.go:33-59 | Every document with non-empty `root`, `assetRoot` and `files` is exactly what `New` returns for its own decoded fields and directory |
| NavJson.NavJSON.ValidateFiles | navjson/navjson.go:62-65 | The error is that of the walk of the document's `files` from the document's directory |
| NavJson.ValidateFilesIn | navjson/navjson.go:67-116 | The loop with early returns and recursion returns the same error, after the same stat calls, as the specification `Walk` |
| NavJsonProperties.WalkChecksDirectoryFirst | navjson/navjson.go:69-73 | Every call stats its own directory first; the call returns the directory error after that one stat if and only if the directory is missing |
| NavJsonProperties.NestedDirectoryChecked | navjson/navjson.go:68-111 | The directory check also runs on recursive calls: a grouping node whose `join(dir, path)` is missing, or a named file whose `join(dir, Dir(name))` is missing, fails with the directory error for that nested path before any child is examined |
| NavJsonProperties.PlaceholderIsInert | navjson/navjson.go:79-83 | An entry with no name and no children, anywhere in a list, changes neither the outcome nor the stat calls of the walk |
| NavJsonProperties.GroupingEntry | navjson/navjson.go:85-92 | An entry with no name and some children behaves exactly like the walk of its children under `join(dir, path)`, error included; so it succeeds exactly when that walk does |
| NavJsonProperties.NamedEntry | navjson/navjson.go:95-103 | A named entry stats `join(dir, name)` first; it fails with file-not-found for that path if and only if the path is missing, and with is-directory for that path if and only if the path is a directory; its `path` plays no part |
| NavJsonProperties.NamedEntryWithChildren | navjson/navjson.go:105-112 | A named entry with children whose file check passed succeeds or fails exactly as the walk of its children under `join(dir, Dir(name))` |
| NavJsonProperties.EntriesPassIff | navjson/navjson.go:75-115 | The entry loop succeeds if and only if every entry succeeds |
| NavJsonProperties.EntriesFirstFailure | navjson/navjson.go:75-113 | When the entry loop fails, its error is the error of the first failing entry in left-to-right order |
| NavJsonProperties.WalkPassIff | navjson/navjson.go:68-116 | `validateFiles` succeeds if and only if `dir` exists and every entry succeeds; with no entries it succeeds exactly when `dir` exists |
| NavJsonProperties.WalkFirstFailure | navjson/navjson.go:68-116 | If `dir` exists and `validateFiles` fails, the error is that of the first failing entry in left-to-right order |
| NavJsonProperties.WalkFailureWitnessed | navjson/navjson.go:68-116 | A failing walk stops at the stat that failed: the error's path is the last path stat'ed, and the stat reported it missing (directory or file error) or a directory (is-directory error) |
| NavJsonProperties.EntriesFailureWitnessed | navjson/navjson.go:75-113 | The same for the entry loop |
| NavJsonProperties.EntryFailureWitnessed | navjson/navjson.go:79-112 | The same for one entry |
| NavJsonProperties.WalkPassProbesExist | navjson/navjson.go:68-116 | A successful walk found every path it stat'ed |
| NavJsonProperties.EntriesPassProbesExist | navjson/navjson.go:75-113 | The same for the entry loop |
| NavJsonProperties.EntryPassProbesExist | navjson/navjson.go:79-112 | The same for one entry |
| NavJsonProperties.WalkReadsOnlyProbes | navjson/navjson.go:68-116 | Two filesystems that agree on every path the walk stats give the same walk: the walk depends on the disk only through its stat calls |
| NavJsonProperties.EntriesReadOnlyProbes | navjson/navjson.go:75-113 | The same for the entry loop |
| NavJsonProperties.EntryReadsOnlyProbes | navjson/navjson.go:79-112 | The same for one entry |
| NavJsonProperties.MissingDirectoryExample | navjson/navjson_test.go:118-138 | `New("/nope", ...)` accepts the test's document, and its walk fails with the directory error for `/nope` after a single stat, of `/nope` |
| NavJsonProperties.PlaceholderExample | navjson/navjson_test.go:140-153 | A lone `{ "path": "foo" }` entry passes, and only the directory is stat'ed |
| NavJsonProperties.FileIsDirectoryExample | navjson/navjson_test.go:174-189 | A named entry that resolves to a directory fails with the is-directory error for that path |

## Left out

- `main.go`: flag parsing, reading the file, printing, `panic` and `os.Exit`. This is I/O glue. It also calls `navjson.Parse` and `navjson.EnsureFilesExist`, which the package does not define, so it belongs to an older version of the package.
- JSON decoding (`json.Unmarshal`): its outcome is an input. JSON syntax, type checks and the zero values given to missing keys are not modelled.
- `os.Stat`: replaced by a filesystem snapshot. Error kinds and permissions are not modelled. Any stat error counts as a missing path. The filesystem does not change during a walk.
- `path.Join` and `path.Dir`: their lexical cleaning (collapsing `..`, `Dir("x") == "."`) is not modelled. They are arbitrary functions supplied by the caller.
- The error message texts built by `fmt.Errorf`: errors are datatype values carrying the offending path, or the name of the failed check for `New`.
- `Packages` and `SkipMenuOrdering` are carried through `New` unchanged. Nothing checks them beyond decoding.
