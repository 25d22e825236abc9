# BuildBuddy server configuration store and static root-path rewrite, in Dafny

This project models the two decision-making parts of the BuildBuddy server.

- **The configurator** (`server/config.go`). `NewConfigurator` loads a YAML configuration file, validates it and keeps the parsed record together with the file's path and the load time. Five of its seven accessors first run the staleness check `rereadIfStale`. That check rereads the file when stat succeeds and the last read time is not strictly after the file's modification time. A failed reread keeps the old record. The TTL and chunk-size accessors skip the check.
- **The static file server** (`server/static.go`). It serves files from a directory of the runfiles. When root paths are configured, the file server is wrapped by `handleRootPaths`. That wrapper loops over the root paths and overwrites the request path with `"/"` whenever the current path starts with one of them. It then calls the file server once.

Files:

- `wrappers.dfy`: module `Wrappers`, the `Option` and `Result` types.
- `config.dfy`: module `Config`. It holds the configuration record (one datatype per Go struct) and an abstract filesystem: a map from path to `Entry(statOk, mtime, data)`, where a missing key means "does not exist". It has pure functions for `readConfig`, `ensureDirectoryExists`, `validateConfig`, `NewConfigurator` and `rereadIfStale`. The classes `FileSystem` and `Configurator` carry the methods that change state, and each of those methods is proved against the matching function.
- `static.dfy`: module `Static`. `RewriteLoop` is the rewrite loop as written: each root path is checked against the path the previous iterations left. `RootRewrite` is the same rewrite in closed form: `"/"` when any root path is a prefix of the original path. The lemmas relate the two. The handler chain is a datatype, and `CallLog` records the calls that reach the file-serving primitive.

The inputs that come from outside the program are parameters. The filesystem is a `FileSystem` object. The current time is an integer `now`. `bazel.RunfilesPath()` is an `Option<string>`. The YAML decoder's verdict on the bytes of a file is stored in the file's entry as `Contents(decoded)`, where `None` means the bytes are malformed.

Three behaviours of the code that the model keeps as written:

- `rereadIfStale` assigns only `gc`. It never updates `lastReadTime`, even after a successful reread (server/config.go:129). So once the file is touched at or after the first load, every later live access that can read the file rereads it (`TouchedFileStaysStale`, `EveryLaterAccessRereads`).
- A failed directory creation during validation returns `MkdirAll`'s own error, modelled as `MkdirFailed`. There is no separate validation error kind (server/config.go:58, 85-86).
- Only a stat answer of "does not exist" makes `readConfig` report "not found". Any other stat error falls through to the read (server/config.go:64-71).

## Model

| member | source | states |
|---|---|---|
| `Config.ReadConfig` | server/config.go:63-81 | "not found" exactly when the file does not exist; a read error exactly when the path is a directory or unreadable; a parse error exactly when the contents are malformed; success only for a readable, well-formed file, and then the record is what the file decodes to |
| `Config.ReadConfigIgnoresStat` | server/config.go:63-74 | readConfig's result does not depend on stat errors other than "not found", nor on the modification time |
| `Config.EnsureDirectoryEffect` | server/config.go:55-61 | a directory is created only if the path is missing; an existing path of any kind is accepted unchanged; it fails only when the path is missing and MkdirAll fails, and then nothing changes; existing entries are never altered |
| `Config.EnsureDirectoryIdempotent` | server/config.go:55-61 | after a successful ensureDirectoryExists, a second call is a no-op without error |
| `Config.ValidateEffect` | server/config.go:83-90 | the filesystem is touched only when the disk root directory is non-empty, and then the outcome is exactly ensureDirectoryExists's; it fails exactly when that directory is missing and MkdirAll fails, and then the filesystem is unchanged and the error is MkdirFailed; on success that directory exists; nothing but that directory is ever added, and existing entries are never altered |
| `Config.OpenEffect` | server/config.go:98-111 | a read failure is returned as it is, before any validation and with no filesystem change; after a good read the open fails exactly when validation fails, with a directory-creation error and no filesystem change, and otherwise succeeds on the validated filesystem; on success the record is exactly the one read, and the file still reads back as that record |
| `Config.SecondOpenChangesNothing` | server/config.go:98-111 | opening again after a successful open changes nothing on disk and yields the same record |
| `Config.OpenedRecordSurvivesReread` | server/config.go:98-130 | right after a successful open, a staleness check on the unchanged filesystem leaves exactly the loaded record, whether or not it rereads |
| `Config.AttemptsReread` | server/config.go:115-123 | a reread is attempted exactly when stat succeeds and the modification time is at or after the last read time (the negation of `lastReadTime.After(mtime)`); an attempted reread never reports "not found"; Reread and the lemmas below state what the attempt does |
| `Config.Reread` | server/config.go:114-130 | the record is kept, or replaced wholesale by the freshly read one only when stat succeeds, the last read time is not after the modification time, and the reread succeeds; in that case it is always replaced |
| `Config.TouchedFileStaysStale` | server/config.go:120-123 | because the last read time is fixed, a file found stale stays stale for every later check while stat succeeds and its modification time does not go back |
| `Config.EveryLaterAccessRereads` | server/config.go:114-130 | because the last read time never moves, after an access that finds the file touched, every later access whose file reads successfully leaves exactly that access's record, as long as stat keeps succeeding and the modification time does not go back |
| `Config.RereadIdempotent` | server/config.go:114-130 | a second reread against the same filesystem keeps the record of the first |
| `Config.FailedRereadsKeepRecord` | server/config.go:114-130 | over any series of live accesses where no reread is attempted or every reread fails, the previously loaded record stays in effect |
| `Config.LatestRereadWins` | server/config.go:114-130 | after a live access that finds the file stale and readable, the store holds exactly the file's record, whatever it held before |
| `Config.FileSystem.EnsureDirectoryExists` | server/config.go:55-61 | the new filesystem and the error are those of EnsureDirectoryEffect |
| `Config.FileSystem.ValidateConfig` | server/config.go:83-90 | the new filesystem and the error are those of ValidateEffect |
| `Config.Configurator.constructor` | server/config.go:107-111 | the new store holds the given path, last read time and record |
| `Config.Configurator.RereadIfStale` | server/config.go:114-130 | only the record may change, and it becomes Reread of the old one; the last read time and the path are unchanged; the filesystem is not modified (no directory validation) |
| `Config.Configurator.GetStorageTtlSeconds` | server/config.go:132-134 | returns the TTL of the current record and changes nothing |
| `Config.Configurator.GetStorageChunkFileSizeBytes` | server/config.go:136-138 | returns the chunk size of the current record and changes nothing |
| `Config.Configurator.GetStorageDiskRootDir` | server/config.go:140-143 | runs the staleness check, then returns the disk root directory of the possibly replaced record |
| `Config.Configurator.GetStorageGCSConfig` | server/config.go:145-148 | runs the staleness check, then returns the GCS settings of the possibly replaced record |
| `Config.Configurator.GetDBDataSource` | server/config.go:150-153 | runs the staleness check, then returns the database data source of the possibly replaced record |
| `Config.Configurator.GetAppBuildBuddyURL` | server/config.go:155-158 | runs the staleness check, then returns the application URL of the possibly replaced record |
| `Config.Configurator.GetIntegrationsSlackConfig` | server/config.go:160-163 | runs the staleness check, then returns the Slack settings of the possibly replaced record |
| `Config.NewConfigurator` | server/config.go:98-111 | no store on a read or validation error, and the error is that of OpenEffect; otherwise a fresh store with the given path, `now` as last read time and exactly the record read; the filesystem ends as OpenEffect says |
| `Static.RewriteStep` | server/static.go:44-46 | one iteration yields "/" or the current path; it changes the path only when the root path is a prefix of it; a result that still starts with the root path is "/" |
| `Static.RewriteLoop` | server/static.go:43-47 | the loop as written, testing the current path in order; it only ever yields "/" or the original path; the closed form and the other properties are in the lemmas below, LoopMatchesClosedForm first |
| `Static.LoopMatchesClosedForm` | server/static.go:43-47 | the loop, which tests the current path, yields "/" if some root path is a prefix of the original path and the original path otherwise |
| `Static.RewriteIsRootIff` | server/static.go:43-47 | the rewritten path is "/" if and only if some root path matches the original path or the original path was already "/" |
| `Static.UnmatchedPathUnchanged` | server/static.go:43-47 | a path that no root path matches is left exactly as it was |
| `Static.LoopConcat` | server/static.go:43-47 | running the loop over two lists one after the other is running it over their concatenation |
| `Static.RootStaysRoot` | server/static.go:43-47 | once an iteration has rewritten the path to "/", the later iterations keep it "/" |
| `Static.OrderIndependent` | server/static.go:43-47 | two root-path lists with the same elements give the same rewrite |
| `Static.RewriteIdempotent` | server/static.go:43-47 | rewriting an already rewritten path yields the same path |
| `Static.EmptyRootPathMatchesAll` | server/static.go:44 | an empty root path sends every request to "/" |
| `Static.ServeRootPaths` | server/static.go:41-51 | the request path becomes the closed-form rewrite of the original path, and the inner handler is invoked exactly once, with that path |
| `Static.Dispatch` | server/static.go:37-51 | the call one request makes on the file server through the handler chain; the path it passes on is the original path or "/"; WrapHandler states what this is for the chain the server builds |
| `Static.Serve` | server/static.go:37-51 | a request through the handler chain reaches the file server exactly once, with the path the chain makes of the original one |
| `Static.WrapHandler` | server/static.go:26-30 | the rewriter is installed exactly when the root-path list is non-empty; either way the file server of the joined directory sees the as-written rewrite of the request path |
| `Static.NoRootPathsIsIdentity` | server/static.go:28-30 | with no root paths, the bare file server behaves like a wrapper with nothing to match, and the request path is passed on unchanged |
| `Static.StaticFileServer.ServeHTTP` | server/static.go:37-39 | delegates to the handler chosen at construction: one file-server call with the dispatched path |
| `Static.NewStaticFileServer` | server/static.go:19-34 | a runfiles error is returned as it is; otherwise a fresh server whose handler is the file server of the joined directory, wrapped exactly when there are root paths |

## Left out

- YAML decoding (`yaml.Unmarshal`) is not modelled. A file's entry holds the decoder's verdict directly, so the serialized field names (`build_buddy_url`, `ttl_seconds`, ...) are not part of the model.
- `ttl_seconds` and `chunk_file_size_bytes` are Go `int`, which is 64 bits on the server's platforms. The model uses the newtype `int64` for them. It does not say how the decoder treats values out of range.
- The filesystem is a map. `os.Stat`, `ioutil.ReadFile` and `os.MkdirAll` are lookups and updates on it. `MkdirAll` failures are abstracted as a fixed set of paths it fails on. Parent directories and permission bits (`0755`) are not modelled, and a created directory records `now` as its modification time.
- The stat and the read inside `readConfig` see the same filesystem state. A file that changes between the two calls is not modelled.
- `time.Now()` and the clock's granularity are not modelled. The time is an integer parameter `now`, and `time.Time.After` is integer `>`.
- Logging (`log.Printf`) and the error message texts (`fmt.Errorf`) are not modelled. Errors are the kinds `NotFound`, `ReadFailed`, `ParseFailed` and `MkdirFailed`.
- The model has no concurrent readers and no atomic swap of the record, because the code has no locking.
- `GetStorageGCSConfig` and `GetIntegrationsSlackConfig` return the address of a field of the current record. The model returns the values, so aliasing is not modelled.
- `bazel.RunfilesPath` is a parameter, and `filepath.Join` is the uninterpreted pair `StaticDir(runfiles, relPath)`. What `http.FileServer` sends back (file contents, directory listings, 404) is not modelled. `CallLog` records only which directory and path it was called with.
- The `http.ResponseWriter` is not modelled. `Request` holds only the URL path.
- `HasPrefix` compares characters. Go's `strings.HasPrefix` compares bytes. The two differ only for a prefix that ends inside a multi-byte UTF-8 character.
