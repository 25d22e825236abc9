/** The live-reloadable configuration store of server/config.go: a parsed
    configuration record loaded and validated once, and reread on most
    accessor calls whenever the backing file looks newer than the time of
    the first load. */
module Config {
  import opened Wrappers

  /** Go's `int` on the 64-bit platforms the server is built for. */
  newtype int64 = x: int | -0x8000_0000_0000_0000 <= x < 0x8000_0000_0000_0000

  // ---------------------------------------------------------------------------
  // The configuration record (one datatype per Go struct)

  datatype AppConfig = AppConfig(buildBuddyUrl: string)

  datatype DatabaseConfig = DatabaseConfig(dataSource: string)

  datatype DiskConfig = DiskConfig(rootDirectory: string)

  datatype GCSConfig = GCSConfig(bucket: string, credentialsFile: string, projectId: string)

  datatype StorageConfig = StorageConfig(
    disk: DiskConfig,
    gcs: GCSConfig,
    ttlSeconds: int64,
    chunkFileSizeBytes: int64)

  datatype SlackConfig = SlackConfig(webhookUrl: string)

  datatype IntegrationsConfig = IntegrationsConfig(slack: SlackConfig)

  datatype GeneralConfig = GeneralConfig(
    app: AppConfig,
    database: DatabaseConfig,
    storage: StorageConfig,
    integrations: IntegrationsConfig)

  // ---------------------------------------------------------------------------
  // The filesystem, abstracted

  /** What reading an existing path yields: a directory and an unreadable file
      both make the read fail; a file's bytes are represented by what the YAML
      decoder makes of them (None when they are malformed). */
  datatype Data = Directory | Unreadable | Contents(decoded: Option<GeneralConfig>)

  /** An existing path. `statOk` is false when stat reports an error other
      than "does not exist"; a path absent from the map does not exist. */
  datatype Entry = Entry(statOk: bool, mtime: int, data: Data)

  type Entries = map<string, Entry>

  /** The error kinds; their message texts are not modelled. */
  datatype ConfigError = NotFound | ReadFailed | ParseFailed | MkdirFailed

  /** A filesystem state together with the error an operation on it reported. */
  datatype FsUpdate = FsUpdate(entries: Entries, err: Option<ConfigError>)

  /** readConfig: "not found" when stat says the file does not exist (no read
      is attempted), then a read error, then a parse error; only a readable
      file that decodes yields its record. Stat errors of other kinds do not
      stop the read. */
  function ReadConfig(entries: Entries, path: string): (r: Result<GeneralConfig, ConfigError>)
    ensures r == Failure(NotFound) <==> path !in entries
    ensures r == Failure(ReadFailed) <==> path in entries && !entries[path].data.Contents?
    ensures r == Failure(ParseFailed) <==> path in entries && entries[path].data == Contents(None)
    ensures r.Success? <==> path in entries && entries[path].data.Contents? && entries[path].data.decoded.Some?
    ensures r.Success? ==> Some(r.value) == entries[path].data.decoded
  {
    if path !in entries then Failure(NotFound)
    else match entries[path].data
      case Directory => Failure(ReadFailed)
      case Unreadable => Failure(ReadFailed)
      case Contents(None) => Failure(ParseFailed)
      case Contents(Some(gc)) => Success(gc)
  }

  /** The outcome of readConfig depends only on whether the path exists and
      on what reading it yields, not on stat errors or modification times. */
  lemma ReadConfigIgnoresStat(entries: Entries, path: string, statOk: bool, mtime: int)
    requires path in entries
    ensures ReadConfig(entries[path := Entry(statOk, mtime, entries[path].data)], path) == ReadConfig(entries, path)
  {
  }

  /** ensureDirectoryExists: MkdirAll runs only when stat says `dir` does not
      exist; an existing path of any kind (even a file, even one stat fails
      on otherwise) is accepted as it is. A created directory gets `now` as
      its modification time. */
  function EnsureDirectoryEffect(entries: Entries, mkdirFails: set<string>, dir: string, now: int): (r: FsUpdate)
    ensures r.err.None? <==> dir in entries || dir !in mkdirFails
    ensures r.err.Some? ==> r.err.value == MkdirFailed && r.entries == entries
    ensures r.err.None? ==> r.entries.Keys == entries.Keys + {dir}
    ensures forall p :: p in entries ==> p in r.entries && r.entries[p] == entries[p]
    ensures r.entries != entries ==> dir !in entries && r.entries[dir].data == Directory
  {
    if dir in entries then FsUpdate(entries, None)
    else if dir in mkdirFails then FsUpdate(entries, Some(MkdirFailed))
    else FsUpdate(entries[dir := Entry(true, now, Directory)], None)
  }

  /** A second ensureDirectoryExists after a successful one is a no-op. */
  lemma EnsureDirectoryIdempotent(entries: Entries, mkdirFails: set<string>, dir: string, now: int, later: int)
    requires EnsureDirectoryEffect(entries, mkdirFails, dir, now).err.None?
    ensures var u := EnsureDirectoryEffect(entries, mkdirFails, dir, now);
      EnsureDirectoryEffect(u.entries, mkdirFails, dir, later) == FsUpdate(u.entries, None)
  {
  }

  /** validateConfig: only a non-empty disk root directory is ensured; an
      empty one leaves the filesystem alone. */
  function ValidateEffect(entries: Entries, mkdirFails: set<string>, c: GeneralConfig, now: int): (r: FsUpdate)
    ensures c.storage.disk.rootDirectory == "" ==> r == FsUpdate(entries, None)
    ensures r.err.Some? ==> r.err.value == MkdirFailed && r.entries == entries
    ensures r.err.None? && c.storage.disk.rootDirectory != "" ==> c.storage.disk.rootDirectory in r.entries
    ensures forall p :: p in entries ==> p in r.entries && r.entries[p] == entries[p]
    ensures c.storage.disk.rootDirectory != "" ==>
      r == EnsureDirectoryEffect(entries, mkdirFails, c.storage.disk.rootDirectory, now)
    ensures r.err.Some? <==>
      c.storage.disk.rootDirectory != "" && c.storage.disk.rootDirectory !in entries && c.storage.disk.rootDirectory in mkdirFails
    ensures r.entries.Keys <= entries.Keys + {c.storage.disk.rootDirectory}
  {
    if c.storage.disk.rootDirectory != "" then EnsureDirectoryEffect(entries, mkdirFails, c.storage.disk.rootDirectory, now)
    else FsUpdate(entries, None)
  }

  /** The filesystem after NewConfigurator, and the record or the error it
      reports. */
  datatype Opened = Opened(entries: Entries, result: Result<GeneralConfig, ConfigError>)

  /** NewConfigurator as a function of the filesystem: read first (nothing is
      validated, and nothing on disk changes, when that fails), then validate;
      on success the record is exactly the one read, and the file still reads
      back as that record after validation. */
  function OpenEffect(entries: Entries, mkdirFails: set<string>, path: string, now: int): (r: Opened)
    ensures ReadConfig(entries, path).Failure? ==> r == Opened(entries, Failure(ReadConfig(entries, path).error))
    ensures r.result.Success? ==> r.result == ReadConfig(entries, path)
    ensures r.result.Success? ==> ReadConfig(r.entries, path) == r.result
    ensures r.result.Failure? && ReadConfig(entries, path).Success? ==> r.result.error == MkdirFailed && r.entries == entries
    ensures forall p :: p in entries ==> p in r.entries && r.entries[p] == entries[p]
    ensures ReadConfig(entries, path).Success? ==>
      var v := ValidateEffect(entries, mkdirFails, ReadConfig(entries, path).value, now);
      && (r.result.Failure? <==> v.err.Some?)
      && (v.err.None? ==> r.entries == v.entries)
  {
    match ReadConfig(entries, path)
    case Failure(e) => Opened(entries, Failure(e))
    case Success(conf) =>
      var v := ValidateEffect(entries, mkdirFails, conf, now);
      if v.err.Some? then Opened(entries, Failure(v.err.value))
      else Opened(v.entries, Success(conf))
  }

  /** Opening a second time, once the root directory exists, changes nothing
      on disk and yields the same record. */
  lemma SecondOpenChangesNothing(entries: Entries, mkdirFails: set<string>, path: string, now: int, later: int)
    requires OpenEffect(entries, mkdirFails, path, now).result.Success?
    ensures var o := OpenEffect(entries, mkdirFails, path, now);
      OpenEffect(o.entries, mkdirFails, path, later) == o
  {
  }

  // ---------------------------------------------------------------------------
  // Rereading

  /** rereadIfStale goes on to reread: stat succeeds and the last read time is
      not strictly after the file's modification time. */
  predicate AttemptsReread(entries: Entries, path: string, lastReadTime: int): (b: bool)
    ensures b <==> path in entries && entries[path].statOk && entries[path].mtime >= lastReadTime
    ensures b ==> ReadConfig(entries, path) != Failure(NotFound)
  {
    path in entries && entries[path].statOk && !(lastReadTime > entries[path].mtime)
  }

  /** The record rereadIfStale leaves behind: the current one, unless a
      reread is attempted and succeeds, in which case it is replaced wholesale
      by the record just read. */
  function Reread(entries: Entries, path: string, lastReadTime: int, current: GeneralConfig): (r: GeneralConfig)
    ensures r == current || (AttemptsReread(entries, path, lastReadTime) && ReadConfig(entries, path) == Success(r))
    ensures AttemptsReread(entries, path, lastReadTime) && ReadConfig(entries, path).Success? ==>
      r == ReadConfig(entries, path).value
  {
    if path !in entries || !entries[path].statOk then current
    else if lastReadTime > entries[path].mtime then current
    else match ReadConfig(entries, path)
      case Failure(_) => current
      case Success(conf) => conf
  }

  /** Right after a successful open, whatever the staleness check decides, a
      live accessor sees exactly the record that was loaded. */
  lemma OpenedRecordSurvivesReread(entries: Entries, mkdirFails: set<string>, path: string, now: int)
    requires OpenEffect(entries, mkdirFails, path, now).result.Success?
    ensures var o := OpenEffect(entries, mkdirFails, path, now);
      Reread(o.entries, path, now, o.result.value) == o.result.value
  {
  }

  /** Because the last read time never moves, a file touched at or after it
      makes every later check attempt a reread as long as its modification
      time does not go back and stat keeps succeeding. */
  lemma TouchedFileStaysStale(entries: Entries, later: Entries, path: string, lastReadTime: int)
    requires AttemptsReread(entries, path, lastReadTime)
    requires path in later && later[path].statOk && later[path].mtime >= entries[path].mtime
    ensures AttemptsReread(later, path, lastReadTime)
  {
  }

  /** Rereading twice against the same filesystem gives the record of the
      first reread. */
  lemma RereadIdempotent(entries: Entries, path: string, lastReadTime: int, current: GeneralConfig)
    ensures var once := Reread(entries, path, lastReadTime, current);
      Reread(entries, path, lastReadTime, once) == once
  {
  }

  /** The record after a series of live accessor calls, the i-th of which
      sees the filesystem `snapshots[i]`. */
  function AfterLiveAccesses(snapshots: seq<Entries>, path: string, lastReadTime: int, gc: GeneralConfig): GeneralConfig
    decreases |snapshots|
  {
    if snapshots == [] then gc
    else AfterLiveAccesses(snapshots[1..], path, lastReadTime, Reread(snapshots[0], path, lastReadTime, gc))
  }

  /** A file that is deleted, made unreadable or malformed, or never touched
      again, leaves the previously loaded record in effect. */
  lemma {:induction false} FailedRereadsKeepRecord(snapshots: seq<Entries>, path: string, lastReadTime: int, gc: GeneralConfig)
    requires forall i :: 0 <= i < |snapshots| ==>
      !AttemptsReread(snapshots[i], path, lastReadTime) || ReadConfig(snapshots[i], path).Failure?
    ensures AfterLiveAccesses(snapshots, path, lastReadTime, gc) == gc
    decreases |snapshots|
  {
    if snapshots != [] {
      assert Reread(snapshots[0], path, lastReadTime, gc) == gc;
      FailedRereadsKeepRecord(snapshots[1..], path, lastReadTime, gc);
    }
  }

  /** After a live access that finds the file stale and readable, the store
      holds exactly what the file says, whatever it held before. */
  lemma {:induction false} LatestRereadWins(snapshots: seq<Entries>, path: string, lastReadTime: int, gc: GeneralConfig)
    requires snapshots != []
    requires AttemptsReread(snapshots[|snapshots| - 1], path, lastReadTime)
    requires ReadConfig(snapshots[|snapshots| - 1], path).Success?
    ensures AfterLiveAccesses(snapshots, path, lastReadTime, gc) == ReadConfig(snapshots[|snapshots| - 1], path).value
    decreases |snapshots|
  {
    if |snapshots| > 1 {
      LatestRereadWins(snapshots[1..], path, lastReadTime, Reread(snapshots[0], path, lastReadTime, gc));
    }
  }

  /** Stat keeps succeeding on the file over the series of accesses, and its
      modification time never goes back. */
  ghost predicate MtimeNeverGoesBack(snapshots: seq<Entries>, path: string) {
    forall i, j :: 0 <= i < j < |snapshots| && j == i + 1 ==>
      && path in snapshots[j] && snapshots[j][path].statOk
      && path in snapshots[i] && snapshots[j][path].mtime >= snapshots[i][path].mtime
  }

  lemma {:induction false} StaleAlongSeries(snapshots: seq<Entries>, path: string, lastReadTime: int, k: nat)
    requires k < |snapshots|
    requires AttemptsReread(snapshots[0], path, lastReadTime)
    requires MtimeNeverGoesBack(snapshots, path)
    ensures AttemptsReread(snapshots[k], path, lastReadTime)
  {
    if k > 0 {
      StaleAlongSeries(snapshots, path, lastReadTime, k - 1);
      TouchedFileStaysStale(snapshots[k - 1], snapshots[k], path, lastReadTime);
    }
  }

  /** The consequence of never moving the last read time: once an access
      finds the file touched, every later access that can read the file
      rereads it, so the store then holds exactly that access's record. */
  lemma EveryLaterAccessRereads(snapshots: seq<Entries>, path: string, lastReadTime: int, gc: GeneralConfig, k: nat)
    requires 0 < k <= |snapshots|
    requires AttemptsReread(snapshots[0], path, lastReadTime)
    requires MtimeNeverGoesBack(snapshots, path)
    requires ReadConfig(snapshots[k - 1], path).Success?
    ensures AfterLiveAccesses(snapshots[..k], path, lastReadTime, gc) == ReadConfig(snapshots[k - 1], path).value
  {
    StaleAlongSeries(snapshots, path, lastReadTime, k - 1);
    assert snapshots[..k][k - 1] == snapshots[k - 1];
    LatestRereadWins(snapshots[..k], path, lastReadTime, gc);
  }

  // ---------------------------------------------------------------------------
  // The stateful parts

  /** The process's filesystem. `mkdirFails` is the set of paths MkdirAll
      reports an error for. */
  class FileSystem {
    var entries: Entries
    const mkdirFails: set<string>

    constructor (entries: Entries, mkdirFails: set<string>)
      ensures this.entries == entries && this.mkdirFails == mkdirFails
    {
      this.entries := entries;
      this.mkdirFails := mkdirFails;
    }

    method EnsureDirectoryExists(dir: string, now: int) returns (err: Option<ConfigError>)
      modifies this`entries
      ensures FsUpdate(entries, err) == EnsureDirectoryEffect(old(entries), mkdirFails, dir, now)
    {
      err := None;
      if dir !in entries {
        if dir in mkdirFails {
          err := Some(MkdirFailed);
        } else {
          entries := entries[dir := Entry(true, now, Directory)];
        }
      }
    }

    method ValidateConfig(c: GeneralConfig, now: int) returns (err: Option<ConfigError>)
      modifies this`entries
      ensures FsUpdate(entries, err) == ValidateEffect(old(entries), mkdirFails, c, now)
    {
      err := None;
      if c.storage.disk.rootDirectory != "" {
        err := EnsureDirectoryExists(c.storage.disk.rootDirectory, now);
      }
    }
  }

  class Configurator {
    var fullConfigPath: string
    var lastReadTime: int
    var gc: GeneralConfig

    constructor (fullConfigPath: string, lastReadTime: int, gc: GeneralConfig)
      ensures this.fullConfigPath == fullConfigPath
      ensures this.lastReadTime == lastReadTime
      ensures this.gc == gc
    {
      this.fullConfigPath := fullConfigPath;
      this.lastReadTime := lastReadTime;
      this.gc := gc;
    }

    /** rereadIfStale: assigns only the record, never the last read time or
      the path, and never validates directories. */
    method RereadIfStale(fs: FileSystem)
      modifies this`gc
      ensures gc == Reread(fs.entries, fullConfigPath, lastReadTime, old(gc))
      ensures lastReadTime == old(lastReadTime) && fullConfigPath == old(fullConfigPath)
    {
      if fullConfigPath !in fs.entries || !fs.entries[fullConfigPath].statOk {
        return;
      }
      var stat := fs.entries[fullConfigPath];
      if lastReadTime > stat.mtime {
        return;
      }
      var conf := ReadConfig(fs.entries, fullConfigPath);
      if conf.Failure? {
        return;
      }
      gc := conf.value;
    }

    /** Read without a staleness check. */
    method GetStorageTtlSeconds() returns (ttl: int64)
      ensures ttl == gc.storage.ttlSeconds
    {
      ttl := gc.storage.ttlSeconds;
    }

    /** Read without a staleness check. */
    method GetStorageChunkFileSizeBytes() returns (size: int64)
      ensures size == gc.storage.chunkFileSizeBytes
    {
      size := gc.storage.chunkFileSizeBytes;
    }

    method GetStorageDiskRootDir(fs: FileSystem) returns (dir: string)
      modifies this`gc
      ensures gc == Reread(fs.entries, fullConfigPath, lastReadTime, old(gc))
      ensures dir == gc.storage.disk.rootDirectory
    {
      RereadIfStale(fs);
      dir := gc.storage.disk.rootDirectory;
    }

    method GetStorageGCSConfig(fs: FileSystem) returns (gcs: GCSConfig)
      modifies this`gc
      ensures gc == Reread(fs.entries, fullConfigPath, lastReadTime, old(gc))
      ensures gcs == gc.storage.gcs
    {
      RereadIfStale(fs);
      gcs := gc.storage.gcs;
    }

    method GetDBDataSource(fs: FileSystem) returns (dataSource: string)
      modifies this`gc
      ensures gc == Reread(fs.entries, fullConfigPath, lastReadTime, old(gc))
      ensures dataSource == gc.database.dataSource
    {
      RereadIfStale(fs);
      dataSource := gc.database.dataSource;
    }

    method GetAppBuildBuddyURL(fs: FileSystem) returns (url: string)
      modifies this`gc
      ensures gc == Reread(fs.entries, fullConfigPath, lastReadTime, old(gc))
      ensures url == gc.app.buildBuddyUrl
    {
      RereadIfStale(fs);
      url := gc.app.buildBuddyUrl;
    }

    method GetIntegrationsSlackConfig(fs: FileSystem) returns (slack: SlackConfig)
      modifies this`gc
      ensures gc == Reread(fs.entries, fullConfigPath, lastReadTime, old(gc))
      ensures slack == gc.integrations.slack
    {
      RereadIfStale(fs);
      slack := gc.integrations.slack;
    }
  }

  /** NewConfigurator: no store on a read or validation error; otherwise a new
      store holding the path, `now` as its last read time and exactly the
      record read. */
  method NewConfigurator(fs: FileSystem, configFilePath: string, now: int)
    returns (r: Result<Configurator, ConfigError>)
    modifies fs`entries
    ensures fs.entries == OpenEffect(old(fs.entries), fs.mkdirFails, configFilePath, now).entries
    ensures r.Success? == OpenEffect(old(fs.entries), fs.mkdirFails, configFilePath, now).result.Success?
    ensures r.Failure? ==> r.error == OpenEffect(old(fs.entries), fs.mkdirFails, configFilePath, now).result.error
    ensures r.Success? ==> fresh(r.value)
    ensures r.Success? ==> r.value.fullConfigPath == configFilePath && r.value.lastReadTime == now
    ensures r.Success? ==> r.value.gc == OpenEffect(old(fs.entries), fs.mkdirFails, configFilePath, now).result.value
  {
    var conf := ReadConfig(fs.entries, configFilePath);
    if conf.Failure? {
      return Failure(conf.error);
    }
    var err := fs.ValidateConfig(conf.value, now);
    if err.Some? {
      return Failure(err.value);
    }
    var c := new Configurator(configFilePath, now, conf.value);
    return Success(c);
  }
}
