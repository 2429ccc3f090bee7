/**
 * Sync configuration, sync state, backup metadata and workspace descriptions
 * (src/domain/sync.rs). Every builder takes a value and returns an updated copy.
 */
module SyncDomain {
  import opened Base
  import opened Text

  datatype SyncConfig = SyncConfig(intervalSecs: U64, enabled: bool)

  datatype StorageConfig = StorageConfig(maxSizeGb: U64, backupRetentionDays: U32, compression: bool)

  datatype PathConfig = PathConfig(dataDir: Option<string>)

  datatype AppConfig = AppConfig(sync: SyncConfig, storage: StorageConfig, paths: PathConfig)

  const DEFAULT_INTERVAL_SECS: U64 := 120
  const DEFAULT_MAX_SIZE_GB: U64 := 10
  const DEFAULT_RETENTION_DAYS: U32 := 30

  const DEFAULT_CONFIG := AppConfig(
    SyncConfig(DEFAULT_INTERVAL_SECS, true),
    StorageConfig(DEFAULT_MAX_SIZE_GB, DEFAULT_RETENTION_DAYS, true),
    PathConfig(None))

  const GIB := 1024 * 1024 * 1024

  /**
   * `AppConfig::max_storage_bytes`: the size limit in bytes, computed in `u64` arithmetic,
   * which wraps around (in a release build) for limits of 2^34 GiB and more.
   */
  function MaxStorageBytes(c: AppConfig): (r: U64)
    ensures c.storage.maxSizeGb < 0x4_0000_0000 ==> r == c.storage.maxSizeGb * GIB
    ensures c.storage.maxSizeGb >= 0x4_0000_0000 ==> r < c.storage.maxSizeGb * GIB
  {
    (c.storage.maxSizeGb * GIB) % U64_LIMIT
  }

  /** The defaults: every 120 s, enabled, 10 GiB, 30 days, compressed, default data directory. */
  lemma DefaultConfigValues()
    ensures DEFAULT_CONFIG.sync.intervalSecs == 120 && DEFAULT_CONFIG.sync.enabled
    ensures DEFAULT_CONFIG.storage.maxSizeGb == 10 && DEFAULT_CONFIG.storage.backupRetentionDays == 30
    ensures DEFAULT_CONFIG.storage.compression && DEFAULT_CONFIG.paths.dataDir.None?
    ensures MaxStorageBytes(DEFAULT_CONFIG) == 10_737_418_240
  {
  }

  /** The persisted synchronisation status. `lastSync` is in milliseconds since the epoch. */
  datatype SyncState = SyncState(
    lastSync: Option<int>,
    lastHash: Option<string>,
    conversationCount: nat,
    messageCount: nat,
    storageBytes: U64,
    isSyncing: bool,
    lastError: Option<string>)

  /** `SyncState::default()`: never synced, nothing counted, idle, no error. */
  const DEFAULT_SYNC_STATE := SyncState(None, None, 0, 0, 0, false, None)

  /** `with_sync_time`, with the current time as a parameter: only `lastSync` changes. */
  function WithSyncTime(s: SyncState, now: int): (r: SyncState)
    ensures r.lastSync == Some(now) && r.(lastSync := s.lastSync) == s
  {
    s.(lastSync := Some(now))
  }

  /** `syncing`: only the in-progress flag changes, to set. */
  function Syncing(s: SyncState): (r: SyncState)
    ensures r.isSyncing && r.(isSyncing := s.isSyncing) == s
  {
    s.(isSyncing := true)
  }

  /** `completed`: only the in-progress flag changes, to clear. */
  function Completed(s: SyncState): (r: SyncState)
    ensures !r.isSyncing && r.(isSyncing := s.isSyncing) == s
  {
    s.(isSyncing := false)
  }

  /** `with_error`: records the message and clears the in-progress flag, nothing else. */
  function WithError(s: SyncState, e: string): (r: SyncState)
    ensures r.lastError == Some(e) && !r.isSyncing
    ensures r.(lastError := s.lastError, isSyncing := s.isSyncing) == s
  {
    s.(lastError := Some(e), isSyncing := false)
  }

  /** `clear_error`: only the error changes, to none. */
  function ClearError(s: SyncState): (r: SyncState)
    ensures r.lastError.None? && r.(lastError := s.lastError) == s
  {
    s.(lastError := None)
  }

  /**
   * How the builders combine: marking twice is marking once, completing undoes marking on an
   * idle state, an error ends a sync as completing does, and clearing it gives back the
   * completed state when there was no error.
   */
  lemma TransitionLaws(s: SyncState, e: string, now: int)
    ensures Syncing(Syncing(s)) == Syncing(s)
    ensures !s.isSyncing ==> Completed(Syncing(s)) == s
    ensures WithError(Syncing(s), e).isSyncing == Completed(Syncing(s)).isSyncing
    ensures s.lastError.None? ==> ClearError(WithError(s, e)) == Completed(s)
    ensures WithSyncTime(Syncing(s), now) == Syncing(WithSyncTime(s, now))
  {
  }

  /** The builder chain of a completed sync leaves an idle state with its time recorded. */
  lemma CompletedSyncChain(now: int)
    ensures var s := Completed(WithSyncTime(Syncing(DEFAULT_SYNC_STATE), now));
      !s.isSyncing && s.lastSync == Some(now) && s.lastError.None?
      && s.conversationCount == 0 && s.messageCount == 0
  {
  }

  const DAY_MILLIS := 86_400_000

  /** `TimeDelta::num_days`: whole days, truncated towards zero. */
  function NumDays(ms: int): int {
    if ms >= 0 then ms / DAY_MILLIS else -((-ms) / DAY_MILLIS)
  }

  datatype BackupMetadata = BackupMetadata(
    id: string,
    createdAt: int,
    sizeBytes: U64,
    conversationCount: nat,
    contentHash: string,
    isCompressed: bool,
    filePath: string)

  /** `BackupMetadata::is_expired`, with the current time as a parameter. */
  function IsExpired(b: BackupMetadata, retentionDays: U32, now: int): bool {
    NumDays(now - b.createdAt) > retentionDays
  }

  /**
   * A backup is expired exactly when it is at least `retentionDays + 1` whole days old; in
   * particular a backup made now, or in the future, is not expired.
   */
  lemma IsExpiredIff(b: BackupMetadata, retentionDays: U32, now: int)
    ensures IsExpired(b, retentionDays, now) <==> now - b.createdAt >= (retentionDays + 1) * DAY_MILLIS
    ensures now <= b.createdAt ==> !IsExpired(b, retentionDays, now)
  {
    var age := now - b.createdAt;
    if age >= 0 {
      var d := age / DAY_MILLIS;
      assert d * DAY_MILLIS <= age < (d + 1) * DAY_MILLIS;
      if d > retentionDays {
        assert (retentionDays + 1) * DAY_MILLIS <= d * DAY_MILLIS;
      }
      if age >= (retentionDays + 1) * DAY_MILLIS {
        assert d >= retentionDays + 1;
      }
    } else {
      assert NumDays(age) <= 0;
    }
  }

  /** The last component of a path, as `Path::file_name` finds it. */
  function FileName(path: string): (r: Option<string>)
    ensures r.Some? ==> '/' !in r.value && r.value !in {"", ".", ".."}
  {
    var segments := NamedSegments(Split(path, '/'));
    if segments == [] || segments[|segments| - 1] == ".." then None
    else Some(segments[|segments| - 1])
  }

  /** The path components: empty and "." segments are not components. */
  function NamedSegments(parts: seq<string>): (r: seq<string>)
    requires forall i :: 0 <= i < |parts| ==> '/' !in parts[i]
    ensures forall i :: 0 <= i < |r| ==> '/' !in r[i] && r[i] != "" && r[i] != "."
    decreases |parts|
  {
    if parts == [] then []
    else
      var last := parts[|parts| - 1];
      NamedSegments(parts[..|parts| - 1]) + (if last == "" || last == "." then [] else [last])
  }

  datatype WorkspaceInfo = WorkspaceInfo(name: string, path: Option<string>, cursorPath: Option<string>)

  const UNKNOWN_WORKSPACE := "unknown"

  function NameOf(path: string): string {
    match FileName(path)
    case None => UNKNOWN_WORKSPACE
    case Some(n) => n
  }

  /** `WorkspaceInfo::from_uri`: a path only for `file://` URIs, named by its last component. */
  function FromUri(uri: string): (r: WorkspaceInfo)
    ensures r.path.Some? <==> StartsWith(uri, "file://")
    ensures r.path.Some? ==> uri == "file://" + r.path.value && r.name == NameOf(r.path.value)
    ensures r.path.None? ==> r.name == UNKNOWN_WORKSPACE
    ensures r.cursorPath.None?
  {
    var path := StripPrefix(uri, "file://");
    WorkspaceInfo(if path.Some? then NameOf(path.value) else UNKNOWN_WORKSPACE, path, None)
  }

  /** `WorkspaceInfo::new`: always has the path, named by its last component. */
  function NewWorkspace(path: string, cursorPath: Option<string>): (r: WorkspaceInfo)
    ensures r.path == Some(path) && r.cursorPath == cursorPath && r.name == NameOf(path)
  {
    WorkspaceInfo(NameOf(path), Some(path), cursorPath)
  }

  /** A `file://` URI describes the same workspace as its path does. */
  lemma FromUriIsNew(path: string)
    ensures FromUri("file://" + path) == NewWorkspace(path, None)
  {
    assert ("file://" + path)[..7] == "file://";
    assert ("file://" + path)[7..] == path;
  }

  /** A final component that is a plain name is the workspace's name. */
  lemma {:induction false} NameOfLastComponent(dir: string, name: string)
    requires '/' !in name && name !in {"", ".", ".."}
    ensures NameOf(dir + "/" + name) == name
  {
    SplitAppend(dir, name);
    SplitNone(name, '/');
    var parts := Split(dir, '/') + [name];
    assert parts[..|parts| - 1] == Split(dir, '/');
  }

  lemma {:induction false} SplitAppend(dir: string, name: string)
    requires '/' !in name
    ensures Split(dir + "/" + name, '/') == Split(dir, '/') + [name]
    decreases |dir|
  {
    if dir == [] {
      assert dir + "/" + name == ['/'] + name;
      assert (['/'] + name)[1..] == name;
      SplitNone(name, '/');
    } else {
      SplitAppend(dir[1..], name);
      assert (dir + "/" + name)[1..] == dir[1..] + "/" + name;
    }
  }

  /** A `file://` URI whose last component is a plain name is named by that component. */
  lemma FromUriNamed(dir: string, name: string)
    requires '/' !in name && name !in {"", ".", ".."}
    ensures FromUri("file://" + (dir + "/" + name)) == WorkspaceInfo(name, Some(dir + "/" + name), None)
  {
    FromUriIsNew(dir + "/" + name);
    NameOfLastComponent(dir, name);
  }

  /** The example of the source: `file:///home/user/projects/my-app` is named "my-app". */
  lemma FromUriExample(uri: string)
    requires uri == "file:///home/user/projects/my-app"
    ensures FromUri(uri) == WorkspaceInfo("my-app", Some("/home/user/projects/my-app"), None)
  {
    ExampleUriParts(uri, "/home/user/projects", "my-app");
    FromUriNamed("/home/user/projects", "my-app");
  }

  lemma ExampleUriParts(uri: string, dir: string, name: string)
    requires uri == "file:///home/user/projects/my-app" && dir == "/home/user/projects" && name == "my-app"
    ensures dir + "/" + name == "/home/user/projects/my-app" && uri == "file://" + (dir + "/" + name)
  {
    assert dir + "/" + name == "/home/user/projects/my-app";
  }
}
