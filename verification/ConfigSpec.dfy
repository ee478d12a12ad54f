/** What the daemon's configuration file comes to: the log level, and the crash reporter's settings. The
    parser commits the crash reporter's settings one by one and stops at the first that is missing. */
module ConfigSpec {
  import opened Integers
  import opened Options
  import T = TunerSpec

  // --------------------------------------------------------------------- JSON

  datatype Json =
    | JNull
    | JBool(b: bool)
    | JInt(n: int)
    | JReal(r: real)
    | JString(s: string)
    | JArray(items: seq<Json>)
    | JObject(members: map<string, Json>)

  /** Json::Value::isMember throws on anything but an object and null. */
  predicate CanLookUp(j: Json) {
    j.JObject? || j.JNull?
  }

  predicate IsMember(j: Json, key: string) {
    j.JObject? && key in j.members
  }

  /** isInt: in the range of int, and for a real number without a fraction. */
  predicate IsInt(j: Json) {
    || (j.JInt? && INT_MIN <= j.n <= INT_MAX)
    || (j.JReal? && j.r.Floor as real == j.r && INT_MIN <= j.r.Floor <= INT_MAX)
  }

  function AsInt(j: Json): int
    requires IsInt(j)
  {
    if j.JInt? then j.n else j.r.Floor
  }

  /** What reload finds at the configured path. */
  datatype File = Missing | NotRegular | NotOpened | NotParsed | Parsed(json: Json)

  // ------------------------------------------------------------------- config

  const MIN_LOG_LEVEL := 1
  const MAX_LOG_LEVEL := 7

  const LOG_LEVEL_KEY := "loglevel"
  const CRASHPAD_KEY := "crashpad"
  const PRUNE_AGE_KEY := "pruneAge"
  const PRUNE_DB_SIZE_KEY := "pruneDbSize"
  const UPLOAD_URL_KEY := "uploadUrl"

  datatype CrashpadConfig = CrashpadConfig(pruneAge: Option<int>, pruneDbSize: Option<int>, uploadUrl: Option<string>)

  const NO_CRASHPAD := CrashpadConfig(None, None, None)

  datatype Config = Config(logLevel: int, crashpad: CrashpadConfig)

  /** What a file commits; a file that makes the parser throw commits nothing. */
  datatype Commit = Commit(level: Option<int>, crashpad: CrashpadConfig)

  const NOTHING := Commit(None, NO_CRASHPAD)

  predicate Throws(file: File, key: string) {
    file.Parsed? && (!CanLookUp(file.json) || (IsMember(file.json, key) && !CanLookUp(file.json.members[key])))
  }

  function IntMember(j: Json, key: string): Option<int> {
    if IsMember(j, key) && IsInt(j.members[key]) then Some(AsInt(j.members[key])) else None
  }

  function StringMember(j: Json, key: string): Option<string> {
    if IsMember(j, key) && j.members[key].JString? then Some(j.members[key].s) else None
  }

  function LevelOf(j: Json, key: string): Option<int> {
    if !IsMember(j, key) then None
    else match IntMember(j.members[key], LOG_LEVEL_KEY)
      case None => None
      case Some(n) => if MIN_LOG_LEVEL <= n <= MAX_LOG_LEVEL then Some(n) else None
  }

  /** A setting is committed when it and those before it are there with the right type. */
  function CrashpadOf(j: Json): CrashpadConfig {
    if !IsMember(j, CRASHPAD_KEY) then NO_CRASHPAD
    else
      var section := j.members[CRASHPAD_KEY];
      var age := IntMember(section, PRUNE_AGE_KEY);
      var size := if age.Some? then IntMember(section, PRUNE_DB_SIZE_KEY) else None;
      var url := if size.Some? then StringMember(section, UPLOAD_URL_KEY) else None;
      CrashpadConfig(age, size, url)
  }

  function CommitOf(file: File, key: string): Commit {
    if !file.Parsed? || Throws(file, key) then NOTHING
    else Commit(LevelOf(file.json, key), CrashpadOf(file.json))
  }

  function Over<V>(latest: Option<V>, earlier: Option<V>): Option<V> {
    if latest.Some? then latest else earlier
  }

  function CommitCrashpad(c: CrashpadConfig, news: CrashpadConfig): CrashpadConfig {
    CrashpadConfig(
      Over(news.pruneAge, c.pruneAge), Over(news.pruneDbSize, c.pruneDbSize), Over(news.uploadUrl, c.uploadUrl))
  }

  function Apply(c: Config, commit: Commit): Config {
    Config(if commit.level.Some? then commit.level.value else c.logLevel, CommitCrashpad(c.crashpad, commit.crashpad))
  }

  // ------------------------------------------------------------------- daemon

  const TWO_TO_THE_32 := 0x1_0000_0000
  const TWO_TO_THE_64 := 0x1_0000_0000_0000_0000

  /** The conversions of an int argument to uint32_t and to size_t. */
  function ToUInt32(n: int): UInt32
    requires INT_MIN <= n <= INT_MAX
  {
    if n < 0 then n + TWO_TO_THE_32 else n
  }

  function ToSize(n: int): nat
    requires INT_MIN <= n <= INT_MAX
  {
    if n < 0 then n + TWO_TO_THE_64 else n
  }

  predicate IntOption(o: Option<int>) {
    o.Some? ==> INT_MIN <= o.value <= INT_MAX
  }

  predicate InRange(c: CrashpadConfig) {
    IntOption(c.pruneAge) && IntOption(c.pruneDbSize)
  }

  function ApplyCrashpad(t: T.Fields, c: CrashpadConfig): T.Fields
    requires InRange(c)
  {
    var t1 := if c.pruneAge.Some? then T.SetPruneAge(t, ToUInt32(c.pruneAge.value)) else t;
    var t2 := if c.pruneDbSize.Some? then T.SetPruneDatabaseSize(t1, ToSize(c.pruneDbSize.value)) else t1;
    if c.uploadUrl.Some? then T.SetUploadUrl(t2, c.uploadUrl.value) else t2
  }

  /** The daemon's state: the configuration, the logger's level, the crash reporter. */
  datatype Daemon = Daemon(config: Config, loggerLevel: int, tuner: T.Fields)

  datatype Subscriber = ReloadConfig | DaemonCallback

  const SUBSCRIBERS := [ReloadConfig, DaemonCallback]

  /** onConfigChanged: the logger's level follows when the file could be read. */
  function Reloaded(d: Daemon, file: File, key: string): Daemon {
    var config := Apply(d.config, CommitOf(file, key));
    d.(config := config, loggerLevel := if file.Parsed? && !Throws(file, key) then config.logLevel else d.loggerLevel)
  }

  function CalledBack(d: Daemon): Daemon
    requires InRange(d.config.crashpad)
  {
    d.(loggerLevel := d.config.logLevel, tuner := ApplyCrashpad(d.tuner, d.config.crashpad))
  }

  lemma CommitsInRange(file: File, key: string)
    ensures InRange(CommitOf(file, key).crashpad)
  {
  }

  /** A notification: the subscribers in order, until one throws. */
  function Notified(d: Daemon, subscribers: seq<Subscriber>, file: File, key: string): Daemon
    requires InRange(d.config.crashpad)
    decreases |subscribers|
  {
    if subscribers == [] then d
    else match subscribers[0]
      case DaemonCallback => Notified(CalledBack(d), subscribers[1..], file, key)
      case ReloadConfig =>
        CommitsInRange(file, key);
        if Throws(file, key) then Reloaded(d, file, key)
        else Notified(Reloaded(d, file, key), subscribers[1..], file, key)
  }

  // --------------------------------------------------------------------- runs

  /** What happens to a running daemon: its file changed, or somebody else uses the crash reporter, which is to
      say an init, the proxy discovery, or the upload switch. */
  datatype Event =
    | FileChanged(file: File)
    | TunerInit(outcome: T.InitOutcome)
    | ProxySet(p: T.Proxy)
    | ProxiesFound(records: seq<T.ProxyRecord>, guid: string)
    | UploadEnabled(b: bool)

  function Handle(d: Daemon, e: Event, key: string): Daemon
    requires InRange(d.config.crashpad)
  {
    match e
    case FileChanged(file) => Notified(d, SUBSCRIBERS, file, key)
    case TunerInit(outcome) => d.(tuner := T.Init(d.tuner, outcome))
    case ProxySet(p) => d.(tuner := T.SetProxy(d.tuner, p))
    case ProxiesFound(records, guid) => d.(tuner := T.UpdateProxyList(d.tuner, records, guid))
    case UploadEnabled(b) => d.(tuner := T.SetUploadEnabled(d.tuner, b))
  }

  /** The daemon right after its constructor: the configuration was read once, then applied. */
  function Started(defaultLevel: int, tuner: T.Fields, file: File, key: string): Daemon {
    var config := Apply(Config(defaultLevel, NO_CRASHPAD), CommitOf(file, key));
    CommitsInRange(file, key);
    Daemon(config, config.logLevel, ApplyCrashpad(tuner, config.crashpad))
  }

  ghost predicate Possible(d: Daemon) {
    && InRange(d.config.crashpad)
    && MIN_LOG_LEVEL <= d.config.logLevel <= MAX_LOG_LEVEL
    && d.loggerLevel == d.config.logLevel
  }

  /** A notification with the daemon's own two subscribers. */
  lemma NotifiedInOrder(d: Daemon, file: File, key: string)
    requires InRange(d.config.crashpad)
    ensures InRange(Reloaded(d, file, key).config.crashpad)
    ensures Notified(d, SUBSCRIBERS, file, key) ==
      if Throws(file, key) then Reloaded(d, file, key) else CalledBack(Reloaded(d, file, key))
  {
    CommitsInRange(file, key);
    assert SUBSCRIBERS[1..] == [DaemonCallback];
    var d' := Reloaded(d, file, key);
    if !Throws(file, key) {
      assert Notified(d', [DaemonCallback], file, key) == Notified(CalledBack(d'), [], file, key) by {
        assert [DaemonCallback][1..] == [];
      }
    }
  }

  /** The level stays in range and is the logger's, after every event. */
  lemma HandleKeepsLevel(d: Daemon, e: Event, key: string)
    requires Possible(d)
    ensures Possible(Handle(d, e, key))
    ensures e.FileChanged? && Throws(e.file, key) ==> Handle(d, e, key) == d
  {
    match e
    case FileChanged(file) => NotifiedInOrder(d, file, key);
    case _ =>
  }

  lemma StartedIsPossible(defaultLevel: int, tuner: T.Fields, file: File, key: string)
    requires MIN_LOG_LEVEL <= defaultLevel <= MAX_LOG_LEVEL
    ensures Possible(Started(defaultLevel, tuner, file, key))
  {
    CommitsInRange(file, key);
  }

  /** A run: the constructor, with a crash reporter as it is then, and events. The first file is the one the
      constructor read. */
  function After(defaultLevel: int, tuner: T.Fields, file: File, events: seq<Event>, key: string): (d: Daemon)
    requires MIN_LOG_LEVEL <= defaultLevel <= MAX_LOG_LEVEL
    ensures Possible(d)
    decreases |events|
  {
    if events == [] then
      StartedIsPossible(defaultLevel, tuner, file, key);
      Started(defaultLevel, tuner, file, key)
    else
      var d := After(defaultLevel, tuner, file, events[..|events| - 1], key);
      HandleKeepsLevel(d, events[|events| - 1], key);
      Handle(d, events[|events| - 1], key)
  }

  function CommitBy(e: Event, key: string): Commit {
    match e
    case FileChanged(file) => CommitOf(file, key)
    case _ => NOTHING
  }

  /** What the files of a run have committed, read from the end. */
  function LastLevel(defaultLevel: int, first: Commit, commits: seq<Commit>): int
    decreases |commits|
  {
    if commits == [] then (if first.level.Some? then first.level.value else defaultLevel)
    else if commits[|commits| - 1].level.Some? then commits[|commits| - 1].level.value
    else LastLevel(defaultLevel, first, commits[..|commits| - 1])
  }

  /** The last prune age committed that is not negative. */
  function LastAge(first: Commit, commits: seq<Commit>): int
    decreases |commits|
  {
    var age := (if commits == [] then first else commits[|commits| - 1]).crashpad.pruneAge;
    if age.Some? && age.value >= 0 then age.value
    else if commits == [] then T.PRUNE_DAYS
    else LastAge(first, commits[..|commits| - 1])
  }

  function LastSize(first: Commit, commits: seq<Commit>): Option<int>
    decreases |commits|
  {
    var size := (if commits == [] then first else commits[|commits| - 1]).crashpad.pruneDbSize;
    if size.Some? || commits == [] then size else LastSize(first, commits[..|commits| - 1])
  }

  function LastUrl(first: Commit, commits: seq<Commit>): Option<string>
    decreases |commits|
  {
    var url := (if commits == [] then first else commits[|commits| - 1]).crashpad.uploadUrl;
    if url.Some? || commits == [] then url else LastUrl(first, commits[..|commits| - 1])
  }

  function Commits(events: seq<Event>, key: string): seq<Commit> {
    if events == [] then [] else Commits(events[..|events| - 1], key) + [CommitBy(events[|events| - 1], key)]
  }

  /** A negative size is converted to a size_t of 64 bits. */
  predicate SizeStored(size: nat, last: Option<int>) {
    match last
    case None => size == T.DATABASE_DEFAULT_PRUNE_SIZE_KB
    case Some(n) =>
      INT_MIN <= n <= INT_MAX && size == if n >= 0 then n else 0xffff_ffff_ffff_ffff + 1 + n
  }

  function UrlOr(last: Option<string>, fallback: string): string {
    if last.Some? then last.value else fallback
  }

  /** The daemon's parts hold these values; the database too, when the handler runs on it. */
  predicate Shows(d: Daemon, level: int, age: int, size: Option<int>, url: Option<string>) {
    && d.config.logLevel == d.loggerLevel == level
    && d.config.crashpad.pruneDbSize == size && d.config.crashpad.uploadUrl == url
    && d.tuner.nPruneDays == age
    && SizeStored(d.tuner.databasePruneSize, size)
    && d.tuner.uploadUrl == UrlOr(url, T.CRASHPAD_URL)
    && (T.Stored(d.tuner) ==>
          var s := d.tuner.pDatabase.value;
          && s.pruneAge == age
          && s.pruneDatabaseSize == d.tuner.databasePruneSize && s.uploadUrl == d.tuner.uploadUrl)
    && var last := d.config.crashpad.pruneAge;
       last.Some? && last.value >= 0 ==> last.value == age
  }

  function Level(level: int, commit: Commit): int {
    if commit.level.Some? then commit.level.value else level
  }

  function Age(age: int, commit: Commit): int {
    var latest := commit.crashpad.pruneAge;
    if latest.Some? && latest.value >= 0 then latest.value else age
  }

  lemma LastsSnoc(defaultLevel: int, first: Commit, commits: seq<Commit>, c: Commit)
    ensures LastLevel(defaultLevel, first, commits + [c]) == Level(LastLevel(defaultLevel, first, commits), c)
    ensures LastAge(first, commits + [c]) == Age(LastAge(first, commits), c)
    ensures LastSize(first, commits + [c]) == Over(c.crashpad.pruneDbSize, LastSize(first, commits))
    ensures LastUrl(first, commits + [c]) == Over(c.crashpad.uploadUrl, LastUrl(first, commits))
  {
    var longer := commits + [c];
    assert longer[..|longer| - 1] == commits && longer[|longer| - 1] == c;
  }

  lemma AppliedShows(t: T.Fields, c: CrashpadConfig, age: int)
    requires InRange(c) && 0 <= age && t.nPruneDays == age
    requires c.pruneDbSize.None? ==> SizeStored(t.databasePruneSize, None)
    requires c.uploadUrl.None? ==> t.uploadUrl == T.CRASHPAD_URL
    requires T.Stored(t) ==>
      var s := t.pDatabase.value;
      && s.pruneAge == age
      && s.pruneDatabaseSize == t.databasePruneSize && s.uploadUrl == t.uploadUrl
    ensures
      var t' := ApplyCrashpad(t, c);
      var age' := if c.pruneAge.Some? && c.pruneAge.value >= 0 then c.pruneAge.value else age;
      && t'.nPruneDays == age' && SizeStored(t'.databasePruneSize, c.pruneDbSize)
      && t'.uploadUrl == UrlOr(c.uploadUrl, T.CRASHPAD_URL)
      && (T.Stored(t') ==>
            var s := t'.pDatabase.value;
            s.pruneAge == age' && s.pruneDatabaseSize == t'.databasePruneSize && s.uploadUrl == t'.uploadUrl)
  {
  }

  lemma ChangeShows(d: Daemon, level: int, age: int, size: Option<int>, url: Option<string>,
                    commit: Commit, logger: int)
    requires Possible(d) && Shows(d, level, age, size, url) && 0 <= age && InRange(commit.crashpad)
    ensures
      var config := Apply(d.config, commit);
      && InRange(config.crashpad)
      && Shows(CalledBack(d.(config := config, loggerLevel := logger)), Level(level, commit), Age(age, commit),
               Over(commit.crashpad.pruneDbSize, size), Over(commit.crashpad.uploadUrl, url))
  {
    AppliedShows(d.tuner, Apply(d.config, commit).crashpad, age);
  }

  /** A crash reporter on which nobody has set the URL, the prune age or the database size, in its fields or,
      where the handler runs on one, in its database. */
  predicate HasDefaults(t: T.Fields) {
    T.HasSettings(t, t.bUploadEnabled, T.CRASHPAD_URL, T.PRUNE_DAYS, T.DATABASE_DEFAULT_PRUNE_SIZE_KB)
  }

  predicate SetsNothing(ops: seq<T.Op>) {
    forall i :: 0 <= i < |ops| ==> !ops[i].OpUploadUrl? && !ops[i].OpPruneAge? && !ops[i].OpPruneDatabaseSize?
  }

  lemma {:induction false} NothingSet(ops: seq<T.Op>)
    requires SetsNothing(ops)
    ensures T.LastUploadUrl(ops) == T.CRASHPAD_URL && T.LastPruneAge(ops) == T.PRUNE_DAYS
    ensures T.LastPruneDatabaseSize(ops) == T.DATABASE_DEFAULT_PRUNE_SIZE_KB
    decreases |ops|
  {
    if ops != [] {
      NothingSet(ops[..|ops| - 1]);
    }
  }

  /** Whatever else was done to it before. */
  lemma DefaultsUntilSet(ops: seq<T.Op>)
    requires SetsNothing(ops)
    ensures HasDefaults(T.After(ops))
  {
    T.SettingsAreTheLastAccepted(ops);
    NothingSet(ops);
  }

  /** initCrashpad, when the client's id could be read: it runs before the daemon is constructed. */
  function MainInit(outcome: T.InitOutcome): seq<T.Op> {
    [T.OpUploadEnabled(true), T.OpInit(outcome)]
  }

  /** What main hands to the daemon: a crash reporter with the defaults, stored if the handler runs. */
  lemma MainInitHasDefaults(outcome: T.InitOutcome)
    ensures HasDefaults(T.After(MainInit(outcome)))
    ensures T.Stored(T.After(MainInit(outcome))) <==> outcome.HandlerRuns?
  {
    var ops := MainInit(outcome);
    DefaultsUntilSet(ops);
    assert ops[..1] == [T.OpUploadEnabled(true)];
    assert ops[..1][..0] == [];
    assert T.After(ops[..0]) == T.FRESH;
    assert T.After(ops[..1]) == T.FRESH;
  }

  lemma StartShows(defaultLevel: int, tuner: T.Fields, file: File, key: string)
    requires MIN_LOG_LEVEL <= defaultLevel <= MAX_LOG_LEVEL && HasDefaults(tuner)
    ensures
      var first := CommitOf(file, key);
      Shows(Started(defaultLevel, tuner, file, key), LastLevel(defaultLevel, first, []),
            LastAge(first, []), LastSize(first, []), LastUrl(first, []))
  {
    CommitsInRange(file, key);
    AppliedShows(tuner, CommitOf(file, key).crashpad, T.PRUNE_DAYS);
  }

  lemma EventShows(d: Daemon, e: Event, key: string, level: int, age: int, size: Option<int>, url: Option<string>)
    requires Possible(d) && Shows(d, level, age, size, url) && 0 <= age
    ensures
      var c := CommitBy(e, key);
      Shows(Handle(d, e, key), Level(level, c), Age(age, c),
            Over(c.crashpad.pruneDbSize, size), Over(c.crashpad.uploadUrl, url))
  {
    if e.FileChanged? {
      var f := e.file;
      CommitsInRange(f, key);
      ChangeShows(d, level, age, size, url, CommitOf(f, key), Reloaded(d, f, key).loggerLevel);
      NotifiedInOrder(d, f, key);
    }
  }

  lemma {:induction false} LastAgeIsNoNegative(first: Commit, commits: seq<Commit>)
    ensures 0 <= LastAge(first, commits)
    decreases |commits|
  {
    if commits != [] {
      LastAgeIsNoNegative(first, commits[..|commits| - 1]);
    }
  }

  /** Over every run, from any crash reporter that still has its defaults, of file contents, notifications and
      whatever else happens to the crash reporter: the level is the last one committed; its URL and size are the
      last committed and its prune age is the last committed that is not negative, in its fields and, where the
      handler runs on one, in its database. */
  lemma {:induction false} SettingsFollowTheFiles(defaultLevel: int, tuner: T.Fields, file: File, events: seq<Event>,
                                                  key: string)
    requires MIN_LOG_LEVEL <= defaultLevel <= MAX_LOG_LEVEL && HasDefaults(tuner)
    ensures
      var first := CommitOf(file, key);
      var commits := Commits(events, key);
      Shows(After(defaultLevel, tuner, file, events, key), LastLevel(defaultLevel, first, commits),
            LastAge(first, commits), LastSize(first, commits), LastUrl(first, commits))
    decreases |events|
  {
    var first := CommitOf(file, key);
    if events == [] {
      StartShows(defaultLevel, tuner, file, key);
    } else {
      var before, e := events[..|events| - 1], events[|events| - 1];
      var commits := Commits(before, key);
      SettingsFollowTheFiles(defaultLevel, tuner, file, before, key);
      LastAgeIsNoNegative(first, commits);
      EventShows(After(defaultLevel, tuner, file, before, key), e, key, LastLevel(defaultLevel, first, commits),
                 LastAge(first, commits), LastSize(first, commits), LastUrl(first, commits));
      LastsSnoc(defaultLevel, first, commits, CommitBy(e, key));
    }
  }

  predicate NoInit(events: seq<Event>) {
    forall i :: 0 <= i < |events| ==> !events[i].TunerInit?
  }

  lemma AppliedIsStored(t: T.Fields, c: CrashpadConfig)
    requires InRange(c)
    ensures T.Stored(ApplyCrashpad(t, c)) <==> T.Stored(t)
  {
  }

  lemma EventStaysStored(d: Daemon, e: Event, key: string)
    requires Possible(d) && T.Stored(d.tuner) && !e.TunerInit?
    ensures T.Stored(Handle(d, e, key).tuner)
  {
    if e.FileChanged? {
      NotifiedInOrder(d, e.file, key);
      AppliedIsStored(d.tuner, Reloaded(d, e.file, key).config.crashpad);
    }
  }

  lemma {:induction false} StaysStored(defaultLevel: int, tuner: T.Fields, file: File, events: seq<Event>, key: string)
    requires MIN_LOG_LEVEL <= defaultLevel <= MAX_LOG_LEVEL && T.Stored(tuner) && NoInit(events)
    ensures T.Stored(After(defaultLevel, tuner, file, events, key).tuner)
    decreases |events|
  {
    if events == [] {
      CommitsInRange(file, key);
      AppliedIsStored(tuner, CommitOf(file, key).crashpad);
    } else {
      var before := events[..|events| - 1];
      StaysStored(defaultLevel, tuner, file, before, key);
      EventStaysStored(After(defaultLevel, tuner, file, before, key), events[|events| - 1], key);
    }
  }

  /** The program's own runs: main initialises the crash reporter, whose handler runs, constructs the daemon, and
      never initialises again. Throughout there is a database, and it has the values above. */
  lemma DatabaseFollowsTheFiles(defaultLevel: int, found: T.Settings, file: File, events: seq<Event>, key: string)
    requires MIN_LOG_LEVEL <= defaultLevel <= MAX_LOG_LEVEL && NoInit(events)
    ensures
      var d := After(defaultLevel, T.After(MainInit(T.HandlerRuns(found))), file, events, key);
      var first := CommitOf(file, key);
      var commits := Commits(events, key);
      && T.Stored(d.tuner)
      && d.tuner.pDatabase.value.pruneAge == LastAge(first, commits)
      && SizeStored(d.tuner.pDatabase.value.pruneDatabaseSize, LastSize(first, commits))
      && d.tuner.pDatabase.value.uploadUrl == UrlOr(LastUrl(first, commits), T.CRASHPAD_URL)
  {
    var tuner := T.After(MainInit(T.HandlerRuns(found)));
    MainInitHasDefaults(T.HandlerRuns(found));
    StaysStored(defaultLevel, tuner, file, events, key);
    SettingsFollowTheFiles(defaultLevel, tuner, file, events, key);
  }

  /** What one file commits: a later setting only with the earlier ones, and nothing of the section when the
      parser throws over the log level. */
  lemma CommitIsAPrefix(file: File, key: string)
    ensures
      var c := CommitOf(file, key).crashpad;
      && (c.uploadUrl.Some? ==> c.pruneDbSize.Some?) && (c.pruneDbSize.Some? ==> c.pruneAge.Some?)
      && (c.pruneAge.Some? <==>
            && file.Parsed? && !Throws(file, key) && IsMember(file.json, CRASHPAD_KEY)
            && IsMember(file.json.members[CRASHPAD_KEY], PRUNE_AGE_KEY)
            && IsInt(file.json.members[CRASHPAD_KEY].members[PRUNE_AGE_KEY]))
  {
  }

  // -------------------------------------------------- what a file commits, member by member

  /** An object has a whole number of 32 bits under a key. */
  predicate HasInt(j: Json, key: string, n: int) {
    && j.JObject? && key in j.members && (j.members[key] == JInt(n) || j.members[key] == JReal(n as real))
    && -0x8000_0000 <= n <= 0x7fff_ffff
  }

  ghost predicate HasSomeInt(j: Json, key: string) {
    exists n :: HasInt(j, key, n)
  }

  predicate HasString(j: Json, key: string, s: string) {
    j.JObject? && key in j.members && j.members[key] == JString(s)
  }

  lemma IntMemberIs(j: Json, key: string)
    ensures forall n :: IntMember(j, key) == Some(n) <==> HasInt(j, key, n)
    ensures IntMember(j, key).Some? <==> HasSomeInt(j, key)
  {
    if IntMember(j, key).Some? {
      assert HasInt(j, key, IntMember(j, key).value);
    }
  }

  /** The section of the log level, if it is there, is something that can be asked for members. */
  predicate LevelCanBeRead(members: map<string, Json>, key: string) {
    key in members ==> members[key].JObject? || members[key].JNull?
  }

  /** The file is an object: its log level is committed if it is a whole number in 1..7. */
  lemma LevelIsCommitted(members: map<string, Json>, key: string, n: int)
    ensures CommitOf(Parsed(JObject(members)), key).level == Some(n)
      <==> key in members && HasInt(members[key], "loglevel", n) && 1 <= n <= 7
  {
    if key in members {
      IntMemberIs(members[key], LOG_LEVEL_KEY);
    }
  }

  /** ... and, if reading the level does not throw, each crash reporter setting that has its own type under its own key,
      as long as those before it do: age, size, URL. */
  lemma SettingsAreCommitted(members: map<string, Json>, key: string, n: int, url: string)
    requires LevelCanBeRead(members, key)
    ensures
      var c := CommitOf(Parsed(JObject(members)), key).crashpad;
      if "crashpad" !in members then c == CrashpadConfig(None, None, None)
      else
        var section := members["crashpad"];
        && (c.pruneAge == Some(n) <==> HasInt(section, "pruneAge", n))
        && (c.pruneDbSize == Some(n) <==> HasSomeInt(section, "pruneAge") && HasInt(section, "pruneDbSize", n))
        && (c.uploadUrl == Some(url) <==>
              && HasSomeInt(section, "pruneAge") && HasSomeInt(section, "pruneDbSize")
              && HasString(section, "uploadUrl", url))
  {
    if "crashpad" in members {
      IntMemberIs(members["crashpad"], PRUNE_AGE_KEY);
      IntMemberIs(members["crashpad"], PRUNE_DB_SIZE_KEY);
    }
  }

  /** A complete file commits exactly its values. */
  lemma CompleteFileCommits(members: map<string, Json>, key: string, level: int, age: int, size: int, url: string)
    requires key in members && HasInt(members[key], "loglevel", level) && 1 <= level <= 7
    requires "crashpad" in members
    requires HasInt(members["crashpad"], "pruneAge", age) && HasInt(members["crashpad"], "pruneDbSize", size)
    requires HasString(members["crashpad"], "uploadUrl", url)
    ensures CommitOf(Parsed(JObject(members)), key)
         == Commit(Some(level), CrashpadConfig(Some(age), Some(size), Some(url)))
  {
    LevelIsCommitted(members, key, level);
    SettingsAreCommitted(members, key, age, url);
    SettingsAreCommitted(members, key, size, url);
  }

  /** Every other file commits nothing; it throws if it parses to something other than an object or null, or if the
      section of the log level is such a thing. */
  lemma OtherFilesCommitNothing(file: File, key: string)
    ensures Throws(file, key) <==>
      file.Parsed? && !file.json.JNull? && (file.json.JObject? ==> !LevelCanBeRead(file.json.members, key))
    ensures (file.Parsed? && file.json.JObject? ==> !LevelCanBeRead(file.json.members, key)) ==>
      CommitOf(file, key) == Commit(None, CrashpadConfig(None, None, None))
  {
  }

  /** With main's crash reporter and no configuration file the database has the defaults. */
  lemma DatabaseDefaults(defaultLevel: int, found: T.Settings, key: string)
    requires 1 <= defaultLevel <= 7
    ensures
      var d := After(defaultLevel, T.After(MainInit(T.HandlerRuns(found))), Missing, [], key);
      && d.loggerLevel == defaultLevel && T.Stored(d.tuner)
      && var s := d.tuner.pDatabase.value;
         s.pruneAge == 14 && s.pruneDatabaseSize == 50000 && s.uploadUrl == "https://crash.amp.cisco.com/crash"
  {
    DatabaseFollowsTheFiles(defaultLevel, found, Missing, [], key);
    assert Commits([], key) == [];
  }

  /** The logger and the crash reporter have what the configuration says: applying it again would change
      nothing. */
  ghost predicate UpToDate(d: Daemon) {
    Possible(d) && ApplyCrashpad(d.tuner, d.config.crashpad) == d.tuner
  }

  /** Applying a configuration twice is applying it once. */
  lemma ApplyTwice(t: T.Fields, c: CrashpadConfig)
    requires InRange(c)
    ensures ApplyCrashpad(ApplyCrashpad(t, c), c) == ApplyCrashpad(t, c)
  {
  }

  lemma InitKeepsApplied(t: T.Fields, outcome: T.InitOutcome, c: CrashpadConfig)
    requires InRange(c) && ApplyCrashpad(t, c) == t
    ensures ApplyCrashpad(T.Init(t, outcome), c) == T.Init(t, outcome)
  {
  }

  lemma ProxyKeepsApplied(t: T.Fields, p: T.Proxy, c: CrashpadConfig)
    requires InRange(c) && ApplyCrashpad(t, c) == t
    ensures ApplyCrashpad(T.SetProxy(t, p), c) == T.SetProxy(t, p)
  {
  }

  lemma UploadKeepsApplied(t: T.Fields, b: bool, c: CrashpadConfig)
    requires InRange(c) && ApplyCrashpad(t, c) == t
    ensures ApplyCrashpad(T.SetUploadEnabled(t, b), c) == T.SetUploadEnabled(t, b)
  {
  }

  lemma HandleUpToDate(d: Daemon, e: Event, key: string)
    requires UpToDate(d)
    ensures UpToDate(Handle(d, e, key))
  {
    HandleKeepsLevel(d, e, key);
    match e
    case TunerInit(outcome) => InitKeepsApplied(d.tuner, outcome, d.config.crashpad);
    case ProxySet(p) => ProxyKeepsApplied(d.tuner, p, d.config.crashpad);
    case ProxiesFound(records, guid) =>
      if T.Requested(records, guid).Some? {
        ProxyKeepsApplied(d.tuner, T.Requested(records, guid).value, d.config.crashpad);
      }
    case UploadEnabled(b) => UploadKeepsApplied(d.tuner, b, d.config.crashpad);
    case FileChanged(file) =>
      NotifiedInOrder(d, file, key);
      ApplyTwice(d.tuner, Reloaded(d, file, key).config.crashpad);
  }

  /** The reload is subscribed before the callback, so the logger and the crash reporter never lag behind the
      configuration: they are up to date after the constructor and after every event, from any crash reporter. */
  lemma {:induction false} NeverLags(defaultLevel: int, tuner: T.Fields, file: File, events: seq<Event>, key: string)
    requires MIN_LOG_LEVEL <= defaultLevel <= MAX_LOG_LEVEL
    ensures UpToDate(After(defaultLevel, tuner, file, events, key))
    decreases |events|
  {
    if events == [] {
      StartedIsPossible(defaultLevel, tuner, file, key);
      CommitsInRange(file, key);
      ApplyTwice(tuner, CommitOf(file, key).crashpad);
    } else {
      var before, e := events[..|events| - 1], events[|events| - 1];
      NeverLags(defaultLevel, tuner, file, before, key);
      HandleUpToDate(After(defaultLevel, tuner, file, before, key), e, key);
    }
  }
}
