/** What the crash reporter's settings come to. CrashpadTuner keeps a copy of each in a field and, once its database is
    open and its handler runs, in the database as well. Every settings operation on an open database is
    taken to succeed. */
module TunerSpec {
  import opened Integers
  import opened Options

  datatype ProxyType = ProxyNone | ProxyHTTP | ProxyHTTPS | ProxySOCKS4 | ProxySOCKS5

  datatype Auth = AuthNone | AuthOther(code: nat)

  datatype Proxy = Proxy(host: string, port: UInt16, kind: ProxyType, auth: Auth, username: string, password: string)

  const EMPTY_PROXY := Proxy("", 0, ProxyNone, AuthNone, "", "")

  /** crashpad::Settings, as far as the tuner uses them. */
  datatype Settings = Settings(
    uploadsEnabled: bool, uploadUrl: string, pruneAge: int, pruneDatabaseSize: nat, proxy: Proxy)

  /** The fields of a tuner. */
  datatype Fields = Fields(
    bRunning: bool, bUploadEnabled: bool, uploadUrl: string, nPruneDays: int, databasePruneSize: nat,
    proxy: Proxy, pDatabase: Option<Settings>)

  const CRASHPAD_URL := "https://crash.amp.cisco.com/crash"
  const PRUNE_DAYS := 14
  const DATABASE_DEFAULT_PRUNE_SIZE_KB := 50000

  const FRESH := Fields(false, true, CRASHPAD_URL, PRUNE_DAYS, DATABASE_DEFAULT_PRUNE_SIZE_KB, EMPTY_PROXY, None)

  /** How far an init gets; an opened database has the settings that were found in it. */
  datatype InitOutcome =
    | NoHandlerFile
    | NoReportDirectory
    | NoDatabase
    | HandlerFails(found: Settings)
    | HandlerRuns(found: Settings)

  // ------------------------------------------------------------------ proxies

  predicate IsProxyValid(p: Proxy) {
    p.kind.ProxyNone?
    || (p.host != "" && p.port != 0 && (p.auth.AuthNone? || (p.username != "" && p.password != "")))
  }

  datatype RecordType = SOCKS | HTTPS | HTTP | NoType | FTP | Unknown(code: int)

  datatype ProxyRecord = ProxyRecord(url: string, port: UInt32, proxyType: RecordType)

  function KindOf(t: RecordType): Option<ProxyType> {
    match t
    case SOCKS => Some(ProxySOCKS5)
    case HTTPS => Some(ProxyHTTPS)
    case HTTP => Some(ProxyHTTP)
    case NoType => Some(ProxyHTTP)
    case FTP => None
    case Unknown(_) => None
  }

  predicate Convertible(r: ProxyRecord) {
    KindOf(r.proxyType).Some? && r.port < 0x1_0000
  }

  function Converted(records: seq<ProxyRecord>): (proxies: seq<Proxy>)
    ensures forall p :: p in proxies ==> !p.kind.ProxyNone? && p.auth.AuthNone?
  {
    if records == [] then []
    else
      var r := records[0];
      if Convertible(r) then
        [Proxy(r.url, r.port, KindOf(r.proxyType).value, AuthNone, "", "")] + Converted(records[1..])
      else
        Converted(records[1..])
  }

  lemma {:induction false} ConvertedSnoc(records: seq<ProxyRecord>, r: ProxyRecord)
    ensures Converted(records + [r]) == Converted(records) + Converted([r])
    decreases |records|
  {
    if records == [] {
      assert records + [r] == [r];
    } else {
      assert (records + [r])[1..] == records[1..] + [r];
      ConvertedSnoc(records[1..], r);
    }
  }

  /** The fields of a proxy that mean something: only the type when there is none, and no credentials
      without authentication. */
  function Normalise(p: Proxy): Proxy {
    if p.kind.ProxyNone? then EMPTY_PROXY
    else if p.auth.AuthNone? then p.(username := "", password := "")
    else p
  }

  /** setProxySettings writes the meaningful fields and leaves the rest of the database as it is. */
  function WriteProxy(stored: Proxy, p: Proxy): Proxy {
    if p.kind.ProxyNone? then stored.(kind := ProxyNone)
    else if p.auth.AuthNone? then p.(username := stored.username, password := stored.password)
    else p
  }

  // ------------------------------------------------------------ specification

  predicate Stored(t: Fields) {
    t.bRunning && t.pDatabase.Some?
  }

  function SetUploadEnabled(t: Fields, b: bool): Fields {
    t.(bUploadEnabled := b,
       pDatabase := if Stored(t) then Some(t.pDatabase.value.(uploadsEnabled := b)) else t.pDatabase)
  }

  function SetUploadUrl(t: Fields, url: string): Fields {
    t.(uploadUrl := url,
       pDatabase := if Stored(t) then Some(t.pDatabase.value.(uploadUrl := url)) else t.pDatabase)
  }

  function SetPruneAge(t: Fields, nDays: UInt32): Fields {
    if nDays > INT_MAX then t
    else t.(nPruneDays := nDays,
            pDatabase := if Stored(t) then Some(t.pDatabase.value.(pruneAge := nDays)) else t.pDatabase)
  }

  function SetPruneDatabaseSize(t: Fields, nSize: nat): Fields {
    t.(databasePruneSize := nSize,
       pDatabase := if Stored(t) then Some(t.pDatabase.value.(pruneDatabaseSize := nSize)) else t.pDatabase)
  }

  function SetupSettings(t: Fields, found: Settings): Fields {
    t.(pDatabase := Some(Settings(t.bUploadEnabled, t.uploadUrl, t.nPruneDays, t.databasePruneSize,
                                  WriteProxy(found.proxy, t.proxy))))
  }

  function Init(t: Fields, outcome: InitOutcome): Fields {
    match outcome
    case NoHandlerFile => t
    case NoReportDirectory => t
    case NoDatabase => t.(pDatabase := None)
    case HandlerFails(found) => SetupSettings(t, found)
    case HandlerRuns(found) => SetupSettings(t, found).(bRunning := true)
  }

  function GetProxy(t: Fields): Proxy {
    match t.pDatabase
    case None => t.proxy
    case Some(s) => s.proxy
  }

  function SetProxy(t: Fields, p: Proxy): Fields {
    if !IsProxyValid(p) then t
    else match t.pDatabase
      case None => t.(proxy := p)
      case Some(s) => if s.proxy == p then t else t.(pDatabase := Some(s.(proxy := WriteProxy(s.proxy, p))))
  }

  function FirstValid(proxies: seq<Proxy>): Option<Proxy> {
    if proxies == [] then None
    else if IsProxyValid(proxies[0]) then Some(proxies[0])
    else FirstValid(proxies[1..])
  }

  /** The proxy that an update asks for. */
  function Requested(records: seq<ProxyRecord>, guid: string): Option<Proxy> {
    if guid != "" then None
    else if Converted(records) == [] then Some(EMPTY_PROXY)
    else FirstValid(Converted(records))
  }

  function UpdateProxyList(t: Fields, records: seq<ProxyRecord>, guid: string): Fields {
    match Requested(records, guid)
    case None => t
    case Some(p) => SetProxy(t, p)
  }

  // --------------------------------------------------------------------- runs

  datatype Op =
    | OpUploadEnabled(b: bool)
    | OpUploadUrl(url: string)
    | OpPruneAge(nDays: UInt32)
    | OpPruneDatabaseSize(nSize: nat)
    | OpInit(outcome: InitOutcome)
    | OpProxy(p: Proxy)
    | OpProxyList(records: seq<ProxyRecord>, guid: string)

  function Apply(t: Fields, op: Op): Fields {
    match op
    case OpUploadEnabled(b) => SetUploadEnabled(t, b)
    case OpUploadUrl(url) => SetUploadUrl(t, url)
    case OpPruneAge(nDays) => SetPruneAge(t, nDays)
    case OpPruneDatabaseSize(nSize) => SetPruneDatabaseSize(t, nSize)
    case OpInit(outcome) => Init(t, outcome)
    case OpProxy(p) => SetProxy(t, p)
    case OpProxyList(records, guid) => UpdateProxyList(t, records, guid)
  }

  function After(ops: seq<Op>): Fields {
    if ops == [] then FRESH else Apply(After(ops[..|ops| - 1]), ops[|ops| - 1])
  }

  /** What a caller expects of a setting: the last value accepted, or the default. */
  function LastUploadEnabled(ops: seq<Op>): bool {
    if ops == [] then true
    else match ops[|ops| - 1]
      case OpUploadEnabled(b) => b
      case _ => LastUploadEnabled(ops[..|ops| - 1])
  }

  function LastUploadUrl(ops: seq<Op>): string {
    if ops == [] then CRASHPAD_URL
    else match ops[|ops| - 1]
      case OpUploadUrl(url) => url
      case _ => LastUploadUrl(ops[..|ops| - 1])
  }

  function LastPruneAge(ops: seq<Op>): int {
    if ops == [] then PRUNE_DAYS
    else match ops[|ops| - 1]
      case OpPruneAge(nDays) => if nDays <= 0x7fff_ffff then nDays else LastPruneAge(ops[..|ops| - 1])
      case _ => LastPruneAge(ops[..|ops| - 1])
  }

  function LastPruneDatabaseSize(ops: seq<Op>): nat {
    if ops == [] then DATABASE_DEFAULT_PRUNE_SIZE_KB
    else match ops[|ops| - 1]
      case OpPruneDatabaseSize(nSize) => nSize
      case _ => LastPruneDatabaseSize(ops[..|ops| - 1])
  }

  predicate HasSettings(t: Fields, enabled: bool, url: string, pruneAge: int, size: nat) {
    && t.bUploadEnabled == enabled && t.uploadUrl == url && t.nPruneDays == pruneAge && t.databasePruneSize == size
    && (Stored(t) ==>
          var s := t.pDatabase.value;
          s.uploadsEnabled == enabled && s.uploadUrl == url && s.pruneAge == pruneAge && s.pruneDatabaseSize == size)
  }

  /** Over every run, whatever the order of setters and inits and however far each init gets: the fields
      hold the last accepted values, and so does the database whenever the handler runs on it. */
  lemma {:induction false} SettingsAreTheLastAccepted(ops: seq<Op>)
    ensures HasSettings(After(ops), LastUploadEnabled(ops), LastUploadUrl(ops), LastPruneAge(ops),
                        LastPruneDatabaseSize(ops))
    decreases |ops|
  {
    if ops != [] {
      SettingsAreTheLastAccepted(ops[..|ops| - 1]);
    }
  }

  /** Once a database is open and the handler runs, only an init whose database fails ends that. */
  predicate Initialised(op: Op) {
    op.OpInit? && op.outcome.HandlerRuns?
  }

  predicate LosesDatabase(op: Op) {
    op.OpInit? && op.outcome.NoDatabase?
  }

  lemma {:induction false} StoredAfterInit(ops: seq<Op>, i: nat)
    requires i < |ops| && Initialised(ops[i]) && forall j :: i < j < |ops| ==> !LosesDatabase(ops[j])
    ensures Stored(After(ops))
    decreases |ops|
  {
    if i < |ops| - 1 {
      StoredAfterInit(ops[..|ops| - 1], i);
    }
  }

  // ------------------------------------------------------------ proxies of runs

  /** The proxy that an operation asks for and that is valid. */
  function Accepted(op: Op): Option<Proxy> {
    match op
    case OpProxy(p) => if IsProxyValid(p) then Some(p) else None
    case OpProxyList(records, guid) => Requested(records, guid)
    case _ => None
  }

  predicate OpensDatabase(op: Op) {
    op.OpInit? && (op.outcome.HandlerFails? || op.outcome.HandlerRuns?)
  }

  /** What getProxy must tell: the last accepted proxy, except that every init that gets as far as the
      database goes back to the one accepted last while no database was open. */
  datatype Track = Track(hasDatabase: bool, held: Proxy, current: Proxy)

  function Follow(k: Track, op: Op): Track {
    if OpensDatabase(op) then Track(true, k.held, k.held)
    else if LosesDatabase(op) then Track(false, k.held, k.held)
    else match Accepted(op)
      case None => k
      case Some(p) => if k.hasDatabase then k.(current := p) else Track(false, p, p)
  }

  function FollowAll(ops: seq<Op>): Track {
    if ops == [] then Track(false, EMPTY_PROXY, EMPTY_PROXY) else Follow(FollowAll(ops[..|ops| - 1]), ops[|ops| - 1])
  }

  predicate Tracks(t: Fields, k: Track) {
    && t.pDatabase.Some? == k.hasDatabase
    && t.proxy == k.held
    && Normalise(GetProxy(t)) == Normalise(k.current)
  }

  lemma WrittenProxyReads(stored: Proxy, p: Proxy)
    ensures Normalise(WriteProxy(stored, p)) == Normalise(p)
    ensures
      var written := WriteProxy(stored, p);
      && (p.kind.ProxyNone? ==>
            written.host == stored.host && written.port == stored.port && written.auth == stored.auth)
      && (p.kind.ProxyNone? || p.auth.AuthNone? ==>
            written.username == stored.username && written.password == stored.password)
  {
  }

  lemma {:induction false} FirstValidIsValid(proxies: seq<Proxy>)
    ensures FirstValid(proxies).Some? ==>
      FirstValid(proxies).value in proxies && IsProxyValid(FirstValid(proxies).value)
    ensures FirstValid(proxies).None? ==> forall p :: p in proxies ==> !IsProxyValid(p)
  {
    if proxies != [] {
      FirstValidIsValid(proxies[1..]);
    }
  }

  predicate Usable(r: ProxyRecord) {
    (r.proxyType.SOCKS? || r.proxyType.HTTPS? || r.proxyType.HTTP? || r.proxyType.NoType?)
    && r.url != "" && 0 < r.port <= 65535
  }

  predicate FirstUsable(records: seq<ProxyRecord>, i: int) {
    0 <= i < |records| && Usable(records[i]) && forall j :: 0 <= j < i ==> !Usable(records[j])
  }

  /** The first valid converted proxy is that of the first record of a supported type with a host and a
      16-bit port other than 0; records of other types and with larger ports count for nothing. */
  lemma {:induction false} FirstValidIsFirstUsable(records: seq<ProxyRecord>)
    ensures FirstValid(Converted(records)).None? <==> forall i :: 0 <= i < |records| ==> !Usable(records[i])
    ensures forall i :: FirstUsable(records, i) ==>
      FirstValid(Converted(records))
        == Some(Proxy(records[i].url, records[i].port, KindOf(records[i].proxyType).value, AuthNone, "", ""))
    decreases |records|
  {
    if records != [] {
      var rest := records[1..];
      FirstValidIsFirstUsable(rest);
      FirstValidCons(records[0], rest);
      if !Usable(records[0]) {
        forall i | FirstUsable(records, i) ensures i > 0 && FirstUsable(rest, i - 1) && records[i] == rest[i - 1] {
        }
      }
    }
  }

  lemma FirstValidCons(r: ProxyRecord, rest: seq<ProxyRecord>)
    ensures FirstValid(Converted([r] + rest)) ==
      if Usable(r) then Some(Proxy(r.url, r.port, KindOf(r.proxyType).value, AuthNone, "", ""))
      else FirstValid(Converted(rest))
  {
    assert ([r] + rest)[1..] == rest;
    if Convertible(r) {
      var p := Proxy(r.url, r.port, KindOf(r.proxyType).value, AuthNone, "", "");
      assert ([p] + Converted(rest))[1..] == Converted(rest);
    }
  }

  lemma SetProxyTracks(t: Fields, k: Track, p: Proxy)
    requires Tracks(t, k) && IsProxyValid(p)
    ensures Tracks(SetProxy(t, p), if k.hasDatabase then k.(current := p) else Track(false, p, p))
  {
    if t.pDatabase.Some? {
      WrittenProxyReads(t.pDatabase.value.proxy, p);
    }
  }

  lemma InitTracks(t: Fields, k: Track, outcome: InitOutcome)
    requires Tracks(t, k)
    ensures Tracks(Init(t, outcome), Follow(k, OpInit(outcome)))
  {
    match outcome
    case HandlerFails(found) => WrittenProxyReads(found.proxy, t.proxy);
    case HandlerRuns(found) => WrittenProxyReads(found.proxy, t.proxy);
    case _ =>
  }

  lemma ApplyTracks(t: Fields, k: Track, op: Op)
    requires Tracks(t, k)
    ensures Tracks(Apply(t, op), Follow(k, op))
  {
    match op
    case OpInit(outcome) => InitTracks(t, k, outcome);
    case OpProxy(p) =>
      if IsProxyValid(p) {
        SetProxyTracks(t, k, p);
      }
    case OpProxyList(records, guid) =>
      FirstValidIsValid(Converted(records));
      if Requested(records, guid).Some? {
        SetProxyTracks(t, k, Requested(records, guid).value);
      }
    case _ =>
  }

  /** Over every run, getProxy tells what Track says, up to the fields that mean something. */
  lemma {:induction false} ProxyIsTracked(ops: seq<Op>)
    ensures Tracks(After(ops), FollowAll(ops))
    decreases |ops|
  {
    if ops != [] {
      ProxyIsTracked(ops[..|ops| - 1]);
      ApplyTracks(After(ops[..|ops| - 1]), FollowAll(ops[..|ops| - 1]), ops[|ops| - 1]);
    }
  }

  function LastAccepted(ops: seq<Op>): Proxy {
    if ops == [] then EMPTY_PROXY
    else match Accepted(ops[|ops| - 1])
      case None => LastAccepted(ops[..|ops| - 1])
      case Some(p) => p
  }

  /** A run that opens the database at most once, and does not lose it. */
  predicate OpensOnce(ops: seq<Op>) {
    if ops == [] then true
    else
      && OpensOnce(ops[..|ops| - 1])
      && (OpensDatabase(ops[|ops| - 1]) || LosesDatabase(ops[|ops| - 1]) ==> !FollowAll(ops[..|ops| - 1]).hasDatabase)
  }

  lemma {:induction false} TrackIsLastAccepted(ops: seq<Op>)
    requires OpensOnce(ops)
    ensures FollowAll(ops).current == LastAccepted(ops)
    ensures !FollowAll(ops).hasDatabase ==> FollowAll(ops).held == LastAccepted(ops)
    decreases |ops|
  {
    if ops != [] {
      TrackIsLastAccepted(ops[..|ops| - 1]);
    }
  }

  /** With one init that opens the database, anywhere in the run, getProxy tells the last accepted proxy. */
  lemma ProxyIsTheLastAccepted(ops: seq<Op>)
    requires OpensOnce(ops)
    ensures Normalise(GetProxy(After(ops))) == Normalise(LastAccepted(ops))
  {
    ProxyIsTracked(ops);
    TrackIsLastAccepted(ops);
  }

  /** An init on an open database keeps the proxy exactly when it is the one held in the field. */
  lemma SecondInitKeepsProxyIff(ops: seq<Op>, outcome: InitOutcome)
    requires OpensDatabase(OpInit(outcome))
    ensures Normalise(GetProxy(Apply(After(ops), OpInit(outcome)))) == Normalise(GetProxy(After(ops)))
      <==> Normalise(FollowAll(ops).held) == Normalise(FollowAll(ops).current)
  {
    ProxyIsTracked(ops);
    InitTracks(After(ops), FollowAll(ops), outcome);
  }

  /** So a second init can undo an accepted proxy. */
  lemma SecondInitForgetsProxy(found: Settings) returns (ops: seq<Op>)
    ensures |ops| == 3 && Accepted(ops[1]).Some? && Accepted(ops[0]).None? && Accepted(ops[2]).None?
    ensures Normalise(LastAccepted(ops)) != Normalise(GetProxy(After(ops)))
  {
    var p := Proxy("proxy", 8080, ProxyHTTP, AuthNone, "", "");
    var init := OpInit(HandlerRuns(found));
    ops := [init, OpProxy(p), init];
    assert ops[..2] == [init, OpProxy(p)] && ops[..2][..1] == [init] && [init][..0] == [];
    assert FollowAll([init]).held == EMPTY_PROXY;
    assert FollowAll(ops[..2]) == Track(true, EMPTY_PROXY, p);
    ProxyIsTracked(ops);
    assert LastAccepted(ops) == p;
  }

  /** An update stores no proxy when there is nothing to convert, otherwise the first valid one; when none
      is valid, or it is not for everyone, nothing changes. */
  lemma UpdateStoresFirstValid(t: Fields, records: seq<ProxyRecord>, guid: string)
    ensures guid == "" && Converted(records) == [] ==>
      Normalise(GetProxy(UpdateProxyList(t, records, guid))) == EMPTY_PROXY
    ensures guid == "" && FirstValid(Converted(records)).Some? ==>
      Normalise(GetProxy(UpdateProxyList(t, records, guid))) == Normalise(FirstValid(Converted(records)).value)
    ensures guid != "" || (Converted(records) != [] && forall p :: p in Converted(records) ==> !IsProxyValid(p)) ==>
      UpdateProxyList(t, records, guid) == t
  {
    FirstValidIsValid(Converted(records));
    if Requested(records, guid).Some? {
      var p := Requested(records, guid).value;
      SetProxyTracks(t, Track(t.pDatabase.Some?, t.proxy, GetProxy(t)), p);
    }
  }

  /** Which proxy a record asks for. A SOCKS record is one of version 5, a record without a type is HTTP; FTP records,
      unknown ones and those with larger ports are no proxies, and a list of nothing else means no proxy. */
  lemma OneRecord(t: Fields, r: ProxyRecord)
    requires r.url != "" && r.port != 0
    ensures
      var p := Normalise(GetProxy(UpdateProxyList(t, [r], "")));
      && (r.proxyType.SOCKS? && r.port <= 65535 ==> p == Proxy(r.url, r.port, ProxySOCKS5, AuthNone, "", ""))
      && (r.proxyType.HTTPS? && r.port <= 65535 ==> p == Proxy(r.url, r.port, ProxyHTTPS, AuthNone, "", ""))
      && (r.proxyType.HTTP? && r.port <= 65535 ==> p == Proxy(r.url, r.port, ProxyHTTP, AuthNone, "", ""))
      && (r.proxyType.NoType? && r.port <= 65535 ==> p == Proxy(r.url, r.port, ProxyHTTP, AuthNone, "", ""))
      && (r.proxyType.FTP? || r.proxyType.Unknown? || r.port > 65535 ==>
            p == Proxy("", 0, ProxyNone, AuthNone, "", ""))
  {
    UpdateStoresFirstValid(t, [r], "");
    FirstValidIsFirstUsable([r]);
    assert [r] == [r] + [];
    FirstValidCons(r, []);
    if !Usable(r) {
      assert Converted([r]) == [];
    }
  }

  lemma {:induction false} TrackIsValid(ops: seq<Op>)
    ensures IsProxyValid(FollowAll(ops).held) && IsProxyValid(FollowAll(ops).current)
    decreases |ops|
  {
    if ops != [] {
      var op := ops[|ops| - 1];
      TrackIsValid(ops[..|ops| - 1]);
      if op.OpProxyList? {
        FirstValidIsValid(Converted(op.records));
      }
    }
  }

  /** Over every run, the proxy that getProxy tells has a host and a port, and, with authentication, both credentials,
      unless it is none. */
  lemma ProxyIsComplete(ops: seq<Op>)
    ensures
      var p := GetProxy(After(ops));
      !p.kind.ProxyNone? ==> p.host != "" && p.port != 0 && (!p.auth.AuthNone? ==> p.username != "" && p.password != "")
  {
    ProxyIsTracked(ops);
    TrackIsValid(ops);
  }

  /** ... and every such proxy is accepted, and no other. */
  lemma CompleteProxyIsTold(ops: seq<Op>, p: Proxy)
    ensures
      var complete := p.kind.ProxyNone?
        || (p.host != "" && p.port != 0 && (!p.auth.AuthNone? ==> p.username != "" && p.password != ""));
      if complete then Normalise(GetProxy(Apply(After(ops), OpProxy(p)))) == Normalise(p)
      else Apply(After(ops), OpProxy(p)) == After(ops)
  {
    if IsProxyValid(p) {
      ProxyIsTracked(ops);
      SetProxyTracks(After(ops), FollowAll(ops), p);
    }
  }
}
