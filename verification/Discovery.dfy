/** Discovery of a product's configuration files: PmPlatformDiscovery::ResolveAndDiscover and
    DiscoverPackageConfigurables, which are the same on Linux and macOS. */
module Discovery {
  import opened FolderIds
  import opened Options
  import opened Replacement
  import opened Text

  // ---------------------------------------------------------------- the world

  /** The file system: what glob lists for a pattern, and which paths exist. */
  datatype Files = Files(glob: string -> seq<string>, present: string -> bool)

  /** FileUtilities::PathIsValid. */
  predicate PathIsValid(files: Files, path: string) {
    path != "" && files.present(path)
  }

  datatype Configurable = Configurable(
    deployPath: string, unresolvedDeployPath: string,
    cfgPath: string, unresolvedCfgPath: string, maxInstances: nat)

  datatype PackageConfig = PackageConfig(
    isDiscoveredAtDeployPath: bool,
    deployPath: string, unresolvedDeployPath: string,
    cfgPath: string, unresolvedCfgPath: string)

  /** substr may throw std::out_of_range. */
  datatype Result<T> = Ok(value: T) | OutOfRange

  // ------------------------------------------------------------ specification

  predicate NoneEmpty(paths: seq<string>) {
    forall i :: 0 <= i < |paths| ==> paths[i] != ""
  }

  function ValidOnes(files: Files, paths: seq<string>): (valid: seq<string>)
    ensures NoneEmpty(valid)
  {
    if paths == [] then []
    else (if PathIsValid(files, paths[0]) then [paths[0]] else []) + ValidOnes(files, paths[1..])
  }

  function Discovered(files: Files, pattern: string): seq<string> {
    ValidOnes(files, files.glob(pattern))
  }

  /** The deploy path is used when it is set and has a file. */
  predicate UsesDeployPath(files: Files, c: Configurable) {
    c.deployPath != "" && Discovered(files, c.deployPath) != []
  }

  function Truncate(paths: seq<string>, maxInstances: nat): seq<string> {
    var n := if maxInstances == 0 then 1 else maxInstances;
    if |paths| <= n then paths else paths[..n]
  }

  /** The files of one configurable. */
  function FilesOf(files: Files, c: Configurable): (chosen: seq<string>)
    ensures NoneEmpty(chosen)
  {
    Truncate(Discovered(files, if UsesDeployPath(files, c) then c.deployPath else c.cfgPath), c.maxInstances)
  }

  /** generic_u8string: the path with single separators. */
  function Generic(path: string): string {
    Collapse(path)
  }

  function IdOf(files: Files, c: Configurable): FolderId {
    if UsesDeployPath(files, c) then FolderIdOf(Generic(c.unresolvedDeployPath), Generic(c.deployPath), MARKER)
    else FolderIdOf(Generic(c.unresolvedCfgPath), Generic(c.cfgPath), MARKER)
  }

  function Entry(c: Configurable, atDeployPath: bool, file: string, unresolved: string): PackageConfig {
    if atDeployPath then PackageConfig(true, file, unresolved, "", c.unresolvedCfgPath)
    else PackageConfig(false, "", "", file, unresolved)
  }

  function EntryOf(c: Configurable, atDeployPath: bool, folderId: FolderId, file: string): Result<PackageConfig> {
    match Unresolve(Generic(file), folderId)
    case Some(unresolved) => Ok(Entry(c, atDeployPath, file, unresolved))
    case None => OutOfRange
  }

  function EntriesOf(c: Configurable, atDeployPath: bool, folderId: FolderId, chosen: seq<string>)
    : seq<Result<PackageConfig>>
  {
    if chosen == [] then []
    else [EntryOf(c, atDeployPath, folderId, chosen[0])] + EntriesOf(c, atDeployPath, folderId, chosen[1..])
  }

  function EntriesOfOne(files: Files, c: Configurable): seq<Result<PackageConfig>> {
    EntriesOf(c, UsesDeployPath(files, c), IdOf(files, c), FilesOf(files, c))
  }

  /** Every file of every configurable, in order. */
  function AllEntries(files: Files, cs: seq<Configurable>): seq<Result<PackageConfig>> {
    if cs == [] then [] else EntriesOfOne(files, cs[0]) + AllEntries(files, cs[1..])
  }

  /** The path at which an entry was discovered. */
  function PathOf(e: PackageConfig): string {
    if e.isDiscoveredAtDeployPath then e.deployPath else e.cfgPath
  }

  /** An entry has exactly one of the two paths. */
  predicate OnePath(e: PackageConfig) {
    && (e.deployPath == "" <==> e.cfgPath != "")
    && (e.isDiscoveredAtDeployPath <==> e.deployPath != "")
  }

  predicate Known(list: seq<PackageConfig>, e: PackageConfig) {
    exists i :: 0 <= i < |list| && SamePath(PathOf(list[i]), PathOf(e))
  }

  function AddEntry(list: seq<PackageConfig>, e: PackageConfig): seq<PackageConfig> {
    if Known(list, e) then list else list + [e]
  }

  /** Every entry is added whose path is new; an entry that cannot be built ends the discovery. */
  function AddEntries(list: seq<PackageConfig>, entries: seq<Result<PackageConfig>>): Result<seq<PackageConfig>>
    decreases |entries|
  {
    if entries == [] then Ok(list)
    else match entries[0]
      case OutOfRange => OutOfRange
      case Ok(e) => AddEntries(AddEntry(list, e), entries[1..])
  }

  // ------------------------------------------------------- what is to be chosen

  predicate Increasing(at: seq<nat>) {
    forall i, j :: 0 <= i < j < |at| ==> at[i] < at[j]
  }

  /** `paths` are what a list has at the places `at`, and there is a file at each. */
  predicate AreAt(files: Files, listed: seq<string>, paths: seq<string>, at: seq<nat>) {
    |at| == |paths| && forall i :: 0 <= i < |at| ==>
      at[i] < |listed| && paths[i] == listed[at[i]] && paths[i] != "" && files.present(paths[i])
  }

  /** `chosen` are the first of the paths at which there is a file, in order, `n` at the most: where one is left out,
      there are `n` before it. */
  predicate FirstAtPlaces(files: Files, listed: seq<string>, n: nat, chosen: seq<string>, at: seq<nat>) {
    && Increasing(at) && AreAt(files, listed, chosen, at) && |chosen| <= n
    && (forall k :: 0 <= k < |listed| && listed[k] != "" && files.present(listed[k]) && k !in at ==>
          |at| == n && forall i :: 0 <= i < |at| ==> at[i] < k)
  }

  ghost predicate FirstOnes(files: Files, listed: seq<string>, n: nat, chosen: seq<string>) {
    exists at :: FirstAtPlaces(files, listed, n, chosen, at)
  }

  ghost predicate SomeValid(files: Files, listed: seq<string>) {
    exists k :: 0 <= k < |listed| && listed[k] != "" && files.present(listed[k])
  }

  /** The places, from one on, at which there is a file. */
  function Places(files: Files, listed: seq<string>, from: nat): (at: seq<nat>)
    requires from <= |listed|
    ensures forall i :: 0 <= i < |at| ==> from <= at[i]
    ensures Increasing(at)
    decreases |listed| - from
  {
    if from == |listed| then []
    else if PathIsValid(files, listed[from]) then [from] + Places(files, listed, from + 1)
    else Places(files, listed, from + 1)
  }

  lemma {:induction false} PlacesCover(files: Files, listed: seq<string>, from: nat)
    requires from <= |listed|
    ensures forall k :: from <= k < |listed| && listed[k] != "" && files.present(listed[k]) ==>
      k in Places(files, listed, from)
    decreases |listed| - from
  {
    if from < |listed| {
      PlacesCover(files, listed, from + 1);
    }
  }

  lemma AreAtCons(files: Files, listed: seq<string>, k: nat, paths: seq<string>, at: seq<nat>)
    requires k < |listed| && PathIsValid(files, listed[k]) && AreAt(files, listed, paths, at)
    ensures AreAt(files, listed, [listed[k]] + paths, [k] + at)
  {
  }

  lemma {:induction false} ValidOnesAreAtPlaces(files: Files, listed: seq<string>, from: nat)
    requires from <= |listed|
    ensures AreAt(files, listed, ValidOnes(files, listed[from..]), Places(files, listed, from))
    decreases |listed| - from
  {
    if from < |listed| {
      assert listed[from..] == [listed[from]] + listed[from + 1..];
      ValidSnoc(files, listed[from + 1..], listed[from]);
      ValidOnesAreAtPlaces(files, listed, from + 1);
      if PathIsValid(files, listed[from]) {
        AreAtCons(files, listed, from, ValidOnes(files, listed[from + 1..]), Places(files, listed, from + 1));
      }
    }
  }

  lemma BehindPrefix(at: seq<nat>, n: nat, k: nat)
    requires Increasing(at) && n <= |at| && k in at && k !in at[..n]
    ensures forall i :: 0 <= i < n ==> at[i] < k
  {
    assert forall i :: 0 <= i < n ==> at[..n][i] == at[i];
  }

  lemma PrefixIsFirst(files: Files, listed: seq<string>, n: nat, valid: seq<string>, at: seq<nat>)
    requires Increasing(at) && AreAt(files, listed, valid, at)
    requires forall k :: 0 <= k < |listed| && listed[k] != "" && files.present(listed[k]) ==> k in at
    ensures FirstOnes(files, listed, n, if |valid| <= n then valid else valid[..n])
  {
    if |valid| <= n {
      assert FirstAtPlaces(files, listed, n, valid, at);
    } else {
      forall k | k in at && k !in at[..n] ensures forall i :: 0 <= i < n ==> at[i] < k {
        BehindPrefix(at, n, k);
      }
      assert FirstAtPlaces(files, listed, n, valid[..n], at[..n]);
    }
  }

  lemma ValidOnesAreFirst(files: Files, listed: seq<string>, maxInstances: nat)
    ensures FirstOnes(files, listed, if maxInstances == 0 then 1 else maxInstances,
                      Truncate(ValidOnes(files, listed), maxInstances))
    ensures ValidOnes(files, listed) != [] <==> SomeValid(files, listed)
  {
    var valid, at := ValidOnes(files, listed), Places(files, listed, 0);
    assert listed[0..] == listed;
    ValidOnesAreAtPlaces(files, listed, 0);
    PlacesCover(files, listed, 0);
    PrefixIsFirst(files, listed, if maxInstances == 0 then 1 else maxInstances, valid, at);
    if valid != [] {
      assert listed[at[0]] == valid[0];
    }
  }

  /** The files of a configurable in terms of what glob lists: of the deploy path if there is a file among them,
      else of the configured path, the first max(1, maxInstances) that exist. */
  lemma FilesAreTheFirst(files: Files, c: Configurable)
    ensures UsesDeployPath(files, c) <==> c.deployPath != "" && SomeValid(files, files.glob(c.deployPath))
    ensures FirstOnes(files, files.glob(if UsesDeployPath(files, c) then c.deployPath else c.cfgPath),
                      if c.maxInstances == 0 then 1 else c.maxInstances, FilesOf(files, c))
  {
    ValidOnesAreFirst(files, files.glob(c.deployPath), c.maxInstances);
    ValidOnesAreFirst(files, files.glob(c.cfgPath), c.maxInstances);
  }

  // ------------------------------------------------------------------ methods

  lemma ValidSnoc(files: Files, paths: seq<string>, p: string)
    ensures ValidOnes(files, [p] + paths) == (if PathIsValid(files, p) then [p] else []) + ValidOnes(files, paths)
  {
    assert ([p] + paths)[1..] == paths;
  }

  /** The erasing loop: an invalid path is taken out in place, a valid one is stepped over. */
  method EraseInvalid(files: Files, paths: seq<string>) returns (discovered: seq<string>)
    ensures discovered == ValidOnes(files, paths)
  {
    discovered := paths;
    var it := 0;
    while it < |discovered|
      invariant 0 <= it <= |discovered|
      invariant ValidOnes(files, paths) == discovered[..it] + ValidOnes(files, discovered[it..])
      decreases |discovered| - it
    {
      assert discovered[it..] == [discovered[it]] + discovered[it + 1..];
      ValidSnoc(files, discovered[it + 1..], discovered[it]);
      if !PathIsValid(files, discovered[it]) {
        ghost var rest := discovered[it + 1..];
        discovered := discovered[..it] + discovered[it + 1..];
        assert discovered[it..] == rest;
      } else {
        it := it + 1;
      }
    }
  }

  /** The id at the front of a configured path, and what it stands for. */
  method FindFolderId(unresolvedPath: string, resolvedPath: string, marker: string)
    returns (knownFolderId: string, conversion: string)
    ensures FolderId(knownFolderId, conversion) == FolderIdOf(Generic(unresolvedPath), Generic(resolvedPath), marker)
  {
    knownFolderId, conversion := "", "";
    CollapseIsDone(unresolvedPath);
    CollapseIsDone(resolvedPath);
    if !SamePath(unresolvedPath, resolvedPath) {
      knownFolderId, conversion := FindInStrings(Generic(unresolvedPath), Generic(resolvedPath), marker);
    }
  }

  method FindInStrings(tempUnresolvedPath: string, tempResolvedPath: string, marker: string)
    returns (knownFolderId: string, conversion: string)
    requires !SamePath(tempUnresolvedPath, tempResolvedPath)
    ensures FolderId(knownFolderId, conversion) == FolderIdOf(tempUnresolvedPath, tempResolvedPath, marker)
  {
    knownFolderId, conversion := "", "";
    var first := Search(tempUnresolvedPath, marker);
    var last := IndexOf(tempUnresolvedPath, '>');
    if first.Some? && last.Some? {
      knownFolderId := Substr(tempUnresolvedPath, first.value, last.value + 1);
      var remainingPath := Substr(tempUnresolvedPath, last.value + 1, |tempUnresolvedPath|);
      first := Search(tempResolvedPath, remainingPath);
      conversion := if first.Some? then Substr(tempResolvedPath, 0, first.value) else tempResolvedPath;
    }
  }

  method ResolveAndDiscover(files: Files, unresolvedPath: string, resolvedPath: string)
    returns (folderId: FolderId, discovered: seq<string>)
    ensures folderId == FolderIdOf(Generic(unresolvedPath), Generic(resolvedPath), MARKER)
    ensures discovered == Discovered(files, resolvedPath)
  {
    var knownFolderId, conversion := FindFolderId(unresolvedPath, resolvedPath, MARKER);
    folderId := FolderId(knownFolderId, conversion);
    discovered := EraseInvalid(files, files.glob(resolvedPath));
  }

  /** The four tests that compare a new entry with those already in the list. */
  method IsUnique(configInfo: PackageConfig, usingDeployPath: bool, packageConfigs: seq<PackageConfig>)
    returns (unique: bool)
    requires OnePath(configInfo) && configInfo.isDiscoveredAtDeployPath == usingDeployPath
    requires AllOnePath(packageConfigs)
    ensures unique <==> !Known(packageConfigs, configInfo)
  {
    unique := true;
    EmptyIsAlone(configInfo.deployPath);
    EmptyIsAlone(configInfo.cfgPath);
    var i := 0;
    while i < |packageConfigs|
      invariant 0 <= i <= |packageConfigs|
      invariant unique && forall j :: 0 <= j < i ==> !SamePath(PathOf(packageConfigs[j]), PathOf(configInfo))
    {
      var it := packageConfigs[i];
      EmptyIsAlone(it.deployPath);
      EmptyIsAlone(it.cfgPath);
      if usingDeployPath && SamePath(configInfo.deployPath, it.deployPath) {
        return false;
      } else if configInfo.cfgPath != "" && SamePath(configInfo.cfgPath, it.cfgPath) {
        return false;
      } else if usingDeployPath && SamePath(configInfo.deployPath, it.cfgPath) {
        return false;
      } else if configInfo.cfgPath != "" && SamePath(configInfo.cfgPath, it.deployPath) {
        return false;
      }
      i := i + 1;
    }
  }

  lemma EmptyIsAlone(path: string)
    ensures path != "" ==> Collapse(path) != ""
  {
    if path != "" {
      CollapseStarts(path);
    }
  }

  predicate AllOnePath(list: seq<PackageConfig>) {
    forall i :: 0 <= i < |list| ==> OnePath(list[i])
  }

  /** The inner loop: the files of one configurable are added. */
  method AddFiles(c: Configurable, usingDeployPath: bool, folderId: FolderId, discoveredFiles: seq<string>,
                  configs: seq<PackageConfig>)
    returns (result: Result<seq<PackageConfig>>)
    requires AllOnePath(configs) && NoneEmpty(discoveredFiles)
    ensures result == AddEntries(configs, EntriesOf(c, usingDeployPath, folderId, discoveredFiles))
    ensures result.Ok? ==> AllOnePath(result.value)
  {
    var packageConfigs := configs;
    var files := discoveredFiles;
    ghost var all := AddEntries(configs, EntriesOf(c, usingDeployPath, folderId, discoveredFiles));
    while files != []
      invariant NoneEmpty(files)
      invariant AllOnePath(packageConfigs)
      invariant all == AddEntries(packageConfigs, EntriesOf(c, usingDeployPath, folderId, files))
      decreases |files|
    {
      var file := files[0];
      var entries := EntriesOf(c, usingDeployPath, folderId, files[1..]);
      AddCons(packageConfigs, EntryOf(c, usingDeployPath, folderId, file), entries);
      var unresolved := Unresolve(Generic(file), folderId);
      if unresolved.None? {
        return OutOfRange;
      }
      var configInfo := Entry(c, usingDeployPath, file, unresolved.value);
      var unique := IsUnique(configInfo, usingDeployPath, packageConfigs);
      if unique {
        packageConfigs := packageConfigs + [configInfo];
      }
      files := files[1..];
    }
    return Ok(packageConfigs);
  }

  lemma AddCons(list: seq<PackageConfig>, entry: Result<PackageConfig>, entries: seq<Result<PackageConfig>>)
    ensures AddEntries(list, [entry] + entries) ==
      if entry.Ok? then AddEntries(AddEntry(list, entry.value), entries) else OutOfRange
  {
    assert ([entry] + entries)[1..] == entries;
  }

  lemma {:induction false} AddAppends(list: seq<PackageConfig>, a: seq<Result<PackageConfig>>,
                                      b: seq<Result<PackageConfig>>)
    ensures AddEntries(list, a + b) ==
      match AddEntries(list, a)
      case Ok(l) => AddEntries(l, b)
      case OutOfRange => OutOfRange
    decreases |a|
  {
    if a == [] {
      assert a + b == b;
    } else {
      assert (a + b)[1..] == a[1..] + b;
      if a[0].Ok? {
        AddAppends(AddEntry(list, a[0].value), a[1..], b);
      }
    }
  }

  /** The files of one configurable: the deploy path, else the configured path, at most so many. */
  method ChooseFiles(files: Files, c: Configurable)
    returns (usingDeployPath: bool, folderId: FolderId, discoveredFiles: seq<string>)
    ensures usingDeployPath == UsesDeployPath(files, c)
    ensures folderId == IdOf(files, c) && discoveredFiles == FilesOf(files, c)
    ensures usingDeployPath <==> c.deployPath != "" && SomeValid(files, files.glob(c.deployPath))
    ensures FirstOnes(files, files.glob(if usingDeployPath then c.deployPath else c.cfgPath),
                      if c.maxInstances == 0 then 1 else c.maxInstances, discoveredFiles)
  {
    FilesAreTheFirst(files, c);
    usingDeployPath, folderId, discoveredFiles := false, FolderId("", ""), [];
    if c.deployPath != "" {
      folderId, discoveredFiles := ResolveAndDiscover(files, c.unresolvedDeployPath, c.deployPath);
      usingDeployPath := |discoveredFiles| > 0;
    }
    if !usingDeployPath {
      folderId, discoveredFiles := ResolveAndDiscover(files, c.unresolvedCfgPath, c.cfgPath);
    }
    if |discoveredFiles| > c.maxInstances {
      if c.maxInstances == 0 {
        discoveredFiles := discoveredFiles[..1];
      } else {
        discoveredFiles := discoveredFiles[..c.maxInstances];
      }
    }
  }

  method DiscoverPackageConfigurables(files: Files, configurables: seq<Configurable>, configs: seq<PackageConfig>)
    returns (result: Result<seq<PackageConfig>>)
    requires AllOnePath(configs)
    ensures result == AddEntries(configs, AllEntries(files, configurables))
    ensures result.Ok? ==> AllOnePath(result.value)
  {
    result := Ok(configs);
    var remaining := configurables;
    while remaining != []
      invariant result.Ok? && AllOnePath(result.value)
      invariant AddEntries(configs, AllEntries(files, configurables))
             == AddEntries(result.value, AllEntries(files, remaining))
      decreases |remaining|
    {
      var usingDeployPath, folderId, discoveredFiles := ChooseFiles(files, remaining[0]);
      AddAppends(result.value, EntriesOfOne(files, remaining[0]), AllEntries(files, remaining[1..]));
      result := AddFiles(remaining[0], usingDeployPath, folderId, discoveredFiles, result.value);
      if result.OutOfRange? {
        return;
      }
      remaining := remaining[1..];
    }
  }

  // --------------------------------------------------------------- properties

  /** Order-preserving removal of duplicates: an entry stays if no entry before it has its path. */
  function FirstOfEachPath(es: seq<PackageConfig>): seq<PackageConfig> {
    if es == [] then []
    else
      var before := es[..|es| - 1];
      if Known(before, es[|es| - 1]) then FirstOfEachPath(before) else FirstOfEachPath(before) + [es[|es| - 1]]
  }

  predicate DistinctPaths(list: seq<PackageConfig>) {
    forall i, j :: 0 <= i < j < |list| ==> !SamePath(PathOf(list[i]), PathOf(list[j]))
  }

  lemma FirstsSnoc(es: seq<PackageConfig>, e: PackageConfig)
    ensures FirstOfEachPath(es + [e]) == if Known(es, e) then FirstOfEachPath(es) else FirstOfEachPath(es) + [e]
  {
    assert (es + [e])[..|es + [e]| - 1] == es;
  }

  /** The kept entries have the same paths as all of them ... */
  lemma {:induction false} FirstsKnow(es: seq<PackageConfig>, e: PackageConfig)
    ensures Known(FirstOfEachPath(es), e) <==> Known(es, e)
    decreases |es|
  {
    if es != [] {
      var before, last := es[..|es| - 1], es[|es| - 1];
      assert es == before + [last];
      FirstsKnow(before, e);
      FirstsSnoc(before, last);
      KnownSnoc(before, last, e);
      if Known(before, last) {
        if SamePath(PathOf(last), PathOf(e)) {
          KnownOfSame(before, last, e);
        }
      } else {
        KnownSnoc(FirstOfEachPath(before), last, e);
      }
    }
  }

  lemma DistinctSnoc(list: seq<PackageConfig>, e: PackageConfig)
    requires DistinctPaths(list) && !Known(list, e)
    ensures DistinctPaths(list + [e])
  {
  }

  /** ... and each path once. */
  lemma {:induction false} FirstsAreDistinct(es: seq<PackageConfig>)
    ensures DistinctPaths(FirstOfEachPath(es))
    decreases |es|
  {
    if es != [] {
      var before, last := es[..|es| - 1], es[|es| - 1];
      FirstsAreDistinct(before);
      FirstsKnow(before, last);
      if !Known(before, last) {
        DistinctSnoc(FirstOfEachPath(before), last);
      }
    }
  }

  lemma KnownSnoc(list: seq<PackageConfig>, last: PackageConfig, e: PackageConfig)
    ensures Known(list + [last], e) <==> Known(list, e) || SamePath(PathOf(last), PathOf(e))
  {
    var longer := list + [last];
    if Known(list, e) {
      var i :| 0 <= i < |list| && SamePath(PathOf(list[i]), PathOf(e));
      assert longer[i] == list[i];
    }
    if SamePath(PathOf(last), PathOf(e)) {
      assert longer[|list|] == last;
    }
  }

  lemma KnownOfSame(list: seq<PackageConfig>, a: PackageConfig, b: PackageConfig)
    requires SamePath(PathOf(a), PathOf(b))
    ensures Known(list, a) <==> Known(list, b)
  {
  }

  function Oks(es: seq<PackageConfig>): seq<Result<PackageConfig>> {
    if es == [] then [] else [Ok(es[0])] + Oks(es[1..])
  }

  lemma AddFirst(done: seq<PackageConfig>, e: PackageConfig)
    ensures AddEntry(FirstOfEachPath(done), e) == FirstOfEachPath(done + [e])
  {
    FirstsKnow(done, e);
    FirstsSnoc(done, e);
  }

  lemma MoveOne<T>(done: seq<T>, rest: seq<T>)
    requires rest != []
    ensures done + [rest[0]] + rest[1..] == done + rest
  {
  }

  /** Adding one by one is keeping the first of each path. */
  lemma {:induction false} AddingKeepsFirsts(done: seq<PackageConfig>, es: seq<PackageConfig>)
    ensures AddEntries(FirstOfEachPath(done), Oks(es)) == Ok(FirstOfEachPath(done + es))
    decreases |es|
  {
    if es == [] {
      assert done + es == done;
    } else {
      AddFirst(done, es[0]);
      AddCons(FirstOfEachPath(done), Ok(es[0]), Oks(es[1..]));
      AddingKeepsFirsts(done + [es[0]], es[1..]);
      MoveOne(done, es);
    }
  }

  /** A discovery whose reported paths can all be built: the entries of all chosen files, in order. */
  predicate AllBuilt(entries: seq<Result<PackageConfig>>) {
    forall i :: 0 <= i < |entries| ==> entries[i].Ok?
  }

  function Built(entries: seq<Result<PackageConfig>>): (es: seq<PackageConfig>)
    requires AllBuilt(entries)
    ensures Oks(es) == entries
  {
    if entries == [] then []
    else
      var rest := Built(entries[1..]);
      assert ([entries[0].value] + rest)[1..] == rest;
      [entries[0].value] + rest
  }

  lemma {:induction false} FailsUnlessBuilt(list: seq<PackageConfig>, entries: seq<Result<PackageConfig>>)
    ensures AddEntries(list, entries).Ok? <==> AllBuilt(entries)
    decreases |entries|
  {
    if entries != [] && entries[0].Ok? {
      FailsUnlessBuilt(AddEntry(list, entries[0].value), entries[1..]);
      assert AllBuilt(entries) <==> AllBuilt(entries[1..]);
    }
  }

  predicate LongEnough(folderId: FolderId, chosen: seq<string>) {
    folderId.id == "" || forall i :: 0 <= i < |chosen| ==> |folderId.conversion| <= |Generic(chosen[i])|
  }

  lemma {:induction false} EntriesBuiltIff(c: Configurable, atDeployPath: bool, folderId: FolderId, chosen: seq<string>)
    ensures AllBuilt(EntriesOf(c, atDeployPath, folderId, chosen)) <==> LongEnough(folderId, chosen)
    decreases |chosen|
  {
    if chosen != [] {
      var entries := EntriesOf(c, atDeployPath, folderId, chosen);
      EntriesBuiltIff(c, atDeployPath, folderId, chosen[1..]);
      assert entries[1..] == EntriesOf(c, atDeployPath, folderId, chosen[1..]);
      assert AllBuilt(entries) <==> entries[0].Ok? && AllBuilt(entries[1..]);
      assert LongEnough(folderId, chosen)
        <==> (folderId.id == "" || |folderId.conversion| <= |Generic(chosen[0])|) && LongEnough(folderId, chosen[1..]);
    }
  }

  /** Every chosen file of a configurable is at least as long as what its folder id replaces. */
  predicate CanReport(files: Files, c: Configurable) {
    LongEnough(IdOf(files, c), FilesOf(files, c))
  }

  predicate AllCanReport(files: Files, cs: seq<Configurable>) {
    forall i :: 0 <= i < |cs| ==> CanReport(files, cs[i])
  }

  lemma CanReportCons(files: Files, cs: seq<Configurable>)
    requires cs != []
    ensures AllCanReport(files, cs) <==> CanReport(files, cs[0]) && AllCanReport(files, cs[1..])
  {
  }

  lemma {:induction false} AllEntriesBuiltIff(files: Files, cs: seq<Configurable>)
    ensures AllBuilt(AllEntries(files, cs)) <==> AllCanReport(files, cs)
    decreases |cs|
  {
    if cs != [] {
      AllEntriesBuiltIff(files, cs[1..]);
      EntriesBuiltIff(cs[0], UsesDeployPath(files, cs[0]), IdOf(files, cs[0]), FilesOf(files, cs[0]));
      BuiltAppend(EntriesOfOne(files, cs[0]), AllEntries(files, cs[1..]));
      CanReportCons(files, cs);
    }
  }

  lemma BuiltAppend(a: seq<Result<PackageConfig>>, b: seq<Result<PackageConfig>>)
    ensures AllBuilt(a + b) <==> AllBuilt(a) && AllBuilt(b)
  {
    if AllBuilt(a + b) {
      forall i | 0 <= i < |a| ensures a[i].Ok? {
        assert (a + b)[i] == a[i];
      }
      forall i | 0 <= i < |b| ensures b[i].Ok? {
        assert (a + b)[|a| + i] == b[i];
      }
    }
  }

  /** The main result. Started from an empty list, the discovery is the order-preserving removal of
      duplicate paths from all chosen files; every discovered path occurs once, and an entry has exactly
      one of the two paths. It throws exactly when one of the files is shorter than the part that its
      folder id replaces. */
  lemma DiscoveryIsDeduplication(files: Files, configurables: seq<Configurable>)
    ensures
      var entries := AllEntries(files, configurables);
      var result := AddEntries([], entries);
      && (result.Ok? <==> AllBuilt(entries))
      && (AllBuilt(entries) <==> AllCanReport(files, configurables))
      && (AllBuilt(entries) ==>
            && result == Ok(FirstOfEachPath(Built(entries)))
            && DistinctPaths(result.value) && AllOnePath(result.value)
            && forall e :: Known(result.value, e) <==> Known(Built(entries), e))
  {
    var entries := AllEntries(files, configurables);
    FailsUnlessBuilt([], entries);
    AllEntriesBuiltIff(files, configurables);
    if AllBuilt(entries) {
      var es := Built(entries);
      assert [] + es == es;
      AddingKeepsFirsts([], es);
      FirstsAreDistinct(es);
      forall e ensures Known(FirstOfEachPath(es), e) <==> Known(es, e) {
        FirstsKnow(es, e);
      }
      AllEntriesOnePath(files, configurables);
      BuiltOnePath(entries);
      FirstsOnePath(es);
    }
  }

  predicate OnePathIfBuilt(entries: seq<Result<PackageConfig>>) {
    forall i :: 0 <= i < |entries| && entries[i].Ok? ==> OnePath(entries[i].value)
  }

  lemma {:induction false} EntriesOnePath(c: Configurable, atDeployPath: bool, folderId: FolderId, chosen: seq<string>)
    requires NoneEmpty(chosen)
    ensures OnePathIfBuilt(EntriesOf(c, atDeployPath, folderId, chosen))
    decreases |chosen|
  {
    if chosen != [] {
      EntriesOnePath(c, atDeployPath, folderId, chosen[1..]);
    }
  }

  lemma {:induction false} AllEntriesOnePath(files: Files, cs: seq<Configurable>)
    ensures OnePathIfBuilt(AllEntries(files, cs))
    decreases |cs|
  {
    if cs != [] {
      AllEntriesOnePath(files, cs[1..]);
      EntriesOnePath(cs[0], UsesDeployPath(files, cs[0]), IdOf(files, cs[0]), FilesOf(files, cs[0]));
    }
  }

  lemma {:induction false} BuiltOnePath(entries: seq<Result<PackageConfig>>)
    requires AllBuilt(entries) && OnePathIfBuilt(entries)
    ensures AllOnePath(Built(entries))
    decreases |entries|
  {
    if entries != [] {
      BuiltOnePath(entries[1..]);
    }
  }

  lemma {:induction false} FirstsOnePath(es: seq<PackageConfig>)
    requires AllOnePath(es)
    ensures AllOnePath(FirstOfEachPath(es))
    decreases |es|
  {
    if es != [] {
      FirstsOnePath(es[..|es| - 1]);
    }
  }

  // -------------------------------------------------- what the entries tell

  /** What an entry says of one file of a configurable; the configured path of the product goes with a file that
      was found at the deploy path. */
  predicate EntryTells(files: Files, c: Configurable, file: string, e: PackageConfig) {
    if UsesDeployPath(files, c) then
      && e.isDiscoveredAtDeployPath && e.deployPath == file && e.cfgPath == ""
      && e.unresolvedCfgPath == c.unresolvedCfgPath
    else
      !e.isDiscoveredAtDeployPath && e.cfgPath == file && e.deployPath == "" && e.unresolvedDeployPath == ""
  }

  ghost predicate HasOrigin(files: Files, cs: seq<Configurable>, e: PackageConfig) {
    exists i, k ::
      0 <= i < |cs| && 0 <= k < |FilesOf(files, cs[i])| && EntryTells(files, cs[i], FilesOf(files, cs[i])[k], e)
  }

  ghost predicate AllHaveOrigin(files: Files, cs: seq<Configurable>, entries: seq<Result<PackageConfig>>) {
    forall j :: 0 <= j < |entries| && entries[j].Ok? ==> HasOrigin(files, cs, entries[j].value)
  }

  lemma {:induction false} FilesHaveOrigin(files: Files, cs: seq<Configurable>, i: nat, k: nat)
    requires i < |cs| && k <= |FilesOf(files, cs[i])|
    ensures AllHaveOrigin(files, cs,
      EntriesOf(cs[i], UsesDeployPath(files, cs[i]), IdOf(files, cs[i]), FilesOf(files, cs[i])[k..]))
    decreases |FilesOf(files, cs[i])| - k
  {
    var chosen := FilesOf(files, cs[i]);
    if k < |chosen| {
      assert chosen[k..][1..] == chosen[k + 1..];
      FilesHaveOrigin(files, cs, i, k + 1);
      var entry := EntryOf(cs[i], UsesDeployPath(files, cs[i]), IdOf(files, cs[i]), chosen[k]);
      assert entry.Ok? ==> EntryTells(files, cs[i], chosen[k], entry.value);
    }
  }

  lemma {:induction false} EntriesHaveOrigin(files: Files, cs: seq<Configurable>, i: nat)
    requires i <= |cs|
    ensures AllHaveOrigin(files, cs, AllEntries(files, cs[i..]))
    decreases |cs| - i
  {
    if i < |cs| {
      assert cs[i..][1..] == cs[i + 1..];
      assert FilesOf(files, cs[i])[0..] == FilesOf(files, cs[i]);
      FilesHaveOrigin(files, cs, i, 0);
      EntriesHaveOrigin(files, cs, i + 1);
    }
  }

  lemma {:induction false} AddingKeepsOrigin(files: Files, cs: seq<Configurable>, list: seq<PackageConfig>,
                                             entries: seq<Result<PackageConfig>>)
    requires (forall i :: 0 <= i < |list| ==> HasOrigin(files, cs, list[i])) && AllHaveOrigin(files, cs, entries)
    ensures
      var result := AddEntries(list, entries);
      result.Ok? ==> forall i :: 0 <= i < |result.value| ==> HasOrigin(files, cs, result.value[i])
    decreases |entries|
  {
    if entries != [] && entries[0].Ok? {
      AddingKeepsOrigin(files, cs, AddEntry(list, entries[0].value), entries[1..]);
    }
  }

  /** Every entry that a discovery returns is that of a chosen file of one of the configurables. */
  lemma EveryEntryHasOrigin(files: Files, configurables: seq<Configurable>)
    ensures
      var result := AddEntries([], AllEntries(files, configurables));
      result.Ok? ==> forall i :: 0 <= i < |result.value| ==> HasOrigin(files, configurables, result.value[i])
  {
    assert configurables[0..] == configurables;
    EntriesHaveOrigin(files, configurables, 0);
    AddingKeepsOrigin(files, configurables, [], AllEntries(files, configurables));
  }

  /** The entries are in the order of the files, ... */
  lemma {:induction false} EntriesAreInOrder(c: Configurable, atDeployPath: bool, folderId: FolderId,
                                             chosen: seq<string>, k: nat)
    requires k < |chosen|
    ensures
      var entries := EntriesOf(c, atDeployPath, folderId, chosen);
      |entries| == |chosen| && entries[k] == EntryOf(c, atDeployPath, folderId, chosen[k])
    decreases |chosen|
  {
    if |chosen| > 1 {
      EntriesAreInOrder(c, atDeployPath, folderId, chosen[1..], if k == 0 then 0 else k - 1);
    }
  }

  /** ... and those of the configurables behind each other. */
  lemma {:induction false} AllEntriesAppend(files: Files, a: seq<Configurable>, b: seq<Configurable>)
    ensures AllEntries(files, a + b) == AllEntries(files, a) + AllEntries(files, b)
    decreases |a|
  {
    if a == [] {
      assert a + b == b;
    } else {
      assert (a + b)[1..] == a[1..] + b;
      AllEntriesAppend(files, a[1..], b);
    }
  }

  lemma EntriesOfOneAlone(files: Files, c: Configurable)
    ensures AllEntries(files, [c]) == EntriesOf(c, UsesDeployPath(files, c), IdOf(files, c), FilesOf(files, c))
  {
    assert [c][1..] == [];
  }

  /** generic_u8string keeps the path and has no two separators in a row. */
  lemma {:induction false} GenericHasSingleSeparators(path: string)
    ensures SamePath(Generic(path), path)
    ensures forall i :: 0 <= i < |Generic(path)| - 1 ==> !(Generic(path)[i] == '/' && Generic(path)[i + 1] == '/')
    decreases |path|
  {
    CollapseIsDone(path);
    if |path| > 1 {
      GenericHasSingleSeparators(path[1..]);
      CollapseStarts(path[1..]);
    }
  }

  // ------------------------------------------------ the round trip of the entries

  /** The path that is reported for an entry, with the folder id in it. */
  function ReportedPath(e: PackageConfig): string {
    if e.isDiscoveredAtDeployPath then e.unresolvedDeployPath else e.unresolvedCfgPath
  }

  /** A configured path as RoundTrip has it: an id and a rest that first occurs behind the folder. */
  predicate Configured(unresolvedPath: string, path: string, name: string, rest: string, folders: Folders) {
    && name != "" && Lacks(name, '>') && PlainFolder(name, folders) && TagFree(rest, MARKER)
    && unresolvedPath == Tag(MARKER, name) + rest && path == KnownFolder(name, folders) + rest
    && !SamePath(unresolvedPath, path)
    && Search(path, rest) == Some(|KnownFolder(name, folders)|)
  }

  /** A file in a folder, with no id in its name. */
  predicate InFolder(file: string, folder: string) {
    |folder| <= |file| && file[..|folder|] == folder && TagFree(file[|folder|..], MARKER)
  }

  function UnresolvedUsed(files: Files, c: Configurable): string {
    if UsesDeployPath(files, c) then c.unresolvedDeployPath else c.unresolvedCfgPath
  }

  function PathUsed(files: Files, c: Configurable): string {
    if UsesDeployPath(files, c) then c.deployPath else c.cfgPath
  }

  /** A file for which the round trip is meant: either the path that a configurable uses is as RoundTrip has it
      and the file is in its folder, or the path has no id to resolve and the file has none in its name. */
  ghost predicate GoesBack(unresolvedPath: string, path: string, file: string, folders: Folders) {
    || (SamePath(unresolvedPath, path) && TagFree(file, MARKER))
    || exists name, rest ::
         Configured(unresolvedPath, path, name, rest, folders) && InFolder(file, KnownFolder(name, folders))
  }

  ghost predicate AllGoBack(unresolvedPath: string, path: string, chosen: seq<string>, folders: Folders) {
    forall i :: 0 <= i < |chosen| ==> GoesBack(unresolvedPath, path, Generic(chosen[i]), folders)
  }

  predicate ResolvesBack(e: PackageConfig, folders: Folders) {
    ResolvePath(ReportedPath(e), MARKER, folders) == Generic(PathOf(e))
  }

  predicate AllResolveBack(list: seq<PackageConfig>, folders: Folders) {
    forall i :: 0 <= i < |list| ==> ResolvesBack(list[i], folders)
  }

  predicate BuiltToResolveBack(entries: seq<Result<PackageConfig>>, folders: Folders) {
    forall i :: 0 <= i < |entries| ==> entries[i].Ok? && ResolvesBack(entries[i].value, folders)
  }

  lemma FileResolvesBack(unresolvedPath: string, path: string, file: string, folders: Folders)
    requires GoesBack(unresolvedPath, path, file, folders)
    ensures
      var unresolved := Unresolve(file, FolderIdOf(unresolvedPath, path, MARKER));
      unresolved.Some? && ResolvePath(unresolved.value, MARKER, folders) == file
  {
    if !SamePath(unresolvedPath, path) {
      var name, rest :|
        Configured(unresolvedPath, path, name, rest, folders) && InFolder(file, KnownFolder(name, folders));
      var folder := KnownFolder(name, folders);
      LinuxIdIsTag("");
      assert file == folder + file[|folder|..];
      RoundTrip(MARKER, name, rest, file[|folder|..], folders);
    }
  }

  lemma {:induction false} EntriesResolveBack(c: Configurable, atDeployPath: bool, unresolvedPath: string, path: string,
                                              folders: Folders, chosen: seq<string>)
    requires AllGoBack(unresolvedPath, path, chosen, folders)
    ensures BuiltToResolveBack(EntriesOf(c, atDeployPath, FolderIdOf(unresolvedPath, path, MARKER), chosen), folders)
    decreases |chosen|
  {
    if chosen != [] {
      FileResolvesBack(unresolvedPath, path, Generic(chosen[0]), folders);
      EntriesResolveBack(c, atDeployPath, unresolvedPath, path, folders, chosen[1..]);
    }
  }

  /** All the files of a configurable, with its paths written generically. */
  ghost predicate AllOfItGoBack(files: Files, c: Configurable, folders: Folders) {
    AllGoBack(Generic(UnresolvedUsed(files, c)), Generic(PathUsed(files, c)), FilesOf(files, c), folders)
  }

  lemma OneResolvesBack(files: Files, c: Configurable, folders: Folders)
    requires AllOfItGoBack(files, c, folders)
    ensures BuiltToResolveBack(EntriesOfOne(files, c), folders)
  {
    EntriesResolveBack(c, UsesDeployPath(files, c), Generic(UnresolvedUsed(files, c)), Generic(PathUsed(files, c)),
                       folders, FilesOf(files, c));
  }

  ghost predicate AllOfThemGoBack(files: Files, cs: seq<Configurable>, folders: Folders) {
    forall i :: 0 <= i < |cs| ==> AllOfItGoBack(files, cs[i], folders)
  }

  lemma BuiltAppends(a: seq<Result<PackageConfig>>, b: seq<Result<PackageConfig>>, folders: Folders)
    requires BuiltToResolveBack(a, folders) && BuiltToResolveBack(b, folders)
    ensures BuiltToResolveBack(a + b, folders)
  {
  }

  lemma {:induction false} AllEntriesResolveBack(files: Files, cs: seq<Configurable>, folders: Folders)
    requires AllOfThemGoBack(files, cs, folders)
    ensures BuiltToResolveBack(AllEntries(files, cs), folders)
    decreases |cs|
  {
    if cs != [] {
      OneResolvesBack(files, cs[0], folders);
      AllEntriesResolveBack(files, cs[1..], folders);
      BuiltAppends(EntriesOfOne(files, cs[0]), AllEntries(files, cs[1..]), folders);
    }
  }

  lemma {:induction false} AddingResolvesBack(list: seq<PackageConfig>, entries: seq<Result<PackageConfig>>,
                                              folders: Folders)
    requires AllResolveBack(list, folders) && BuiltToResolveBack(entries, folders)
    ensures AddEntries(list, entries).Ok? && AllResolveBack(AddEntries(list, entries).value, folders)
    decreases |entries|
  {
    if entries != [] {
      AddingResolvesBack(AddEntry(list, entries[0].value), entries[1..], folders);
    }
  }

  /** The round trip of a whole discovery: when every configurable's path either is an id and a rest as RoundTrip
      has them, with its files in the folder, or has no id at all, the discovery does not throw, and the reported
      path of every entry resolves to the path at which it was discovered. */
  lemma DiscoveryResolvesBack(files: Files, configurables: seq<Configurable>, folders: Folders)
    requires AllOfThemGoBack(files, configurables, folders)
    ensures
      var result := AddEntries([], AllEntries(files, configurables));
      result.Ok? && forall i :: 0 <= i < |result.value| ==>
        SamePath(ResolvePath(ReportedPath(result.value[i]), MARKER, folders), PathOf(result.value[i]))
  {
    AllEntriesResolveBack(files, configurables, folders);
    AddingResolvesBack([], AllEntries(files, configurables), folders);
    var list := AddEntries([], AllEntries(files, configurables)).value;
    forall i | 0 <= i < |list| ensures SamePath(ResolvePath(ReportedPath(list[i]), MARKER, folders), PathOf(list[i])) {
      assert ResolvesBack(list[i], folders);
      CollapseIsDone(PathOf(list[i]));
    }
  }

  // --------------------------------------------------------- a discovery that throws

  /** The world with one file, which one pattern matches. */
  function OneFile(pattern: string, file: string): Files {
    Files(p => if p == pattern then [file] else [], p => p == file)
  }

  lemma OneFileIsChosen(c: Configurable, file: string)
    requires c.deployPath == "" && file != ""
    ensures
      var files := OneFile(c.cfgPath, file);
      !UsesDeployPath(files, c) && FilesOf(files, c) == [file]
  {
    var files := OneFile(c.cfgPath, file);
    var listed := [file];
    assert files.glob(c.cfgPath) == listed;
    assert listed[1..] == [];
    assert ValidOnes(files, listed) == [file];
  }

  lemma {:induction false} CollapseShortens(path: string)
    ensures |Collapse(path)| <= |path|
    decreases |path|
  {
    if path != "" {
      CollapseShortens(path[1..]);
    }
  }

  /** A pattern with two ids whose final star matches nothing: the file is one character shorter than the
      pattern, all of which the first id is taken to stand for, and the discovery throws. The paths have single
      separators already. */
  lemma TwoIdsThrow(home: string, stem: string) returns (files: Files, c: Configurable)
    requires home != "" && Lacks(home, '<') && Plain(home) && stem != "" && Lacks(stem, '<')
    requires Generic(home + (home + (stem + ['*']))) == home + (home + (stem + ['*']))
    requires Generic(Tag(MARKER, USER_HOME) + (Tag(MARKER, USER_HOME) + (stem + ['*'])))
          == Tag(MARKER, USER_HOME) + (Tag(MARKER, USER_HOME) + (stem + ['*']))
    ensures c.deployPath == "" && c.cfgPath == home + (home + (stem + ['*']))
    ensures ResolvePath(c.unresolvedCfgPath, MARKER, LinuxFolders(home)) == c.cfgPath
    ensures FilesOf(files, c) == [c.cfgPath[..|c.cfgPath| - 1]]
    ensures AddEntries([], AllEntries(files, [c])).OutOfRange?
  {
    var tag, rest := Tag(MARKER, USER_HOME), stem + ['*'];
    var pattern := home + (home + rest);
    LinuxIdIsTag(home);
    SecondTagIsNotFound(MARKER, USER_HOME, rest, LinuxFolders(home));
    c := Configurable("", "", pattern, tag + (tag + rest), 1);
    var file := pattern[..|pattern| - 1];
    files := OneFile(pattern, file);
    OneFileIsChosen(c, file);
    CollapseShortens(file);
    ShortFileThrows(files, c, file);
  }

  lemma ShortFileThrows(files: Files, c: Configurable, file: string)
    requires FilesOf(files, c) == [file] && IdOf(files, c).id != "" && |IdOf(files, c).conversion| > |Generic(file)|
    ensures AddEntries([], AllEntries(files, [c])).OutOfRange?
  {
    var cs := [c];
    assert FilesOf(files, cs[0])[0] == file;
    assert !CanReport(files, cs[0]);
    DiscoveryIsDeduplication(files, cs);
  }
}
