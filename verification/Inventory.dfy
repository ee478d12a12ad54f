/** The inventory of installed products: DiscoverInstalledPackages on Linux and on macOS, and the cache
    that both keep. */
module Inventory {
  import opened Discovery
  import opened Options

  datatype Rule = Rule(
    product: string,
    pkgnvraDiscovery: seq<string>, pkgnameDiscovery: seq<string>, pkgutilDiscovery: seq<string>,
    configurables: seq<Configurable>)

  datatype PkgIdType = NVRA | NAME

  datatype Package = Package(product: string, version: string, configs: seq<PackageConfig>)

  datatype PackageInventory = PackageInventory(packages: seq<Package>, platform: string, architecture: string)

  /** What getPackageInfo does for an identifier: a version, which may be empty, or an exception. */
  datatype Lookup = Version(version: string) | Fails

  datatype LinuxWorld = LinuxWorld(files: Files, getPackageInfo: (PkgIdType, string) -> Lookup)

  /** listPackages may throw as well. */
  datatype MacWorld = MacWorld(files: Files, listPackages: Option<seq<string>>, getPackageInfo: string -> Lookup)

  // ------------------------------------------------------------ specification

  /** What one identifier of one rule comes to: whether it is a hit, and what is thrown on the way. */
  datatype Trial = Trial(product: string, hit: bool, version: string, throws: bool, configs: Result<seq<PackageConfig>>)

  function ConfigsOf(files: Files, rule: Rule): Result<seq<PackageConfig>> {
    AddEntries([], AllEntries(files, rule.configurables))
  }

  /** On Linux a hit is a version that is not empty. */
  function LinuxTrial(w: LinuxWorld, rule: Rule, pkgType: PkgIdType, id: string): Trial {
    match w.getPackageInfo(pkgType, id)
    case Fails => Trial(rule.product, false, "", true, ConfigsOf(w.files, rule))
    case Version(v) => Trial(rule.product, v != "", v, false, ConfigsOf(w.files, rule))
  }

  /** On macOS a hit is an identifier in the package list, whatever its version. */
  function MacTrial(w: MacWorld, listed: seq<string>, rule: Rule, id: string): Trial {
    if id !in listed then Trial(rule.product, false, "", false, ConfigsOf(w.files, rule))
    else match w.getPackageInfo(id)
      case Fails => Trial(rule.product, true, "", true, ConfigsOf(w.files, rule))
      case Version(v) => Trial(rule.product, true, v, false, ConfigsOf(w.files, rule))
  }

  function LinuxTrialsOf(w: LinuxWorld, rule: Rule, pkgType: PkgIdType, ids: seq<string>): seq<Trial> {
    if ids == [] then [] else [LinuxTrial(w, rule, pkgType, ids[0])] + LinuxTrialsOf(w, rule, pkgType, ids[1..])
  }

  /** Rule by rule; within a rule every NVRA before every name. */
  function LinuxTrials(w: LinuxWorld, rules: seq<Rule>): seq<Trial> {
    if rules == [] then []
    else
      LinuxTrialsOf(w, rules[0], NVRA, rules[0].pkgnvraDiscovery)
      + (LinuxTrialsOf(w, rules[0], NAME, rules[0].pkgnameDiscovery) + LinuxTrials(w, rules[1..]))
  }

  function MacTrialsOf(w: MacWorld, listed: seq<string>, rule: Rule, ids: seq<string>): seq<Trial> {
    if ids == [] then [] else [MacTrial(w, listed, rule, ids[0])] + MacTrialsOf(w, listed, rule, ids[1..])
  }

  function MacTrials(w: MacWorld, listed: seq<string>, rules: seq<Rule>): seq<Trial> {
    if rules == [] then []
    else MacTrialsOf(w, listed, rules[0], rules[0].pkgutilDiscovery) + MacTrials(w, listed, rules[1..])
  }

  datatype State = State(uniquePks: set<string>, packages: seq<Package>)

  datatype Progress = Going(state: State) | Thrown

  /** One trial. macOS looks an identifier up before it asks whether the product is new; Linux after. */
  function Step(s: State, t: Trial, lookupFirst: bool): Progress {
    if t.throws && (lookupFirst || t.product !in s.uniquePks) then Thrown
    else if !t.hit || t.product in s.uniquePks then Going(s)
    else match t.configs
      case OutOfRange => Thrown
      case Ok(configs) => Going(State(s.uniquePks + {t.product}, s.packages + [Package(t.product, t.version, configs)]))
  }

  function Process(trials: seq<Trial>, s: State, lookupFirst: bool): Progress
    decreases |trials|
  {
    if trials == [] then Going(s)
    else match Step(s, trials[0], lookupFirst)
      case Thrown => Thrown
      case Going(s') => Process(trials[1..], s', lookupFirst)
  }

  // ------------------------------------------------------------------ methods

  lemma ProcessCons(t: Trial, rest: seq<Trial>, s: State, lookupFirst: bool)
    ensures Process([t] + rest, s, lookupFirst) ==
      match Step(s, t, lookupFirst)
      case Thrown => Thrown
      case Going(s') => Process(rest, s', lookupFirst)
  {
    assert ([t] + rest)[1..] == rest;
  }

  lemma {:induction false} ProcessAppends(a: seq<Trial>, b: seq<Trial>, s: State, lookupFirst: bool)
    ensures Process(a + b, s, lookupFirst) ==
      match Process(a, s, lookupFirst)
      case Thrown => Thrown
      case Going(s') => Process(b, s', lookupFirst)
    decreases |a|
  {
    if a == [] {
      assert a + b == b;
    } else {
      assert (a + b)[1..] == a[1..] + b;
      var p := Step(s, a[0], lookupFirst);
      if p.Going? {
        ProcessAppends(a[1..], b, p.state, lookupFirst);
      }
    }
  }

  method ProcessPackageDiscovery(w: LinuxWorld, rule: Rule, pkgIdentifier: string, pkgType: PkgIdType, s: State)
    returns (progress: Progress)
    ensures progress == Step(s, LinuxTrial(w, rule, pkgType, pkgIdentifier), false)
  {
    if rule.product in s.uniquePks {
      return Going(s);
    }
    var pkgInfo := w.getPackageInfo(pkgType, pkgIdentifier);
    if pkgInfo.Fails? {
      return Thrown;
    }
    if pkgInfo.version == "" {
      return Going(s);
    }
    var uniquePks := s.uniquePks + {rule.product};
    var configs := DiscoverPackageConfigurables(w.files, rule.configurables, []);
    if configs.OutOfRange? {
      return Thrown;
    }
    return Going(State(uniquePks, s.packages + [Package(rule.product, pkgInfo.version, configs.value)]));
  }

  method ProcessIdentifiers(w: LinuxWorld, rule: Rule, ids: seq<string>, pkgType: PkgIdType, s: State)
    returns (progress: Progress)
    ensures progress == Process(LinuxTrialsOf(w, rule, pkgType, ids), s, false)
  {
    progress := Going(s);
    var remaining := ids;
    while remaining != []
      invariant progress.Going?
      invariant Process(LinuxTrialsOf(w, rule, pkgType, ids), s, false)
             == Process(LinuxTrialsOf(w, rule, pkgType, remaining), progress.state, false)
      decreases |remaining|
    {
      ProcessCons(LinuxTrial(w, rule, pkgType, remaining[0]), LinuxTrialsOf(w, rule, pkgType, remaining[1..]),
                  progress.state, false);
      progress := ProcessPackageDiscovery(w, rule, remaining[0], pkgType, progress.state);
      if progress.Thrown? {
        return;
      }
      remaining := remaining[1..];
    }
  }

  method LinuxPackages(w: LinuxWorld, rules: seq<Rule>) returns (progress: Progress)
    ensures progress == Process(LinuxTrials(w, rules), State({}, []), false)
  {
    progress := Going(State({}, []));
    var remaining := rules;
    while remaining != []
      invariant progress.Going?
      invariant Process(LinuxTrials(w, rules), State({}, []), false)
             == Process(LinuxTrials(w, remaining), progress.state, false)
      decreases |remaining|
    {
      var rule := remaining[0];
      ghost var names := LinuxTrialsOf(w, rule, NAME, rule.pkgnameDiscovery);
      ghost var later := LinuxTrials(w, remaining[1..]);
      ProcessAppends(LinuxTrialsOf(w, rule, NVRA, rule.pkgnvraDiscovery), names + later, progress.state, false);
      progress := ProcessIdentifiers(w, rule, rule.pkgnvraDiscovery, NVRA, progress.state);
      if progress.Thrown? {
        return;
      }
      ProcessAppends(names, later, progress.state, false);
      progress := ProcessIdentifiers(w, rule, rule.pkgnameDiscovery, NAME, progress.state);
      if progress.Thrown? {
        return;
      }
      remaining := remaining[1..];
    }
  }

  method ProcessPkgutilRules(w: MacWorld, listed: seq<string>, rule: Rule, ids: seq<string>, s: State)
    returns (progress: Progress)
    ensures progress == Process(MacTrialsOf(w, listed, rule, ids), s, true)
  {
    progress := Going(s);
    var remaining := ids;
    while remaining != []
      invariant progress.Going?
      invariant Process(MacTrialsOf(w, listed, rule, ids), s, true)
             == Process(MacTrialsOf(w, listed, rule, remaining), progress.state, true)
      decreases |remaining|
    {
      var pkgId := remaining[0];
      var state := progress.state;
      ProcessCons(MacTrial(w, listed, rule, pkgId), MacTrialsOf(w, listed, rule, remaining[1..]), state, true);
      remaining := remaining[1..];
      if pkgId !in listed {
        continue;
      }
      var pkgInfo := w.getPackageInfo(pkgId);
      if pkgInfo.Fails? {
        return Thrown;
      }
      if rule.product in state.uniquePks {
        continue;
      }
      var uniquePks := state.uniquePks + {rule.product};
      var configs := DiscoverPackageConfigurables(w.files, rule.configurables, []);
      if configs.OutOfRange? {
        return Thrown;
      }
      progress := Going(State(uniquePks, state.packages + [Package(rule.product, pkgInfo.version, configs.value)]));
    }
  }

  method MacPackages(w: MacWorld, listed: seq<string>, rules: seq<Rule>) returns (progress: Progress)
    ensures progress == Process(MacTrials(w, listed, rules), State({}, []), true)
  {
    progress := Going(State({}, []));
    var remaining := rules;
    while remaining != []
      invariant progress.Going?
      invariant Process(MacTrials(w, listed, rules), State({}, []), true)
             == Process(MacTrials(w, listed, remaining), progress.state, true)
      decreases |remaining|
    {
      var rule := remaining[0];
      ProcessAppends(MacTrialsOf(w, listed, rule, rule.pkgutilDiscovery), MacTrials(w, listed, remaining[1..]),
                     progress.state, true);
      progress := ProcessPkgutilRules(w, listed, rule, rule.pkgutilDiscovery, progress.state);
      if progress.Thrown? {
        return;
      }
      remaining := remaining[1..];
    }
  }

  // ---------------------------------------------------------------- the cache

  /** What a call of DiscoverInstalledPackages ends with. */
  datatype Answer = Detected(inventory: PackageInventory) | Exception

  function AnswerOf(p: Progress, platform: string, architecture: string): Answer {
    match p
    case Thrown => Exception
    case Going(s) => Detected(PackageInventory(s.packages, platform, architecture))
  }

  function LinuxAnswer(w: Option<LinuxWorld>, rules: seq<Rule>, arch: string): Answer {
    match w
    case None => Exception
    case Some(world) => AnswerOf(Process(LinuxTrials(world, rules), State({}, []), false), "linux", arch)
  }

  function MacAnswer(w: Option<MacWorld>, rules: seq<Rule>, arch: string): Answer {
    match w
    case None => Exception
    case Some(world) =>
      match world.listPackages
      case None => Exception
      case Some(listed) => AnswerOf(Process(MacTrials(world, listed, rules), State({}, []), true), "darwin", arch)
  }

  function CacheAfter(cached: PackageInventory, answer: Answer): PackageInventory {
    match answer
    case Detected(inventory) => inventory
    case Exception => cached
  }

  /** PmPlatformDiscovery. A call is given the world it meets; none stands for a null package utility. */
  class PmPlatformDiscovery {
    var lastDetectedPackages: PackageInventory

    constructor ()
      ensures lastDetectedPackages == PackageInventory([], "", "")
    {
      lastDetectedPackages := PackageInventory([], "", "");
    }

    method DiscoverOnLinux(w: Option<LinuxWorld>, catalogRules: seq<Rule>, arch: string) returns (answer: Answer)
      modifies this
      ensures answer == LinuxAnswer(w, catalogRules, arch)
      ensures lastDetectedPackages == CacheAfter(old(lastDetectedPackages), answer)
    {
      if w.None? {
        return Exception;
      }
      var progress := LinuxPackages(w.value, catalogRules);
      if progress.Thrown? {
        return Exception;
      }
      var packagesDiscovered := PackageInventory(progress.state.packages, "linux", arch);
      lastDetectedPackages := packagesDiscovered;
      return Detected(packagesDiscovered);
    }

    method DiscoverOnMac(w: Option<MacWorld>, catalogRules: seq<Rule>, arch: string) returns (answer: Answer)
      modifies this
      ensures answer == MacAnswer(w, catalogRules, arch)
      ensures lastDetectedPackages == CacheAfter(old(lastDetectedPackages), answer)
    {
      if w.None? || w.value.listPackages.None? {
        return Exception;
      }
      var progress := MacPackages(w.value, w.value.listPackages.value, catalogRules);
      if progress.Thrown? {
        return Exception;
      }
      var packagesDiscovered := PackageInventory(progress.state.packages, "darwin", arch);
      lastDetectedPackages := packagesDiscovered;
      return Detected(packagesDiscovered);
    }

    method CachedInventory() returns (inventory: PackageInventory)
      ensures inventory == lastDetectedPackages
    {
      return lastDetectedPackages;
    }
  }

  function CacheAfterAll(cached: PackageInventory, answers: seq<Answer>): PackageInventory
    decreases |answers|
  {
    if answers == [] then cached else CacheAfterAll(CacheAfter(cached, answers[0]), answers[1..])
  }

  predicate LastDetected(answers: seq<Answer>, i: int) {
    && 0 <= i < |answers| && answers[i].Detected?
    && forall j :: i < j < |answers| ==> answers[j].Exception?
  }

  /** Over any run of discoveries, some of which throw, the cache is the last inventory detected. */
  lemma {:induction false} CacheIsLastDetected(cached: PackageInventory, answers: seq<Answer>)
    ensures forall i :: LastDetected(answers, i) ==> CacheAfterAll(cached, answers) == answers[i].inventory
    ensures (forall i :: 0 <= i < |answers| ==> answers[i].Exception?) ==> CacheAfterAll(cached, answers) == cached
    decreases |answers|
  {
    if answers != [] {
      var rest := answers[1..];
      CacheIsLastDetected(CacheAfter(cached, answers[0]), rest);
      forall i | LastDetected(answers, i) ensures CacheAfterAll(cached, answers) == answers[i].inventory {
        if i > 0 {
          assert LastDetected(rest, i - 1);
        }
      }
    }
  }

  // --------------------------------------------------------------- properties

  predicate HitFor(trials: seq<Trial>, product: string) {
    exists i :: 0 <= i < |trials| && trials[i].hit && trials[i].product == product
  }

  /** The hits whose product was not hit before, in order. */
  function FirstHits(trials: seq<Trial>): seq<Trial> {
    if trials == [] then []
    else
      var before, last := trials[..|trials| - 1], trials[|trials| - 1];
      if last.hit && !HitFor(before, last.product) then FirstHits(before) + [last] else FirstHits(before)
  }

  predicate Reports(p: Package, t: Trial) {
    t.configs.Ok? && p == Package(t.product, t.version, t.configs.value)
  }

  predicate AllReported(packages: seq<Package>, hits: seq<Trial>) {
    |packages| == |hits| && forall i :: 0 <= i < |hits| ==> Reports(packages[i], hits[i])
  }

  /** The trials at which an exception ends the discovery: a lookup that is made and throws, or the
      configuration files of a new hit. */
  predicate Aborts(before: seq<Trial>, t: Trial, lookupFirst: bool) {
    || (t.throws && (lookupFirst || !HitFor(before, t.product)))
    || (t.hit && !HitFor(before, t.product) && t.configs.OutOfRange?)
  }

  predicate SomeAborts(trials: seq<Trial>, lookupFirst: bool) {
    if trials == [] then false
    else
      || SomeAborts(trials[..|trials| - 1], lookupFirst)
      || Aborts(trials[..|trials| - 1], trials[|trials| - 1], lookupFirst)
  }

  ghost predicate Describes(s: State, trials: seq<Trial>) {
    && AllReported(s.packages, FirstHits(trials))
    && forall p :: p in s.uniquePks <==> HitFor(trials, p)
  }

  lemma HitForSnoc(trials: seq<Trial>, t: Trial, product: string)
    ensures HitFor(trials + [t], product) <==> HitFor(trials, product) || (t.hit && t.product == product)
  {
    var longer := trials + [t];
    if HitFor(trials, product) {
      var i :| 0 <= i < |trials| && trials[i].hit && trials[i].product == product;
      assert longer[i] == trials[i];
    }
    if t.hit && t.product == product {
      assert longer[|trials|] == t;
    }
  }

  lemma FirstHitsSnoc(trials: seq<Trial>, t: Trial)
    ensures FirstHits(trials + [t]) ==
      if t.hit && !HitFor(trials, t.product) then FirstHits(trials) + [t] else FirstHits(trials)
  {
    var longer := trials + [t];
    assert longer[..|longer| - 1] == trials && longer[|longer| - 1] == t;
  }

  lemma DescribesOld(s: State, trials: seq<Trial>, t: Trial)
    requires Describes(s, trials) && (t.hit ==> HitFor(trials, t.product))
    ensures Describes(s, trials + [t])
  {
    FirstHitsSnoc(trials, t);
    forall p ensures p in s.uniquePks <==> HitFor(trials + [t], p) {
      HitForSnoc(trials, t, p);
    }
  }

  lemma DescribesNew(s: State, trials: seq<Trial>, t: Trial, p: Package)
    requires Describes(s, trials) && t.hit && !HitFor(trials, t.product) && Reports(p, t)
    ensures Describes(State(s.uniquePks + {t.product}, s.packages + [p]), trials + [t])
  {
    FirstHitsSnoc(trials, t);
    forall q ensures q in s.uniquePks + {t.product} <==> HitFor(trials + [t], q) {
      HitForSnoc(trials, t, q);
    }
  }

  lemma DescribesStep(s: State, trials: seq<Trial>, t: Trial, lookupFirst: bool)
    requires Describes(s, trials) && (t.throws && !lookupFirst ==> !t.hit)
    ensures Step(s, t, lookupFirst).Thrown? <==> Aborts(trials, t, lookupFirst)
    ensures Step(s, t, lookupFirst).Going? ==> Describes(Step(s, t, lookupFirst).state, trials + [t])
  {
    assert t.product in s.uniquePks <==> HitFor(trials, t.product);
    if Step(s, t, lookupFirst).Going? {
      if t.hit && t.product !in s.uniquePks {
        DescribesNew(s, trials, t, Package(t.product, t.version, t.configs.value));
      } else {
        DescribesOld(s, trials, t);
      }
    }
  }

  /** Where the lookup comes second, one that throws is not a hit. */
  predicate FailureIsNoHit(trials: seq<Trial>, lookupFirst: bool) {
    forall i :: 0 <= i < |trials| && trials[i].throws && !lookupFirst ==> !trials[i].hit
  }

  /** The specification that both platforms refine: the discovery throws exactly when one of the trials
      aborts it; otherwise its packages are the first hits, one for each, in order. */
  lemma {:induction false} ProcessFindsFirstHits(trials: seq<Trial>, lookupFirst: bool)
    requires FailureIsNoHit(trials, lookupFirst)
    ensures Process(trials, State({}, []), lookupFirst).Thrown? <==> SomeAborts(trials, lookupFirst)
    ensures Process(trials, State({}, []), lookupFirst).Going? ==>
      Describes(Process(trials, State({}, []), lookupFirst).state, trials)
    decreases |trials|
  {
    if trials != [] {
      var before, last := trials[..|trials| - 1], trials[|trials| - 1];
      assert trials == before + [last];
      ProcessFindsFirstHits(before, lookupFirst);
      ProcessAppends(before, [last], State({}, []), lookupFirst);
      var p := Process(before, State({}, []), lookupFirst);
      if p.Going? {
        ProcessLast(last, p.state, lookupFirst);
        DescribesStep(p.state, before, last, lookupFirst);
      }
    }
  }

  lemma ProcessLast(t: Trial, s: State, lookupFirst: bool)
    ensures Process([t], s, lookupFirst) == Step(s, t, lookupFirst)
  {
    assert [t] == [t] + [];
    ProcessCons(t, [], s, lookupFirst);
  }

  predicate DistinctProducts(trials: seq<Trial>) {
    forall i, j :: 0 <= i < j < |trials| ==> trials[i].product != trials[j].product
  }

  /** Every product that is hit has exactly one first hit. */
  lemma {:induction false} FirstHitsAreDistinct(trials: seq<Trial>)
    ensures DistinctProducts(FirstHits(trials))
    ensures forall p :: HitFor(FirstHits(trials), p) <==> HitFor(trials, p)
    ensures forall t :: t in FirstHits(trials) ==> t in trials && t.hit
    decreases |trials|
  {
    if trials != [] {
      var before, last := trials[..|trials| - 1], trials[|trials| - 1];
      assert trials == before + [last];
      FirstHitsAreDistinct(before);
      var hits := FirstHits(before);
      forall p ensures HitFor(FirstHits(trials), p) <==> HitFor(trials, p) {
        HitForSnoc(before, last, p);
        HitForSnoc(hits, last, p);
      }
      if last.hit && !HitFor(before, last.product) {
        DistinctSnoc(hits, last);
      }
    }
  }

  lemma DistinctSnoc(hits: seq<Trial>, t: Trial)
    requires DistinctProducts(hits) && !HitFor(hits, t.product) && forall h :: h in hits ==> h.hit
    ensures DistinctProducts(hits + [t])
  {
  }

  /** Of the hits for a product, the earliest is the one reported. */
  lemma {:induction false} EarliestHitWins(trials: seq<Trial>, i: nat)
    requires i < |trials| && trials[i].hit && !HitFor(trials[..i], trials[i].product)
    ensures trials[i] in FirstHits(trials)
    decreases |trials|
  {
    var before := trials[..|trials| - 1];
    if i < |before| {
      assert before[..i] == trials[..i];
      EarliestHitWins(before, i);
    }
  }

  lemma FailureAppends(a: seq<Trial>, b: seq<Trial>)
    requires FailureIsNoHit(a, false) && FailureIsNoHit(b, false)
    ensures FailureIsNoHit(a + b, false)
  {
  }

  lemma {:induction false} LinuxTrialsOfFail(w: LinuxWorld, rule: Rule, pkgType: PkgIdType, ids: seq<string>)
    ensures FailureIsNoHit(LinuxTrialsOf(w, rule, pkgType, ids), false)
    decreases |ids|
  {
    if ids != [] {
      LinuxTrialsOfFail(w, rule, pkgType, ids[1..]);
    }
  }

  lemma {:induction false} LinuxTrialsFail(w: LinuxWorld, rules: seq<Rule>)
    ensures FailureIsNoHit(LinuxTrials(w, rules), false)
    decreases |rules|
  {
    if rules != [] {
      var rule := rules[0];
      var names := LinuxTrialsOf(w, rule, NAME, rule.pkgnameDiscovery);
      LinuxTrialsFail(w, rules[1..]);
      LinuxTrialsOfFail(w, rule, NVRA, rule.pkgnvraDiscovery);
      LinuxTrialsOfFail(w, rule, NAME, rule.pkgnameDiscovery);
      FailureAppends(names, LinuxTrials(w, rules[1..]));
      FailureAppends(LinuxTrialsOf(w, rule, NVRA, rule.pkgnvraDiscovery), names + LinuxTrials(w, rules[1..]));
    }
  }

  /** For every catalog: the Linux inventory lists the first trial of each product whose version is not
      empty. A lookup that would throw matters only while its product has not been hit. */
  lemma LinuxInventory(w: LinuxWorld, rules: seq<Rule>, arch: string)
    ensures
      var trials := LinuxTrials(w, rules);
      var answer := LinuxAnswer(Some(w), rules, arch);
      && (answer.Exception? <==> SomeAborts(trials, false))
      && (answer.Detected? ==>
            && AllReported(answer.inventory.packages, FirstHits(trials))
            && answer.inventory.platform == "linux" && answer.inventory.architecture == arch)
      && DistinctProducts(FirstHits(trials))
  {
    LinuxTrialsFail(w, rules);
    ProcessFindsFirstHits(LinuxTrials(w, rules), false);
    FirstHitsAreDistinct(LinuxTrials(w, rules));
  }

  /** The macOS inventory meets the same specification, with membership in the package list for a hit;
      here a lookup that throws always ends the discovery. */
  lemma MacInventory(w: MacWorld, rules: seq<Rule>, arch: string)
    requires w.listPackages.Some?
    ensures
      var trials := MacTrials(w, w.listPackages.value, rules);
      var answer := MacAnswer(Some(w), rules, arch);
      && (answer.Exception? <==> SomeAborts(trials, true))
      && (answer.Detected? ==>
            && AllReported(answer.inventory.packages, FirstHits(trials))
            && answer.inventory.platform == "darwin" && answer.inventory.architecture == arch)
      && DistinctProducts(FirstHits(trials))
  {
    var trials := MacTrials(w, w.listPackages.value, rules);
    ProcessFindsFirstHits(trials, true);
    FirstHitsAreDistinct(trials);
  }

  // ------------------------------------------------------ the order of the trials

  /** What a Linux trial tells of one identifier: whether the package utility knows a version for it, looked up as
      this kind of identifier. */
  predicate LinuxTells(w: LinuxWorld, rule: Rule, pkgType: PkgIdType, id: string, t: Trial) {
    var found := w.getPackageInfo(pkgType, id);
    && t.product == rule.product && (t.throws <==> found.Fails?)
    && (t.hit <==> found.Version? && found.version != "") && (t.hit ==> t.version == found.version)
    && t.configs == AddEntries([], AllEntries(w.files, rule.configurables))
  }

  /** The number of identifiers in the rules before the r-th. */
  function LinuxStart(rules: seq<Rule>, r: nat): nat
    requires r <= |rules|
  {
    if r == 0 then 0
    else LinuxStart(rules, r - 1) + |rules[r - 1].pkgnvraDiscovery| + |rules[r - 1].pkgnameDiscovery|
  }

  /** The trials of the rules before the r-th. */
  function LinuxTrialsBefore(w: LinuxWorld, rules: seq<Rule>, r: nat): seq<Trial>
    requires r <= |rules|
  {
    if r == 0 then []
    else
      LinuxTrialsBefore(w, rules, r - 1)
      + (LinuxTrialsOf(w, rules[r - 1], NVRA, rules[r - 1].pkgnvraDiscovery)
         + LinuxTrialsOf(w, rules[r - 1], NAME, rules[r - 1].pkgnameDiscovery))
  }

  lemma {:induction false} LinuxTrialsBeforeSize(w: LinuxWorld, rules: seq<Rule>, r: nat)
    requires r <= |rules|
    ensures |LinuxTrialsBefore(w, rules, r)| == LinuxStart(rules, r)
    decreases r
  {
    if r > 0 {
      LinuxTrialsBeforeSize(w, rules, r - 1);
      LinuxTrialsSize(w, rules[r - 1], NVRA, rules[r - 1].pkgnvraDiscovery);
      LinuxTrialsSize(w, rules[r - 1], NAME, rules[r - 1].pkgnameDiscovery);
    }
  }

  lemma Regroup<T>(a: seq<T>, b: seq<T>, c: seq<T>, d: seq<T>)
    ensures (a + (b + c)) + d == a + (b + (c + d))
  {
  }

  lemma NextRule(w: LinuxWorld, rules: seq<Rule>, r: nat)
    requires r < |rules|
    ensures LinuxTrials(w, rules[r..]) ==
      LinuxTrialsOf(w, rules[r], NVRA, rules[r].pkgnvraDiscovery)
      + (LinuxTrialsOf(w, rules[r], NAME, rules[r].pkgnameDiscovery) + LinuxTrials(w, rules[r + 1..]))
  {
    assert rules[r..][0] == rules[r] && rules[r..][1..] == rules[r + 1..];
  }

  lemma {:induction false} LinuxTrialsSplit(w: LinuxWorld, rules: seq<Rule>, r: nat)
    requires r <= |rules|
    ensures LinuxTrials(w, rules) == LinuxTrialsBefore(w, rules, r) + LinuxTrials(w, rules[r..])
    decreases r
  {
    if r == 0 {
      assert rules[0..] == rules;
    } else {
      LinuxTrialsSplit(w, rules, r - 1);
      NextRule(w, rules, r - 1);
      Regroup(LinuxTrialsBefore(w, rules, r - 1),
              LinuxTrialsOf(w, rules[r - 1], NVRA, rules[r - 1].pkgnvraDiscovery),
              LinuxTrialsOf(w, rules[r - 1], NAME, rules[r - 1].pkgnameDiscovery), LinuxTrials(w, rules[r..]));
    }
  }

  lemma LinuxTrialTells(w: LinuxWorld, rule: Rule, pkgType: PkgIdType, id: string)
    ensures LinuxTells(w, rule, pkgType, id, LinuxTrial(w, rule, pkgType, id))
  {
  }

  predicate IsAt<T(==)>(s: seq<T>, at: nat, x: T) {
    at < |s| && s[at] == x
  }

  lemma IsLater<T>(a: seq<T>, b: seq<T>, at: nat, x: T)
    requires IsAt(b, at, x)
    ensures IsAt(a + b, |a| + at, x)
  {
  }

  lemma IsEarlier<T>(a: seq<T>, b: seq<T>, at: nat, x: T)
    requires IsAt(a, at, x)
    ensures IsAt(a + b, at, x)
  {
  }

  lemma {:induction false} LinuxTrialIsAt(w: LinuxWorld, rule: Rule, pkgType: PkgIdType, ids: seq<string>, i: nat)
    requires i < |ids|
    ensures IsAt(LinuxTrialsOf(w, rule, pkgType, ids), i, LinuxTrial(w, rule, pkgType, ids[i]))
    decreases |ids|
  {
    var first, later := [LinuxTrial(w, rule, pkgType, ids[0])], LinuxTrialsOf(w, rule, pkgType, ids[1..]);
    if i > 0 {
      LinuxTrialIsAt(w, rule, pkgType, ids[1..], i - 1);
      IsLater(first, later, i - 1, LinuxTrial(w, rule, pkgType, ids[i]));
    }
  }

  lemma {:induction false} LinuxTrialsSize(w: LinuxWorld, rule: Rule, pkgType: PkgIdType, ids: seq<string>)
    ensures |LinuxTrialsOf(w, rule, pkgType, ids)| == |ids|
    decreases |ids|
  {
    if ids != [] {
      LinuxTrialsSize(w, rule, pkgType, ids[1..]);
    }
  }

  lemma NvraIsAt(w: LinuxWorld, rules: seq<Rule>, r: nat, i: nat)
    requires r < |rules| && i < |rules[r].pkgnvraDiscovery|
    ensures IsAt(LinuxTrials(w, rules), LinuxStart(rules, r) + i,
                 LinuxTrial(w, rules[r], NVRA, rules[r].pkgnvraDiscovery[i]))
  {
    var x := LinuxTrial(w, rules[r], NVRA, rules[r].pkgnvraDiscovery[i]);
    var nvras := LinuxTrialsOf(w, rules[r], NVRA, rules[r].pkgnvraDiscovery);
    var later := LinuxTrialsOf(w, rules[r], NAME, rules[r].pkgnameDiscovery) + LinuxTrials(w, rules[r + 1..]);
    LinuxTrialsSplit(w, rules, r);
    LinuxTrialsBeforeSize(w, rules, r);
    NextRule(w, rules, r);
    LinuxTrialIsAt(w, rules[r], NVRA, rules[r].pkgnvraDiscovery, i);
    IsEarlier(nvras, later, i, x);
    IsLater(LinuxTrialsBefore(w, rules, r), nvras + later, i, x);
  }

  lemma NameIsAt(w: LinuxWorld, rules: seq<Rule>, r: nat, i: nat)
    requires r < |rules| && i < |rules[r].pkgnameDiscovery|
    ensures IsAt(LinuxTrials(w, rules), LinuxStart(rules, r) + |rules[r].pkgnvraDiscovery| + i,
                 LinuxTrial(w, rules[r], NAME, rules[r].pkgnameDiscovery[i]))
  {
    var x := LinuxTrial(w, rules[r], NAME, rules[r].pkgnameDiscovery[i]);
    var nvras := LinuxTrialsOf(w, rules[r], NVRA, rules[r].pkgnvraDiscovery);
    var names := LinuxTrialsOf(w, rules[r], NAME, rules[r].pkgnameDiscovery);
    var later := LinuxTrials(w, rules[r + 1..]);
    LinuxTrialsSplit(w, rules, r);
    LinuxTrialsBeforeSize(w, rules, r);
    LinuxTrialsSize(w, rules[r], NVRA, rules[r].pkgnvraDiscovery);
    NextRule(w, rules, r);
    LinuxTrialIsAt(w, rules[r], NAME, rules[r].pkgnameDiscovery, i);
    IsEarlier(names, later, i, x);
    IsLater(nvras, names + later, i, x);
    IsLater(LinuxTrialsBefore(w, rules, r), nvras + (names + later), |nvras| + i, x);
  }

  /** What the trials tell at a place. */
  predicate LinuxTellsAt(w: LinuxWorld, rule: Rule, pkgType: PkgIdType, id: string, trials: seq<Trial>, at: nat) {
    at < |trials| && LinuxTells(w, rule, pkgType, id, trials[at])
  }

  /** On Linux the identifiers are tried rule by rule, and within a rule the NVRAs, in their order, ... */
  lemma NvraOrder(w: LinuxWorld, rules: seq<Rule>, r: nat, i: nat)
    requires r < |rules| && i < |rules[r].pkgnvraDiscovery|
    ensures LinuxTellsAt(w, rules[r], NVRA, rules[r].pkgnvraDiscovery[i], LinuxTrials(w, rules),
                         LinuxStart(rules, r) + i)
  {
    NvraIsAt(w, rules, r, i);
    LinuxTrialTells(w, rules[r], NVRA, rules[r].pkgnvraDiscovery[i]);
  }

  /** ... before the names, in theirs. Each is looked up as what it is. */
  lemma NameOrder(w: LinuxWorld, rules: seq<Rule>, r: nat, i: nat)
    requires r < |rules| && i < |rules[r].pkgnameDiscovery|
    ensures LinuxTellsAt(w, rules[r], NAME, rules[r].pkgnameDiscovery[i], LinuxTrials(w, rules),
                         LinuxStart(rules, r) + |rules[r].pkgnvraDiscovery| + i)
  {
    NameIsAt(w, rules, r, i);
    LinuxTrialTells(w, rules[r], NAME, rules[r].pkgnameDiscovery[i]);
  }

  /** There are no other trials. */
  lemma LinuxTrialsAreAll(w: LinuxWorld, rules: seq<Rule>)
    ensures |LinuxTrials(w, rules)| == LinuxStart(rules, |rules|)
  {
    LinuxTrialsSplit(w, rules, |rules|);
    LinuxTrialsBeforeSize(w, rules, |rules|);
  }

  predicate AllFor(trials: seq<Trial>, product: string) {
    forall j :: 0 <= j < |trials| ==> trials[j].product == product
  }

  predicate NoneFor(trials: seq<Trial>, product: string) {
    forall j :: 0 <= j < |trials| ==> trials[j].product != product
  }

  lemma {:induction false} LinuxTrialsAreFor(w: LinuxWorld, rule: Rule, pkgType: PkgIdType, ids: seq<string>)
    ensures AllFor(LinuxTrialsOf(w, rule, pkgType, ids), rule.product)
    decreases |ids|
  {
    if ids != [] {
      LinuxTrialsAreFor(w, rule, pkgType, ids[1..]);
    }
  }

  lemma AppendNone(a: seq<Trial>, b: seq<Trial>, c: seq<Trial>, rule: string, product: string)
    requires NoneFor(a, product) && AllFor(b, rule) && AllFor(c, rule) && rule != product
    ensures NoneFor(a + (b + c), product)
  {
  }

  lemma {:induction false} EarlierRulesAreForOthers(w: LinuxWorld, rules: seq<Rule>, r: nat, product: string)
    requires r <= |rules| && forall q :: 0 <= q < r ==> rules[q].product != product
    ensures NoneFor(LinuxTrialsBefore(w, rules, r), product)
    decreases r
  {
    if r > 0 {
      var rule := rules[r - 1];
      EarlierRulesAreForOthers(w, rules, r - 1, product);
      LinuxTrialsAreFor(w, rule, NVRA, rule.pkgnvraDiscovery);
      LinuxTrialsAreFor(w, rule, NAME, rule.pkgnameDiscovery);
      AppendNone(LinuxTrialsBefore(w, rules, r - 1), LinuxTrialsOf(w, rule, NVRA, rule.pkgnvraDiscovery),
                 LinuxTrialsOf(w, rule, NAME, rule.pkgnameDiscovery), rule.product, product);
    }
  }

  predicate NoHit(trials: seq<Trial>, from: nat, to: nat) {
    from <= to <= |trials| && forall j :: from <= j < to ==> !trials[j].hit
  }

  lemma NoHitBefore(trials: seq<Trial>, before: seq<Trial>, later: seq<Trial>, end: nat, product: string)
    requires trials == before + later && NoHit(trials, |before|, end) && NoneFor(before, product)
    ensures !HitFor(trials[..end], product)
  {
    forall j | 0 <= j < |before| ensures trials[j].product != product {
      assert trials[j] == before[j];
    }
  }

  /** So an NVRA that is found decides the version of its product, whatever the names of the rule would give: when no
      earlier rule is for the product and no earlier NVRA of the rule is found. */
  lemma NvraDecides(w: LinuxWorld, rules: seq<Rule>, r: nat, i: nat, version: string)
    requires r < |rules| && i < |rules[r].pkgnvraDiscovery| && version != ""
    requires forall q :: 0 <= q < r ==> rules[q].product != rules[r].product
    requires forall j :: 0 <= j < i ==> w.getPackageInfo(NVRA, rules[r].pkgnvraDiscovery[j]) == Version("")
    requires w.getPackageInfo(NVRA, rules[r].pkgnvraDiscovery[i]) == Version(version)
    ensures
      var trials, at := LinuxTrials(w, rules), LinuxStart(rules, r) + i;
      at < |trials| && trials[at] in FirstHits(trials)
      && trials[at].product == rules[r].product && trials[at].version == version
  {
    var trials, start := LinuxTrials(w, rules), LinuxStart(rules, r);
    NvraOrder(w, rules, r, i);
    EarlierRulesAreForOthers(w, rules, r, rules[r].product);
    LinuxTrialsSplit(w, rules, r);
    LinuxTrialsBeforeSize(w, rules, r);
    forall j | start <= j < start + i ensures !trials[j].hit {
      NvraOrder(w, rules, r, j - start);
    }
    NoHitBefore(trials, LinuxTrialsBefore(w, rules, r), LinuxTrials(w, rules[r..]), start + i, rules[r].product);
    EarliestHitWins(trials, start + i);
  }

  /** What a macOS trial tells of one identifier; one that is not listed is not looked up. */
  predicate MacTells(w: MacWorld, listed: seq<string>, rule: Rule, id: string, t: Trial) {
    && t.product == rule.product && (t.hit <==> id in listed)
    && (t.throws <==> id in listed && w.getPackageInfo(id).Fails?)
    && (t.hit && !t.throws ==> w.getPackageInfo(id) == Version(t.version))
    && t.configs == AddEntries([], AllEntries(w.files, rule.configurables))
  }

  function MacStart(rules: seq<Rule>, r: nat): nat
    requires r <= |rules|
  {
    if r == 0 then 0 else MacStart(rules, r - 1) + |rules[r - 1].pkgutilDiscovery|
  }

  lemma {:induction false} MacTrialsSize(w: MacWorld, listed: seq<string>, rule: Rule, ids: seq<string>)
    ensures |MacTrialsOf(w, listed, rule, ids)| == |ids|
    decreases |ids|
  {
    if ids != [] {
      MacTrialsSize(w, listed, rule, ids[1..]);
    }
  }

  lemma MacTrialTells(w: MacWorld, listed: seq<string>, rule: Rule, id: string)
    ensures MacTells(w, listed, rule, id, MacTrial(w, listed, rule, id))
  {
  }

  lemma {:induction false} MacTrialIsAt(w: MacWorld, listed: seq<string>, rule: Rule, ids: seq<string>, i: nat)
    requires i < |ids|
    ensures IsAt(MacTrialsOf(w, listed, rule, ids), i, MacTrial(w, listed, rule, ids[i]))
    decreases |ids|
  {
    var first, later := [MacTrial(w, listed, rule, ids[0])], MacTrialsOf(w, listed, rule, ids[1..]);
    if i > 0 {
      MacTrialIsAt(w, listed, rule, ids[1..], i - 1);
      IsLater(first, later, i - 1, MacTrial(w, listed, rule, ids[i]));
    }
  }

  lemma NextMacRule(w: MacWorld, listed: seq<string>, rules: seq<Rule>, r: nat)
    requires r < |rules|
    ensures MacTrials(w, listed, rules[r..])
         == MacTrialsOf(w, listed, rules[r], rules[r].pkgutilDiscovery) + MacTrials(w, listed, rules[r + 1..])
  {
    assert rules[r..][0] == rules[r] && rules[r..][1..] == rules[r + 1..];
  }

  /** The trials from the r-th rule on are behind those before it. */
  lemma {:induction false} MacTrialsFrom(w: MacWorld, listed: seq<string>, rules: seq<Rule>, r: nat, k: nat, x: Trial)
    requires r <= |rules| && IsAt(MacTrials(w, listed, rules[r..]), k, x)
    ensures IsAt(MacTrials(w, listed, rules), MacStart(rules, r) + k, x)
    decreases r
  {
    if r == 0 {
      assert rules[0..] == rules;
    } else {
      var first := MacTrialsOf(w, listed, rules[r - 1], rules[r - 1].pkgutilDiscovery);
      MacTrialsSize(w, listed, rules[r - 1], rules[r - 1].pkgutilDiscovery);
      NextMacRule(w, listed, rules, r - 1);
      IsLater(first, MacTrials(w, listed, rules[r..]), k, x);
      MacTrialsFrom(w, listed, rules, r - 1, |first| + k, x);
    }
  }

  lemma PkgutilIsAt(w: MacWorld, listed: seq<string>, rules: seq<Rule>, r: nat, i: nat)
    requires r < |rules| && i < |rules[r].pkgutilDiscovery|
    ensures IsAt(MacTrials(w, listed, rules), MacStart(rules, r) + i,
                 MacTrial(w, listed, rules[r], rules[r].pkgutilDiscovery[i]))
  {
    var first := MacTrialsOf(w, listed, rules[r], rules[r].pkgutilDiscovery);
    var later := MacTrials(w, listed, rules[r + 1..]);
    var x := MacTrial(w, listed, rules[r], rules[r].pkgutilDiscovery[i]);
    MacTrialIsAt(w, listed, rules[r], rules[r].pkgutilDiscovery, i);
    IsEarlier(first, later, i, x);
    NextMacRule(w, listed, rules, r);
    MacTrialsFrom(w, listed, rules, r, i, x);
  }

  predicate MacTellsAt(w: MacWorld, listed: seq<string>, rule: Rule, id: string, trials: seq<Trial>, at: nat) {
    at < |trials| && MacTells(w, listed, rule, id, trials[at])
  }

  /** On macOS they are tried rule by rule, in their order. */
  lemma MacOrder(w: MacWorld, listed: seq<string>, rules: seq<Rule>, r: nat, i: nat)
    requires r < |rules| && i < |rules[r].pkgutilDiscovery|
    ensures MacTellsAt(w, listed, rules[r], rules[r].pkgutilDiscovery[i], MacTrials(w, listed, rules),
                       MacStart(rules, r) + i)
  {
    PkgutilIsAt(w, listed, rules, r, i);
    MacTrialTells(w, listed, rules[r], rules[r].pkgutilDiscovery[i]);
  }

  lemma {:induction false} MacTrialsAreAll(w: MacWorld, listed: seq<string>, rules: seq<Rule>, r: nat)
    requires r <= |rules|
    ensures MacStart(rules, r) + |MacTrials(w, listed, rules[r..])| == MacStart(rules, |rules|)
    decreases |rules| - r
  {
    if r < |rules| {
      NextMacRule(w, listed, rules, r);
      MacTrialsSize(w, listed, rules[r], rules[r].pkgutilDiscovery);
      MacTrialsAreAll(w, listed, rules, r + 1);
    }
  }
}
