# Cloud management: verified models

Dafny models of the parts of the cloud management client whose correctness is not visible in one function:
the supervisor that keeps the package manager agent running, the walk over the bytes of a Mach-O file,
package and configuration discovery, the crash reporter's settings and the configuration file above them,
the thread timer, the certificate references, the installer choices and the line splitters. `dafny verify
dfyconfig.toml` checks everything.

## The modules

- `ProcessWait`, `Supervisor`, `SupervisorSafety`, `Destructor`, `Controller`: the agent supervisor. `Supervisor` is a
  labelled transition system with a program counter for each of the two threads, the owner of `mutex_`, the
  shared fields and all children ever forked. An action is one step between two points where the other thread
  can interfere. `SupervisorSafety` proves what every interleaving keeps, `Destructor` what destroying the
  controller does after any of them. `Controller` has `PmAgentController` and `PmControlPlugin` as classes, whose
  methods are tied to the steps of the system.
- `MachO`: an encoder from an abstract image to bytes, and the pointer walk of `codesign_bin.cpp` over them.
- `Replacement`, `FolderIds`, `Discovery`, `Inventory`: the replacement format of `std::regex_replace`, folder ids
  and their inverse, configuration files, installed packages.
- `TunerSpec`, `Tuner`, `ConfigSpec`, `DaemonConfig`: the crash reporter's settings, the configuration file,
  the watchdog and the daemon. The modules ending in `Spec` define the values, the others have the classes.
- `ThreadTimer`: any number of timer threads as a transition system with a clock.
- `Certificates`: the certificate manager and retriever over a memory that counts references and keeps contents.
- `Text`, `Lines`, `Choices`: string searches, three line splitters, the installer choices.
- `Options`, `Integers`: a value that may be missing, and the ranges of the integer types.

## Hypotheses

They are written where they are used, and nowhere else.

- Supervisor: a forked pid is new (`ForkIsFresh`); a process that was reaped cannot be signalled
  (`KillIsPossible`); a wait for a real child is not interrupted and a status after which the monitor restarts
  the agent is reported of dead processes only (`Honest`). `PosixWaitIsHonestIff` derives the last one from
  POSIX.1-2017, System Interfaces, entry "wait, waitpid", for every wait that was not interrupted, and
  `RestartIsSafeIff` shows that it is needed. Nobody calls the test helper that sets the flag from outside.
- Crash reporter: settings operations on an open database succeed.
- Crash reporter: the daemon is handed a crash reporter that has not been told a URL, a prune age or a size
  (`HasDefaults`). That is the case after any run of its other operations (`DefaultsUntilSet`), and so of what
  `main` does first (`MainInitHasDefaults`).
- Folder ids: the folder is plain (`PlainFolder`): no dollar sign in it is followed by a character that gives it a
  meaning as a replacement format. `LiteralIff` shows that this is exactly when the format stands for itself.
- Certificates: `X509_dup` succeeds, and a returned array is released once, with its count.

## Where the code falls short

Each of these is a theorem, with the exact condition where there is one.

- A wait that is interrupted by a signal makes the monitor start a second agent beside the first
  (`RestartIsSafeIff`, `InterruptedWaitStartsSecondAgent`).
- If the agent has just died and the monitor has reaped it, a `stop` that takes the mutex first finds nothing to
  kill, fails, and leaves the plugin wedged: later starts report "already started" (`StopCanRaceTheReaper`).
  Only a failed kill or a failed thread creation does that, and one is enough for ever (`TwoStatesIff`).
- Destroying the controller ends the program exactly when a kill has failed before, or fails in the destructor while
  there is a thread to join (`DestructorEndsProgramIff`).
- `get_timestamp` keeps the answer -1 in a `uint32_t`, and its test against the size of the file then wraps round
  and lets it through for every thin image without the section (`TimestampOffset`, `GuardIsRightIff`).
- A folder with a dollar sign is taken for a replacement format (`LeadingTagFormats`): `$&` in it puts the id back
  where it was to be replaced (`DollarExpands`).
- The path reported for a discovered file resolves to that file exactly when what follows the folder id does not
  occur earlier in the resolved path (`RoundTripIff`); never when the configured path is the id alone
  (`BareTagFails`). With text in front of the id, the reported id is too long, because `substr` is given an end
  where it expects a length (`InnerTagIff`, `InnerTagFails`).
- A discovered file that is shorter than what its folder id replaces makes the discovery throw
  (`DiscoveryIsDeduplication`); a path with two ids is enough for it (`TwoIdsThrow`).
- With a closing bracket in front of the id, the id found has the length up to that bracket (`FirstBracketCounts`).
- A second `init` of the crash reporter goes back to the proxy that was accepted before the first one
  (`SecondInitKeepsProxyIff`, `SecondInitForgetsProxy`).
- A timer that is stopped and started again can revive every thread that has not ended by then, and only those
  (`RestartRevivesThread`).
- `GetSslCertificates` with a null out-pointer leaks a copy of every certificate (`NothingIsLeft`, `NullGetLeaks`).

## Model

| member | source | states |
|---|---|---|
| ProcessWait.PosixWaitIsHonestIff | OSPackageManager/controlplugin/ProcessWrapperLinux.cpp:31-78 | whatever waitpid may answer under POSIX, the classified status is one the supervisor can rely on if and only if the wait was not interrupted |
| ProcessWait.StatusTells | OSPackageManager/controlplugin/ProcessWrapperLinux.cpp:44-77 | under POSIX each status arises in exactly one case: reaped by this call, exited or not; no child left, with or without a process of that number; interrupted |
| ProcessWait.EndIsNeverMissed | OSPackageManager/controlplugin/ProcessWrapperLinux.cpp:44-77 | so when the process was reaped, or neither the child nor such a process exists, the monitor restarts it; it waits again exactly for a process that exists and is no child |
| ProcessWait.OtherAnswers | OSPackageManager/controlplugin/ProcessWrapperLinux.cpp:33-72 | the impossible error exactly for the result 0, the unknown status exactly for an invalid pid or another errno |
| SupervisorSafety.StepKeepsInv | OSPackageManager/controlplugin/PmAgentController.cpp:55-154 | each step of either thread keeps the invariant: lock discipline, pid_, the target of the outstanding wait, the point the call has reached |
| SupervisorSafety.RunKeepsInv | OSPackageManager/controlplugin/PmAgentController.cpp:55-154 | so does every interleaving |
| SupervisorSafety.AtMostOneSurvivor | OSPackageManager/controlplugin/PmAgentController.cpp:103-154 | in every reachable state a forked child that lives and was not signalled is pid_, hence there is at most one |
| SupervisorSafety.StartIsAlwaysLegal | OSPackageManager/controlplugin/ModuleControlPlugin.cpp:61-87 | start forks only with pid_ invalid, the flag clear, no joinable thread and no surviving child, and never assigns a joinable thread |
| SupervisorSafety.NoForkAfterStop | OSPackageManager/controlplugin/PmAgentController.cpp:83-94 | once the flag is clear no interleaving forks before the next start |
| SupervisorSafety.SuccessfulStopIsComplete | OSPackageManager/controlplugin/PmAgentController.cpp:80-101 | a stop that entered with the flag set and reports OK leaves the flag clear, pid_ invalid, the monitor gone and every child dead or signalled |
| SupervisorSafety.StepRefines | OSPackageManager/controlplugin/ModuleControlPlugin.cpp:61-117 | each step either ends no call and keeps the mode, or answers as the abstract plugin may |
| SupervisorSafety.PluginRefines | OSPackageManager/controlplugin/ModuleControlPlugin.cpp:61-117 | the answers of every interleaving are a history of the abstract plugin |
| SupervisorSafety.TwoStatesIff | OSPackageManager/controlplugin/ModuleControlPlugin.cpp:61-117 | the plugin is the two-state machine Stopped and Started if and only if no kill of its process and no thread creation failed |
| SupervisorSafety.SmoothAnswers | OSPackageManager/controlplugin/ModuleControlPlugin.cpp:61-117 | without such a failure "already started" means Started, "not started" means Stopped, and success changes the mode |
| SupervisorSafety.MonitorLeavesAfterStop | OSPackageManager/controlplugin/PmAgentController.cpp:110-150 | after a stop whose kill succeeded the monitor completes at most two sections and takes at most nine steps |
| SupervisorSafety.QuietRun | OSPackageManager/controlplugin/PmAgentController.cpp:110-150 | the measure behind that bound falls with every monitor step and never rises |
| SupervisorSafety.MonitorCanMove | OSPackageManager/controlplugin/PmAgentController.cpp:110-150 | until it has gone the monitor can step, unless it waits for a signalled child or for the mutex |
| SupervisorSafety.NeverUnwatched | OSPackageManager/controlplugin/PmAgentController.cpp:110-150 | in every interleaving without the impossible error, as long as callers find the agent started its monitor has not gone and has not decided to go |
| SupervisorSafety.ForksAreCounted | OSPackageManager/controlplugin/PmAgentController.cpp:136-147 | fork attempts are one plus the sections that decided to restart |
| SupervisorSafety.PidIsTheLastFork | OSPackageManager/controlplugin/PmAgentController.cpp:136-147 | in every interleaving, while the flag is set pid_ is the child of the last fork attempt, or invalid if that failed; so after any number of failing forks the first that succeeds leaves its child in pid_ |
| SupervisorSafety.PidFollowsRun | OSPackageManager/controlplugin/PmAgentController.cpp:55-154 | the same from every state of the invariant |
| SupervisorSafety.SectionForksOnce | OSPackageManager/controlplugin/PmAgentController.cpp:136-147 | whatever happens meanwhile, such a section makes exactly one attempt before it ends, and the outcome is in pid_ then |
| SupervisorSafety.RetriesUntilForked | OSPackageManager/controlplugin/PmAgentController.cpp:136-147 | for any number of failures there is a run with that many failing forks and then one that succeeds |
| SupervisorSafety.RestartIsSafeIff | OSPackageManager/controlplugin/PmAgentController.cpp:110-150 | whatever a wait returns, and whatever else happens between it and the fork of its section, the restart keeps at most one survivor if and only if the process waited for is none at the fork |
| SupervisorSafety.InterruptedWaitStartsSecondAgent | OSPackageManager/controlplugin/PmAgentController.cpp:110-150 | a run from the start after which an interrupted wait leaves two unsignalled agents alive |
| SupervisorSafety.StopCanRaceTheReaper | OSPackageManager/controlplugin/PmAgentController.cpp:257-282 | a concrete run in which stop overtakes the monitor that reaped the agent, cannot kill, fails and wedges the plugin |
| Destructor.DestructorEndsProgramIff | OSPackageManager/controlplugin/PmAgentController.cpp:35-53 | after any run of calls, and in every interleaving of the destructor's stop with the monitor, the thread is still joinable when it is destroyed, which ends the program, if and only if a kill of a process failed in those calls, or fails in the destructor while there is a thread |
| Destructor.UnkilledIff | OSPackageManager/controlplugin/PmAgentController.cpp:80-101 | a kill failed in a run exactly when the run ends with stop about to fail, or with the flag clear and pid_ set |
| Controller.KillIfRunning | OSPackageManager/controlplugin/PmAgentController.cpp:161-206 | the first process with the agent's name is the one killed; an error only if that kill fails |
| Controller.PmAgentController.StartProcess | OSPackageManager/controlplugin/PmAgentController.cpp:208-255 | forks only when pid_ is invalid; pid_ is then the child or invalid |
| Controller.PmAgentController.StopProcess | OSPackageManager/controlplugin/PmAgentController.cpp:257-282 | signals pid_ and clears it, or keeps it when the kill fails; nothing to do for an invalid pid |
| Controller.PmAgentController.MonitorSection | OSPackageManager/controlplugin/PmAgentController.cpp:114-150 | the body of the critical section takes the fields along the steps of the transition system |
| Controller.PmAgentController.MonitorProcess | OSPackageManager/controlplugin/PmAgentController.cpp:103-154 | so does the loop, over any list of waits, and it leaves when the system's monitor exits |
| Controller.PmAgentController.Start | OSPackageManager/controlplugin/PmAgentController.cpp:55-78 | start takes the fields along the system's start, and succeeds exactly when nothing old stays, the fork and the thread creation work |
| Controller.PmAgentController.Stop | OSPackageManager/controlplugin/PmAgentController.cpp:80-101 | wherever the monitor is, and whatever it does before stop gets mutex_ and until join returns, the fields, monitorIteration_ among them, go along that run of the system; it fails exactly when it finds the flag set and the kill of a process fails |
| Controller.PmAgentController.Interfere | OSPackageManager/controlplugin/PmAgentController.cpp:103-154 | the monitor's own steps, one by one, take the fields and its place along any run of them |
| Controller.StopCallKeepsInv | OSPackageManager/controlplugin/PmAgentController.cpp:80-101 | what a stop leaves: the flag clear, pid_ invalid if the kill worked and else as it was when stop got mutex_, the thread joined if the flag was set, and at most two more sections of the monitor |
| Controller.StopCallIsRun | OSPackageManager/controlplugin/PmAgentController.cpp:80-101 | a stop, with what the monitor does while it waits for mutex_ and in join, is a run of the system |
| Controller.StopCanReturn | OSPackageManager/controlplugin/PmAgentController.cpp:80-101 | in every state in which stop can be called, also with mutex_ held by the monitor, there is such a run |
| Controller.MonitorCanExit | OSPackageManager/controlplugin/PmAgentController.cpp:95-99 | from where stop waits in join there is always such a run of the monitor |
| Controller.StartCallLeaves | OSPackageManager/controlplugin/PmAgentController.cpp:55-78 | what a start leaves: the child, the flag and the thread of a successful one, nothing of one that found pid_ set |
| Controller.PmControlPlugin.StartPmAgent | OSPackageManager/controlplugin/ModuleControlPlugin.cpp:44-87 | the plugin's start answers as the abstract plugin, and errors without a path for the first build |
| Controller.PmControlPlugin.StopPmAgent | OSPackageManager/controlplugin/ModuleControlPlugin.cpp:89-117 | the plugin's stop answers as the abstract plugin, fails exactly when the controller's does, and after success nothing is left over |
| MachO.FindSection | OSPackageManager/macOS/util/codesign_bin.cpp:64-100 | the section found is the first with the name in its segment, at the place the stride computes |
| MachO.FindSegment | OSPackageManager/macOS/util/codesign_bin.cpp:102-128 | the command found is the first segment with the name, past commands of any size |
| MachO.FindSegmentSection | OSPackageManager/macOS/util/codesign_bin.cpp:130-152 | the section found is that of a search of the abstract image |
| MachO.FindTsOffset | OSPackageManager/macOS/util/codesign_bin.cpp:154-183 | the offset of that section as a signed number, or -1; always -1 when the word passed down is another file's magic |
| MachO.FindTsOffsetOfImage | OSPackageManager/macOS/util/codesign_bin.cpp:154-183 | on the bytes of every thin image that has 24 bytes behind the start of each load command the walk reaches, the answer is the offset field of the first such section in the first such segment, or -1 |
| MachO.ImageIsReadable | OSPackageManager/macOS/util/codesign_bin.cpp:64-152 | an encoded image of either width, anywhere in a buffer, has every command and section where the walk looks |
| MachO.RoomIsNeeded | OSPackageManager/macOS/util/codesign_bin.cpp:113-125 | the room asked for is exactly what keeps every copy that the walk makes inside the file |
| MachO.TimestampOffset | OSPackageManager/macOS/util/codesign_bin.cpp:244-253 | on such images: the offset of the timestamp and whether the test passes; without the section it is that of -1, and the test passes |
| MachO.GuardIsRightIff | OSPackageManager/macOS/util/codesign_bin.cpp:246-249 | the test tells whether the eight bytes lie in the file if and only if the sum does not wrap round, or the file is larger than the sum, or smaller than what is left of it |
| MachO.TimestampIsUnique | OSPackageManager/macOS/util/codesign_bin.cpp:154-183 | the abstract search has at most one answer |
| MachO.HeldName | OSPackageManager/macOS/util/codesign_bin.cpp:91-94 | strcmp on a 16-byte field agrees with equality of names, even for a field without a NUL |
| MachO.SectionLayout | OSPackageManager/macOS/util/codesign_bin.cpp:158-180 | the fields of both section structures are at the offsets of mach-o/loader.h, the file offset at 48 or 40, and the sizes are 80 and 68 |
| MachO.SegmentLayout | OSPackageManager/macOS/util/codesign_bin.cpp:16-27 | the same for the segment commands, with the sections at 72 or 56 |
| MachO.HeaderLayout | OSPackageManager/macOS/util/codesign_bin.cpp:130-152 | the same for the headers: the magic bytes, ncmds at 16, the commands at 32 or 28 |
| MachO.WordBytes | OSPackageManager/macOS/util/codesign_bin.cpp:45-55 | words are little-endian in the image, and ntohl reverses their bytes |
| MachO.GetArchOffset | OSPackageManager/macOS/util/codesign_bin.cpp:29-62 | the place of the first x86 or x86-64 entry of any fat header, or none when there is no such entry |
| FolderIds.RoundTrip | OSPackageManager/linux/PmPlatformDiscovery.cpp:36-51 | for a plain folder and a configured path of one id and a rest without ids that first occurs behind the folder, the path reported for every discovered file resolves to exactly that file |
| FolderIds.RoundTripIff | OSPackageManager/linux/PmPlatformDiscovery.cpp:36-51 | for a plain folder without a less-than sign it does so if and only if the rest first occurs there |
| Replacement.LiteralIff | OSPackageManager/linux/FileUtilities.cpp:186-186 | a replacement format stands for itself, whatever is matched, if and only if no dollar sign in it has a meaning |
| Replacement.OneCharacter | OSPackageManager/linux/FileUtilities.cpp:186-186 | what each character behind a dollar sign stands for |
| Replacement.TwoDigits | OSPackageManager/linux/FileUtilities.cpp:186-186 | two digits name a group, of which there is one |
| Replacement.OtherCharacter | OSPackageManager/linux/FileUtilities.cpp:186-186 | before anything else, and at the end, a dollar sign stands for itself |
| FolderIds.LeadingTagFormats | OSPackageManager/linux/FileUtilities.cpp:177-193 | for every folder a path with a leading id resolves to the folder taken as a replacement format, and the resolved rest |
| FolderIds.LeadingTagResolves | OSPackageManager/linux/FileUtilities.cpp:177-193 | for a plain folder that is the folder and the resolved rest |
| FolderIds.DollarExpands | OSPackageManager/linux/FileUtilities.cpp:177-193 | with a folder that ends in $& the id comes back |
| FolderIds.UnknownFolderIsKept | OSPackageManager/linux/FileUtilities.cpp:177-193 | a path whose first id has no known folder stays as it is, whatever other ids it has |
| FolderIds.HomeResolves | OSPackageManager/linux/FileUtilities.cpp:57-59 | the one known id becomes the home, and stays when there is no user |
| FolderIds.LeadingTagIsFound | OSPackageManager/linux/PmPlatformDiscovery.cpp:36-51 | the id and what it stands for, as found from the two configured paths |
| FolderIds.FirstBracketCounts | OSPackageManager/linux/PmPlatformDiscovery.cpp:41-49 | wherever the marker is, the first closing bracket of the path gives the length of the id and the rest |
| FolderIds.NoIdIsFound | OSPackageManager/linux/PmPlatformDiscovery.cpp:41-49 | without the marker or any closing bracket files are reported as they are |
| FolderIds.TagFreeIsKept | OSPackageManager/linux/FileUtilities.cpp:177-193 | text without an id is left alone |
| FolderIds.TagDiffers | OSPackageManager/linux/PmPlatformDiscovery.cpp:36-36 | an absolute path never compares equal to one with a leading id, so the id is looked for |
| FolderIds.SamePathIff | OSPackageManager/linux/PmPlatformDiscovery.cpp:36-36 | paths compare equal exactly when they have the same names and both or neither start, and end, with a separator |
| FolderIds.ReportedFile | OSPackageManager/linux/PmPlatformDiscovery.cpp:109-114 | what is reported for a file, wherever the rest occurs, and what that resolves to |
| FolderIds.BareTagFails | OSPackageManager/linux/PmPlatformDiscovery.cpp:36-51 | a configured path that is an id alone never makes the round trip |
| FolderIds.InnerTagIff | OSPackageManager/linux/PmPlatformDiscovery.cpp:41-50 | with text in front of the id, and wherever the rest occurs: what is reported, and exactly when it still resolves to the file |
| FolderIds.InnerTagFails | OSPackageManager/linux/PmPlatformDiscovery.cpp:41-50 | patterns and folders with which it does not |
| FolderIds.SecondTagIsNotFound | OSPackageManager/linux/PmPlatformDiscovery.cpp:41-50 | a path with a second id resolves, but its first id is taken to stand for the whole resolved path |
| FolderIds.LinuxIdIsTag | OSPackageManager/linux/FileUtilities.cpp:57-59 | the marker and the one known name are such as the results above ask for |
| Discovery.EraseInvalid | OSPackageManager/linux/PmPlatformDiscovery.cpp:53-61 | the erasing loop keeps the valid paths, in order |
| Discovery.FindFolderId | OSPackageManager/linux/PmPlatformDiscovery.cpp:36-51 | the searches and substrings, on the generic form of the two paths, find the id and what it stands for |
| Discovery.ResolveAndDiscover | OSPackageManager/linux/PmPlatformDiscovery.cpp:25-62 | the folder id of the two paths and the valid files of the pattern |
| Discovery.ChooseFiles | OSPackageManager/linux/PmPlatformDiscovery.cpp:69-102 | in terms of what glob lists: the deploy path is used exactly when it is set and a file of its list exists; the result is the first max(1, max_instances) existing files of that list, else of the configured path's, in order |
| Discovery.FilesAreTheFirst | OSPackageManager/linux/PmPlatformDiscovery.cpp:69-102 | the same of the files that the discovery is made of |
| Discovery.IsUnique | OSPackageManager/linux/PmPlatformDiscovery.cpp:132-151 | the four comparisons together say that no entry was discovered at the same path |
| Discovery.DiscoverPackageConfigurables | OSPackageManager/linux/PmPlatformDiscovery.cpp:64-158 | the nested loops add the entries of all chosen files one by one, or throw; every entry has exactly one of the two paths |
| Discovery.EveryEntryHasOrigin | OSPackageManager/linux/PmPlatformDiscovery.cpp:105-130 | every entry returned is that of a chosen file of a configurable, with the file at the path it was found by, and the product's configured path beside a file of the deploy path |
| Discovery.EntriesAreInOrder | OSPackageManager/linux/PmPlatformDiscovery.cpp:105-105 | the entries of a configurable are in the order of its files |
| Discovery.AllEntriesAppend | OSPackageManager/linux/PmPlatformDiscovery.cpp:68-68 | those of the configurables are behind each other |
| Discovery.GenericHasSingleSeparators | OSPackageManager/linux/PmPlatformDiscovery.cpp:39-40 | the generic form of a path is the same path without two separators in a row |
| Discovery.DiscoveryIsDeduplication | OSPackageManager/linux/PmPlatformDiscovery.cpp:64-158 | from an empty list: the order-preserving removal of duplicate paths from all chosen files, each path once; throws exactly when a file is shorter than what its id replaces |
| Discovery.DiscoveryResolvesBack | OSPackageManager/linux/PmPlatformDiscovery.cpp:105-155 | when every configured path is free of ids, or is an id and a rest as in RoundTrip with its files in the folder, the discovery does not throw and every entry it returns has a reported path that resolves to the path it was discovered at |
| Discovery.TwoIdsThrow | OSPackageManager/linux/PmPlatformDiscovery.cpp:109-114 | a configured path of two ids, a rest and a star that matches nothing, with which it throws |
| Discovery.AddingKeepsFirsts | OSPackageManager/linux/PmPlatformDiscovery.cpp:132-155 | adding entries whose path is new keeps exactly the first entry of each path |
| Discovery.FirstsKnow | OSPackageManager/linux/PmPlatformDiscovery.cpp:132-155 | removing duplicates loses no path |
| Discovery.FirstsAreDistinct | OSPackageManager/linux/PmPlatformDiscovery.cpp:132-155 | the paths kept are pairwise distinct across deploy and config entries |
| Discovery.AllEntriesBuiltIff | OSPackageManager/linux/PmPlatformDiscovery.cpp:109-114 | every reported path can be built if and only if each chosen file is long enough |
| Inventory.ProcessPackageDiscovery | OSPackageManager/linux/PmPlatformDiscovery.cpp:159-177 | one identifier: nothing for a known product or an empty version, else a package with its configuration files |
| Inventory.LinuxPackages | OSPackageManager/linux/PmPlatformDiscovery.cpp:180-204 | the loops try the identifiers rule by rule, NVRA before name |
| Inventory.LinuxInventory | OSPackageManager/linux/PmPlatformDiscovery.cpp:159-208 | the inventory is the first hit of each product, in order; it throws exactly when a lookup made before a hit throws or the files of a new hit do |
| Inventory.NvraOrder | OSPackageManager/linux/PmPlatformDiscovery.cpp:190-194 | rule by rule, the i-th NVRA is the i-th to be tried, looked up as an NVRA; a hit is a version that is not empty |
| Inventory.NameOrder | OSPackageManager/linux/PmPlatformDiscovery.cpp:195-197 | the names come behind all NVRAs of their rule, looked up as names |
| Inventory.LinuxTrialsAreAll | OSPackageManager/linux/PmPlatformDiscovery.cpp:190-198 | nothing else is tried |
| Inventory.NvraDecides | OSPackageManager/linux/PmPlatformDiscovery.cpp:165-176 | the first NVRA found decides the version of a product that no earlier rule is for, whatever its names would give |
| Inventory.MacPackages | OSPackageManager/macOS/PmPlatformDiscovery.cpp:163-193 | the macOS loops look an identifier up before they ask whether the product is new |
| Inventory.MacInventory | OSPackageManager/macOS/PmPlatformDiscovery.cpp:163-201 | the same specification with membership in the package list for a hit |
| Inventory.MacOrder | OSPackageManager/macOS/PmPlatformDiscovery.cpp:163-193 | identifiers are tried rule by rule in order; one that is not listed is not looked up |
| Inventory.MacTrialsAreAll | OSPackageManager/macOS/PmPlatformDiscovery.cpp:163-193 | nothing else is tried |
| Inventory.ProcessFindsFirstHits | OSPackageManager/linux/PmPlatformDiscovery.cpp:159-204 | the specification that both platforms refine |
| Inventory.FirstHitsAreDistinct | OSPackageManager/linux/PmPlatformDiscovery.cpp:165-171 | products are unique, and every product that is hit is there |
| Inventory.EarliestHitWins | OSPackageManager/linux/PmPlatformDiscovery.cpp:165-171 | of the hits for a product the earliest is kept |
| Inventory.PmPlatformDiscovery.DiscoverOnLinux | OSPackageManager/linux/PmPlatformDiscovery.cpp:180-204 | the cache becomes the detected inventory, and stays when the discovery throws |
| Inventory.PmPlatformDiscovery.DiscoverOnMac | OSPackageManager/macOS/PmPlatformDiscovery.cpp:163-201 | the same on macOS, where listing the packages may throw as well |
| Inventory.CacheIsLastDetected | OSPackageManager/linux/PmPlatformDiscovery.cpp:203-208 | over any run the cached inventory is the last one detected |
| Tuner.CrashpadTuner.SetUploadEnabled | client/crashpad/CrashpadTuner.cpp:252-273 | field and, when the handler runs on a database, the database have the value |
| Tuner.CrashpadTuner.SetUploadUrl | client/crashpad/CrashpadTuner.cpp:275-298 | likewise for the URL |
| Tuner.CrashpadTuner.SetPruneAge | client/crashpad/CrashpadTuner.cpp:331-361 | likewise, and nothing changes for a value above INT_MAX |
| Tuner.CrashpadTuner.SetPruneDatabaseSize | client/crashpad/CrashpadTuner.cpp:363-386 | likewise for the size |
| Tuner.CrashpadTuner.Init | client/crashpad/CrashpadTuner.cpp:157-200 | what each way an init can end leaves, including a database that cannot be opened |
| Tuner.CrashpadTuner.SetupSettings | client/crashpad/CrashpadTuner.cpp:388-418 | every setting of the database becomes that of the fields |
| Tuner.CrashpadTuner.SetProxySettings | client/crashpad/CrashpadTuner.cpp:444-505 | writes the fields that mean something and leaves the others as they were |
| Tuner.CrashpadTuner.SetProxy | client/crashpad/CrashpadTuner.cpp:420-442 | accepts exactly the valid proxies; into the field or, with a database, there |
| Tuner.CrashpadTuner.UpdateProxyList | client/crashpad/CrashpadTuner.cpp:587-604 | the loop stores the first valid proxy, none for an empty list |
| Tuner.ConvertProxies | client/crashpad/CrashpadTuner.cpp:76-119 | the convertible records in order; the others are skipped |
| TunerSpec.SettingsAreTheLastAccepted | client/crashpad/CrashpadTuner.cpp:157-418 | over every run of setters and inits the fields hold the last accepted values, and so does the database whenever the handler runs on it |
| TunerSpec.StoredAfterInit | client/crashpad/CrashpadTuner.cpp:157-200 | after one successful init, anywhere in the run, the handler runs on a database from then on |
| TunerSpec.ProxyIsTracked | client/crashpad/CrashpadTuner.cpp:420-566 | over every run getProxy tells the last accepted proxy, except that an init that reaches the database goes back to the one held in the field |
| TunerSpec.ProxyIsTheLastAccepted | client/crashpad/CrashpadTuner.cpp:420-604 | with one init that opens the database, anywhere, getProxy tells the last accepted proxy, up to the fields that mean something |
| TunerSpec.ProxyIsComplete | client/crashpad/CrashpadTuner.cpp:60-74 | over every run the proxy told has a host, a port and, with authentication, both credentials, unless it is none |
| TunerSpec.CompleteProxyIsTold | client/crashpad/CrashpadTuner.cpp:420-442 | after every run each such proxy is accepted and told, and any other changes nothing |
| TunerSpec.SecondInitKeepsProxyIff | client/crashpad/CrashpadTuner.cpp:388-418 | a further init keeps the proxy if and only if it is the one held in the field |
| TunerSpec.SecondInitForgetsProxy | client/crashpad/CrashpadTuner.cpp:388-418 | a run in which it does not |
| TunerSpec.UpdateStoresFirstValid | client/crashpad/CrashpadTuner.cpp:587-604 | with an empty guid: no proxy for an empty list, else the first valid one; nothing changes if none is valid or the guid is not empty |
| TunerSpec.FirstValidIsFirstUsable | client/crashpad/CrashpadTuner.cpp:60-119 | that is the first record of a supported type with a host and a 16-bit port other than 0 |
| TunerSpec.OneRecord | client/crashpad/CrashpadTuner.cpp:76-119 | the proxy type that each record type asks for; a list of nothing but unsupported types or larger ports means no proxy |
| TunerSpec.WrittenProxyReads | client/crashpad/CrashpadTuner.cpp:444-566 | what was written reads back, over whatever the database held before; the fields that mean nothing stay as they were |
| DaemonConfig.Config.ParseLogLevel | ConfigShared/Config.cpp:66-97 | the level of the section if it is an int in 1..7, else unchanged; throws on a root or section without members |
| DaemonConfig.Config.ParseCrashPadSettings | ConfigShared/Config.cpp:99-135 | commits the settings one by one up to the first that is missing or mistyped |
| DaemonConfig.Config.Reload | ConfigShared/Config.cpp:152-170 | commits what the file commits, and nothing for a file that is missing, unreadable or throws |
| DaemonConfig.Config.OnConfigChanged | ConfigShared/Config.cpp:172-180 | the logger's level follows when the file was loaded |
| DaemonConfig.ConfigWatchdog.AddSubscriber | ConfigShared/ConfigWatchdog.cpp:14-18 | subscribers are kept in order, an empty one is ignored |
| DaemonConfig.Daemon.NotifySubscribers | ConfigShared/ConfigWatchdog.cpp:31-35 | the subscribers run in order until one throws |
| DaemonConfig.Daemon.ApplyCrashpadSettings | client/Daemon.cpp:40-51 | the settings that were committed go to the crash reporter, with the conversions of int to uint32_t and size_t |
| DaemonConfig.Daemon.ConfigCallback | client/Daemon.cpp:27-37 | the logger and the crash reporter follow the configuration |
| DaemonConfig.Daemon.constructor | client/Daemon.cpp:64-71 | the configuration is applied and the two subscribers are added in order |
| DaemonConfig.Daemon.Create | client/Daemon.cpp:55-71 | a daemon with its first file applied, or none, and nothing changed, when reading that file throws |
| ConfigSpec.SettingsFollowTheFiles | client/Daemon.cpp:27-71 | over every run of file changes and other uses of the crash reporter, from any crash reporter that was not told these settings, the level is the last committed one, and field and database have the last URL and size committed and the last prune age committed that is not negative |
| ConfigSpec.DefaultsUntilSet | client/crashpad/CrashpadTuner.cpp:157-273 | any run of the crash reporter's operations other than the three setters leaves such a one, whatever its database held |
| ConfigSpec.MainInitHasDefaults | client/main.cpp:45-61 | so does what main does before it constructs the daemon, and the handler then runs on a database exactly when it came up |
| ConfigSpec.DatabaseFollowsTheFiles | client/main.cpp:65-87 | in main's own order, with a handler that came up, the database has the last committed settings after every run of file changes and other uses |
| ConfigSpec.HandleKeepsLevel | ConfigShared/Config.cpp:66-180 | after every event the level is in 1..7 and is the logger's; a file that throws changes nothing |
| ConfigSpec.CommitIsAPrefix | ConfigShared/Config.cpp:99-135 | a later setting is committed only with the earlier ones; the prune age exactly when it is there and an int |
| ConfigSpec.LevelIsCommitted | ConfigShared/Config.cpp:66-97 | a level is committed exactly if it is under "loglevel" in the logger's section, a whole number, and in 1..7 |
| ConfigSpec.SettingsAreCommitted | ConfigShared/Config.cpp:99-135 | each setting is committed exactly if its value, of its own type, is under its own key, and the earlier ones are there |
| ConfigSpec.CompleteFileCommits | ConfigShared/Config.cpp:66-135 | a complete file commits exactly its four values |
| ConfigSpec.OtherFilesCommitNothing | ConfigShared/Config.cpp:152-170 | which files make the parser throw; they and all others commit nothing |
| ConfigSpec.DatabaseDefaults | client/main.cpp:45-87 | in main's order and without a file the database has 14 days, 50000 KB and the default URL |
| ConfigSpec.NeverLags | client/Daemon.cpp:64-70 | for every crash reporter the daemon is handed, after the constructor and after every event the logger and the crash reporter are up to date: applying the configuration again would change nothing |
| ThreadTimer.StopLimitsCallbacks | util/ThreadTimer.hpp:49-100 | in every interleaving of any number of threads, after a stop and without a later start, each thread begins at most one further callback |
| ThreadTimer.OneMoreCallback | util/ThreadTimer.hpp:97-100 | the same from the state before the stop, with the threads that can still call back |
| ThreadTimer.LateCallback | util/ThreadTimer.hpp:71-82 | the bound is met |
| ThreadTimer.RestartRevivesThread | util/ThreadTimer.hpp:49-100 | with a later start it fails: on a stopped timer that is owned, some run exceeds any bound on the further callbacks of a thread if and only if the thread has not ended |
| ThreadTimer.OneTimeCallsOnce | util/ThreadTimer.hpp:49-115 | threads started with the one-time flag set, and left set, call back at most once and never before their delay |
| ThreadTimer.DelayedCallsLate | util/ThreadTimer.hpp:56-69 | threads started while the timer is not to execute immediately never call back before their delay |
| ThreadTimer.ImmediateCallback | util/ThreadTimer.hpp:56-76 | otherwise a new thread of a timer that is not one-time can call back at once |
| ThreadTimer.CallsOnTime | util/ThreadTimer.hpp:54-92 | wherever it is, a thread of a running timer can call back exactly when that is due: at once, or an interval after its start or its last callback |
| ThreadTimer.EveryRunIsSpaced | util/ThreadTimer.hpp:71-92 | two callbacks of one thread are at least its interval apart, in every run |
| ThreadTimer.GoneIsQuiet | util/ThreadTimer.hpp:53-92 | once nobody owns or holds the timer no callback begins |
| Certificates.PmCertRetrieverImpl.LoadSystemSslCertificates | OSPackageManager/linux/PmCertRetrieverImpl.cpp:21-68 | the list grows by the store's certificates, one reference each; the store keeps none |
| Certificates.CertifiedInOrder | OSPackageManager/linux/PmCertRetrieverImpl.cpp:57-64 | the objects that are certificates are all kept, in the order of the stack |
| Certificates.PmCertRetrieverImpl.FreeSystemSslCertificates | OSPackageManager/linux/PmCertRetrieverImpl.cpp:70-78 | gives back one reference for each entry and empties the list |
| Certificates.PmCertRetrieverImpl.GetSslCertificates | OSPackageManager/linux/PmCertRetrieverImpl.cpp:80-95 | a copy of every certificate, the i-th with the content of the i-th; -1 exactly for an empty list |
| Certificates.PmCertManager.GetSslCertificates | OSPackageManager/common/PmCertManager.cpp:35-58 | the array holds the copies, content by content those of the list, and the count is its length; with a null out-pointer the copies exist all the same |
| Certificates.PmCertManager.ReleaseSslCertificates | OSPackageManager/common/PmCertManager.cpp:60-74 | gives back one reference for each entry, nulls the entries, and does nothing for a null array |
| Certificates.CallKeepsAccount | OSPackageManager/common/PmCertManager.cpp:35-79 | every call frees only what exists, and keeps each reference held exactly once |
| Certificates.ReferencesAreConserved | OSPackageManager/common/PmCertManager.cpp:35-79 | over every run the references are as many as the list and the outstanding arrays hold, and those leaked; none leaked exactly when no get of a full list has a null out-pointer |
| Certificates.NothingIsLeft | OSPackageManager/linux/PmCertRetrieverImpl.cpp:70-99 | after all releases and both destructors nothing is left, exactly under that condition |
| Certificates.EveryCallSays | OSPackageManager/common/PmCertManager.cpp:13-79 | over every run the list has the contents of the stores loaded since the last free, in order, and every array that is out has those of the list when it was got |
| Certificates.NullGetLeaks | OSPackageManager/common/PmCertManager.cpp:35-58 | one load of a store with a certificate and one get with a null out-pointer leave a copy for each |
| Certificates.OneCopyIsLeft | OSPackageManager/common/PmCertManager.cpp:35-58 | the store of one certificate as the input |
| Certificates.PerformCall | OSPackageManager/common/PmCertManager.cpp:16-74 | a call takes the memory, the retriever and the arrays that callers have along what the runs are made of |
| Certificates.Live | OSPackageManager/common/PmCertManager.cpp:13-79 | over a whole life of a manager and a retriever, with both destructors, the memory is empty exactly under that condition when every array was released |
| Lines.ParseOutput | OSPackageManager/common/CommandExec.cpp:172-181 | pushes the terminated lines and then a tail that is not empty |
| Lines.ListPackages | OSPackageManager/macOS/PmPkgUtilWrapper.cpp:93-133 | the erasing loop of both listings yields the terminated lines and drops the tail |
| Lines.SplitString | OSPackageManager/macOS/PmPkgUtilWrapper.cpp:75-90 | the same fields without the empty ones |
| Lines.SplittersAgree | OSPackageManager/macOS/PmPkgUtilWrapper.cpp:75-108 | how the three results differ, that no line holds a newline, and that lines and tail rebuild the output |
| Lines.NonEmptyIsIdentityIff | OSPackageManager/macOS/PmPkgUtilWrapper.cpp:75-90 | dropping empty lines changes nothing exactly when there are none |
| Text.TerminatedRebuilds | OSPackageManager/common/CommandExec.cpp:172-181 | the lines, ended again, and the tail are the string |
| Text.TerminatedIsUnique | OSPackageManager/common/CommandExec.cpp:172-181 | and no other pieces are |
| Choices.SanitizeParamsXml | OSPackageManager/macOS/PmPlatformComponentManager.cpp:20-50 | the map of the tokens between the marker and the next quote, empty without them, or stoi's exception |
| Choices.ReadTokens | OSPackageManager/macOS/PmPlatformComponentManager.cpp:35-48 | the getline loop inserts the tokens in order up to the first that stoi rejects |
| Choices.RenderedChoicesParse | OSPackageManager/macOS/PmPlatformComponentManager.cpp:20-50 | for every list of choices, prefix without the marker and suffix, parsing the rendered text gives the map back |
| Choices.NoChoices | OSPackageManager/macOS/PmPlatformComponentManager.cpp:23-33 | without the marker, or without a quote behind it, the map is empty |
| Choices.TokenReads | OSPackageManager/macOS/PmPlatformComponentManager.cpp:38-47 | a token says what its first two pieces say; one without an equals sign is rejected |
| Choices.FirstFailureDecides | OSPackageManager/macOS/PmPlatformComponentManager.cpp:38-47 | the first token that stoi rejects decides the exception |
| Choices.StoiReads | OSPackageManager/macOS/PmPlatformComponentManager.cpp:46-46 | stoi skips white space, takes one sign and the digits, ignores the rest, and rejects a number outside 32 bits or a missing one |
| Choices.MapOfIsLastWins | OSPackageManager/macOS/PmPlatformComponentManager.cpp:38-47 | a repeated key has its last value |
| Choices.PrintedIntReads | OSPackageManager/macOS/PmPlatformComponentManager.cpp:46-46 | stoi undoes decimal printing of every 32-bit integer |
| Text.MarkerIsFound | OSPackageManager/macOS/PmPlatformComponentManager.cpp:23-26 | a marker that ends with its only quote is found where it was put |

## Left out

- The child's side of fork and exec, pipes, and the agent itself: the parent sees a new pid or an exception.
- The delays of the monitor and of `stop`, and the condition variables of the test helpers.
- PmControlPlugin's own mutex: its calls are taken to be serialised, which is what it is for.
- In the methods of Controller the monitor takes steps only while stop waits; its other interleavings with a call are runs of the transition system.
- Recovery from a failed kill beyond the modes it leads to: nothing in the code leaves them.
- Fat files beyond the architecture offset: the fat magic is passed down to the timestamp search, which then finds nothing.
- Malformed Mach-O files: the walk has no bounds checks, and the model reads encoded images only.
- Names of 16 characters or more as the names searched for: strcmp would read on behind the field.
- Files in which a load command that the walk reaches starts fewer than 24 bytes before the end: the copy of a segment command leaves the file (RoomIsNeeded).
- generic_u8string is modelled as shortening runs of separators; for a library that does not, the results hold of paths without such runs.
- The erasing, pushing and truncating of vectors is on sequences held in variables; aliasing of the caller's vectors is not captured.
- FileSearchWithWildCard and exists are functions given to the discovery; a file system that changes during one discovery is not modelled.
- Settings operations that fail, and with them torn proxy settings.
- Calls of the crash reporter's three setters from elsewhere than the daemon, in the runs of ConfigSpec: the program has none.
- setAgentGuid, which the settings do not depend on.
- The assertions of a debug build, which end the program where a release build reports failure.
- The timer's methods are steps of a transition system rather than methods of a class, because their meaning is in the interleaving; a negative interval is not modelled.
- X509_dup that fails, and the macOS certificate retriever.
- PmPkgUtilWrapper's trim and parsePackageInfo, wrapLongPath and the commands themselves.
- Bytes and encodings of strings: a string is a sequence of characters.
- Permissions, signatures, catalog formatting, argument parsing, logging and installers: one-branch facts or foreign code.
