# Verified model of mini-sandbox

mini-sandbox runs a program in fresh Linux namespaces. Out of a set of options it
builds a directory tree under a sandbox root, starts the program in it through a
chain of forked processes, and, in the tap variant, filters its network traffic
with a policy that a second process, written in Go, reads from a file. This project
models the three parts whose behaviour spans many functions, and proves what they
are for.

**The mount plan.** A path is a sequence of components, a mount is an entry of a
log, and a path is served by the last entry whose target covers it. `Namespace`
holds the log, the visible tree and the system calls that change them; the kernel's
answers are arbitrary. `Options`, `MountTable` and `WorkingDirChain` turn requests
into option lists, `OverlayFallback`, `MountPlan`, `Mounting` and `Leftovers` make
and carry out the plan, `PlanMeaning` says what it means for a path,
`CompletingPass` and `ReadOnlyPass` are the two modes of the pass over the mount
table, `InitFile` follows one file through all this, `HostShape` and
`OpenedHost` say on which hosts all mounts succeed, and `DefaultMode` and `OverlayMode`
put the parts together. The main results:

- every path is served as a lookup by class says: working directory, writable
  entries, overlays, left-over directories, binds (`PlanPrecedence`, `BaseMode`),
  and this survives to the finished sandbox (`FinishedByClass`,
  `FinishedSandbox`);
- the completing pass hides nothing (`PassNeverShadows`), which rests on the tree
  staying parent-closed;
- the overlay fallback is a cut of the directory tree (`CoveredExactlyOnce`);
- left-over directories are exactly the unclaimed ones, in any order
  (`LeftoverIff`), so home does not leak through one (`HomeIsNotLeftOver`);
- the bind lists stay in lockstep exactly under the condition of `LockstepIff`;
- on a host that has what the options ask for, the plan and both modes come up under a
  kernel that refuses nothing but overlays as invalid (`ReadyPlanFits`, `RunDefault`,
  `RunOverlay`); step by step the end of the process has its exact condition;
- the file the sandboxed process writes to report its start is the one the original
  process reads (`InitFileAgreement`, `RunDefaultWithInitFile`), with the exact
  condition in `InitFileAgreesIff` and `FinishedInitFileIff`.

A shape is a tree that says which kind of node a path may be. A mount keeps to it if its
target and source agree with it; such mounts never get in each other's way, whatever the
order. `ShapeOf` is the shape of one host, open only where the private /tmp has another
kind of node than /tmp.

The lemmas about the plan and the passes hold for any test of what must be read-only
and any rules of what a pass leaves alone; `MustBeReadOnly`, `ShouldBeWritable` and
`Skipped` are the program's, and the methods use those.

**The network policy.** `FirewallTable` is the C++ rule table and its printer,
`RulesFile` the Go reader, `AnswerCache` the two maps as a value, `Minitap` the Go
process that updates them, `Mux` the dispatcher, `PolicyPipeline` the way from the
calls of the C++ interface to the admission of a connection. The main results: the
round trip through the file with its exact condition, admission soundness over all
runs, exactness and order independence of the cache for disjoint address pools, and
an exact connection cap over every interleaving.

**The launch protocol.** `LaunchChain` is the chain of waiters with the init file,
for any number of waiters; `PoliteKill` the signal handler and the start-up steps it
can interrupt. The main results: the outcome of every run, its finiteness and
progress, and the exact runs in which a kill delay is lost.

A class carries the state the program updates in place; its methods are proved
against functions on values, and the lemmas are about those functions. The functions
that only read are functions here too.

## What the code does where its comments or guards promise more

The model follows the code. These are the places where a stated intent does not hold
as it stands, each with the condition under which it does.

- The guards on rules use `>` and no terminator is copied. The slots read back as the
  accepted rules exactly if each rule shorter than a slot is as long as any rule ever
  written there, and each that fills its slot is followed by an unused slot or by the
  end (`TableHoldsAcceptedRules`; `RefilledSlot` and `FullSlot` show the two failures).
  And the guard accepts one rule more than there are slots: exactly when the table is
  full and the rule fits a slot there is no place for it (`NoSlotIff`, `FullTable`).
- The mount-point lookup sets the length to beat only once, so it may answer with a
  mount point that is neither the deepest nor the one that serves the directory
  (`DeepestIff`, `ServingMountFoundIff`, `LateParentWins`).
- A directory the overlay fallback keeps for a read-only mount is recorded after
  such directories were mounted. In the default mode it is therefore not mounted as
  one (`KeptWasTooLate`), and what is below it falls to the left-over directories and
  binds exactly where every request above kept it or missed it, because a listing
  failed or led nowhere (`NotOverlaidIff`, `KeptPartFallsToBase`); in the overlay mode,
  where the overlays are mounted twice, it is mounted (`KeptPartIsMounted`).
- The directory opened for the working directory is meant not to contain home. It
  does exactly when the first candidate contains home and the working directory is
  not under home (`OpenedDirectoryContainsHomeIff`, `NeighboursHomeOpensHomes`).
- `MountAndRemountRO` ignores a refused bind. If the path must be read-only, the
  remount then applies to an earlier mount just at the target, and without one, or if
  it is refused, the process ends; else nothing happens (`RefusedBind`).
- The lists of bind sources and targets are made unique one by one. After the
  default set-up they can get out of step through a symlink to /tmp or to its source
  directory: exactly when one is added that is then in one list only (`LockstepIff`,
  `TmpSymlinkBreaksLockstep`).
- Deleting the previous answers of a domain counts no other owner, so a shared
  address can be lost (`UpdateKeepsExactIff`, `SharedAddressOrderMatters`).
- A SIGALRM sent from outside between the installation of its handler and the start
  of the timeout lets the start-up `alarm` overwrite the kill delay
  (`KillDelayClobberedIff`, `OutsideAlarmClobbers`).
- A first fork that fails ends the plain launcher with 255. The launcher of the tap does
  not look, waits for any child there is, and may take the end of another one for a
  failed start (`FailedForkTellsTheChains`); the two chains have alike outcomes if the
  first fork works (`TapChainIsTransparent`).
- The checks at start keep / and /tmp out of the writable entries, and /tmp out of
  the binds, but let the init file itself be a writable entry
  (`WritableInitFileIsAccepted`, `WritableInitFile`). Then the two files differ
  (`WritableInitFileSplits`); they are one exactly under the condition of
  `InitFileAgreesIff`.
- If the first fork worked, a failed start is taken for an exit exactly when the first
  waiter was killed (`FailedStartReportedIff`, `KilledWaiterHidesFailedStart`). What a killed waiter does
  to a start that did not fail is in `OutcomeOfEveryRun`: the code of the program is
  lost, and if the decision comes before InitDone the start is reported as failed.
- With a repeated mount point the read-only pass puts the flags of the lower entry on
  the upper one, unless the upper line was read ahead and its own turn puts them back,
  exactly as `FlagsAfterPass` says (`FlagsAreKeptIff`, `RepeatedMountPointLosesFlags`).

## Model

| member | source | states |
|---|---|---|
| `Paths.IsSubpath` | mini_sandbox/src/main/tools/process-tools.cc:298-307 | the two-iterator loop answers exactly "is a component prefix" |
| `Paths.EndsWithComponent` | mini_sandbox/src/main/tools/linux-sandbox-pid1.cc:480-487 | on a canonical path the text test for "/name" at the end holds exactly when the last component is that name |
| `Paths.RenderIsInjective` | mini_sandbox/src/main/tools/linux-sandbox-pid1.cc:503-531 | comparing rendered paths as strings, as the code does, compares the paths |
| `Paths.LongerTextMeansDeeper` | mini_sandbox/src/main/tools/process-tools.cc:321-361 | among paths covering one path, longer text and more components are the same thing |
| `MountTable.GetMountPointOf` | mini_sandbox/src/main/tools/process-tools.cc:321-361 | the scan returns the model answer: the last match longer than the first match, nothing when the directory or the table cannot be read |
| `MountTable.MountPointCovers` | mini_sandbox/src/main/tools/process-tools.cc:321-361 | the answer is a table entry that covers the directory on the same device, and is empty exactly when there is none |
| `MountTable.DeepestIff` | mini_sandbox/src/main/tools/process-tools.cc:321-361 | over every table the answer is the deepest match exactly when each match deeper than the first, after a deeper one, is followed by one deeper than the first and at least as deep as that |
| `MountTable.SortedTableGivesDeepest` | mini_sandbox/src/main/tools/process-tools.cc:321-361 | for a table whose matches come in non-decreasing depth the answer is the deepest |
| `MountTable.ServingMountFoundIff` | mini_sandbox/src/main/tools/process-tools.cc:321-361 | the answer is the last match, the mount that serves the directory, exactly when that is deeper than the first, or as deep with none deeper |
| `MountTable.LateParentWins` | mini_sandbox/src/main/tools/process-tools.cc:321-361 | a table, directory and device on which the answer is neither the deepest match nor the mount that serves the directory |
| `SandboxOptions.AddIfNotPresent` | mini_sandbox/src/main/tools/process-tools.cc:390-400 | appends a path exactly when it is not in the list |
| `SandboxOptions.ValidateOverlayOutOfFolder` | mini_sandbox/src/main/tools/linux-sandbox-options.cc:181-201 | 0 exactly when both paths resolve and the folder does not cover the overlay directory |
| `SandboxOptions.ValidateReadWritePaths` | mini_sandbox/src/main/tools/linux-sandbox-options.cc:204-215 | 0 exactly when no path is in both lists |
| `SandboxOptions.Options.ValidateTmpNotRemounted` | mini_sandbox/src/main/tools/linux-sandbox-options.cc:217-227 | 0 exactly when the default mode is off or /tmp is not in the list |
| `SandboxOptions.Options.ValidateOptions` | mini_sandbox/src/main/tools/linux-sandbox.cc:322-357 | 0 exactly for the configurations that keep overlay directory and root out of the working directory, the overlay directory out of every writable entry, reads and writes apart, and /tmp unmounted in the default mode |
| `SandboxOptions.Options.MountBind` | mini_sandbox/src/main/tools/linux-sandbox-options.cc:710-734 | a bind request does to both lists what the model says, and fails exactly while running or for a relative path |
| `SandboxOptions.Options.MountHomeSymlinks` | mini_sandbox/src/main/tools/linux-sandbox-options.cc:696-708 | adds the symlink parents one by one, each at most once, and nothing outside home |
| `SandboxOptions.Options.MountWrite` | mini_sandbox/src/main/tools/linux-sandbox-options.cc:749-769 | the writable list after a request; errors exactly while running or for a relative path |
| `SandboxOptions.Options.MountOverlay` | mini_sandbox/src/main/tools/linux-sandbox-options.cc:785-806 | the overlay list after a request, with the input cut to the length of the canonical text for another spelling; errors exactly while running, outside overlay modes, or for a relative path |
| `SandboxOptions.Options.SetupDefaultMounts` | mini_sandbox/src/main/tools/linux-sandbox-options.cc:914-937 | appends the same default mounts to both lists |
| `SandboxOptions.Options.SetupDefault` | mini_sandbox/src/main/tools/linux-sandbox-options.cc:855-883 | the default set-up leaves exactly one uneven bind pair, then the default mounts, or only the mode if the source directory of the pair cannot be made; every option is told, and 0 is returned exactly outside every refusal |
| `SandboxOptions.DefaultMountsAre` | mini_sandbox/src/main/tools/linux-sandbox-options.cc:914-937 | what is in each list after the default set-up: one end of the pair, /proc, /var, /opt and the two directories under home that exist |
| `SandboxOptions.BindAlsoKeepsLockstepIff` | mini_sandbox/src/main/tools/linux-sandbox-options.cc:696-708 | one add-if-absent on each list keeps them in step exactly when the path is in both or in neither |
| `SandboxOptions.LockstepIff` | mini_sandbox/src/main/tools/linux-sandbox-options.cc:696-747 | over every sequence of calls the lists end in step if and only if every symlink parent, when added, was in both lists or in neither; once out of step they never come back |
| `SandboxOptions.BindListsStayInLockstep` | mini_sandbox/src/main/tools/linux-sandbox-options.cc:696-747 | so they do if no symlink under home leads to /tmp or to the directory behind it |
| `SandboxOptions.TmpSymlinkBreaksLockstep` | mini_sandbox/src/main/tools/linux-sandbox-options.cc:696-747 | with such a symlink the lists end up of different length |
| `WorkingDirChain.MountOverlaySubfolders` | mini_sandbox/src/main/tools/linux-sandbox-pid1.cc:1418-1464 | terminates and makes one overlay request for every directory of the chain; returns 1 and does nothing if the working directory does not start with the top level |
| `WorkingDirChain.ChainIsAncestors` | mini_sandbox/src/main/tools/linux-sandbox-pid1.cc:1433-1461 | if the top level covers the working directory, the chain is exactly its ancestors from there down, itself left out |
| `WorkingDirChain.AncestorChainRequested` | mini_sandbox/src/main/tools/linux-sandbox-pid1.cc:1418-1464 | without symlinks on the way the requests added are exactly those ancestors, in order |
| `WorkingDirChain.RequestsAreKept` | mini_sandbox/src/main/tools/linux-sandbox-pid1.cc:1418-1464 | every directory of the chain and every link found on it is requested, earlier requests stay, and nothing else is added |
| `WorkingDirChain.OpenedDirectoryContainsHomeIff` | mini_sandbox/src/main/tools/linux-sandbox-pid1.cc:1467-1491 | the directory opened contains home exactly when the first top level does and the working directory is not under home |
| `WorkingDirChain.NeighboursHomeOpensHomes` | mini_sandbox/src/main/tools/linux-sandbox-pid1.cc:1467-1491 | a mount point, working directory and home with which the directory above home is opened |
| `WorkingDirChain.OpenedDirectoryIsBelowHome` | mini_sandbox/src/main/tools/linux-sandbox-pid1.cc:1467-1491 | with the working directory under home, what is opened covers it and neither is nor contains home |
| `WorkingDirChain.MountWorkingDirMountPoint` | mini_sandbox/src/main/tools/linux-sandbox-pid1.cc:1467-1515 | opens the final top level as writable entry, as overlay, or as a chain of overlays, and changes nothing else |
| `WorkingDirChain.OpenedKeepsRequests` | mini_sandbox/src/main/tools/linux-sandbox-pid1.cc:1467-1515 | what was requested before stays requested, in its place |
| `WorkingDirChain.OpenedByCase` | mini_sandbox/src/main/tools/linux-sandbox-pid1.cc:1467-1515 | without links on the way: the directory next after the mount point, or after home if that one would contain home, is opened for writing, as one overlay, or with every directory from there to the working directory; nothing for the mount point or home itself |
| `WorkingDirChain.OpenedAboveHome` | mini_sandbox/src/main/tools/linux-sandbox-pid1.cc:1467-1515 | if the first top level contains home and home not the working directory, it is the parent of home that is opened |
| `Namespace.MountedStaysClosed` | mini_sandbox/src/main/tools/linux-sandbox-pid1.cc:1183-1186 | a mount on an existing target of the same kind keeps the tree parent-closed |
| `Namespace.AncestorsExist` | mini_sandbox/src/main/tools/linux-sandbox-pid1.cc:195-253 | in a parent-closed tree everything above an existing path is a directory |
| `Namespace.MountShows` | mini_sandbox/src/main/tools/linux-sandbox-pid1.cc:1183-1186 | after a mount, every path served by the plan shows what its host path shows |
| `Namespace.Sandbox.CreateTarget` | mini_sandbox/src/main/tools/linux-sandbox-pid1.cc:195-253 | the exact answer, from the tree and the kernel: refused, made, or the end of the process; keeps the tree parent-closed, changes nothing that exists, makes only the path and its ancestors |
| `Namespace.CooperativeCreation` | mini_sandbox/src/main/tools/linux-sandbox-pid1.cc:195-253 | a kernel that refuses nothing never lets it end the process, and a missing path is made unless a file is in the way |
| `Namespace.MountHidesNothing` | mini_sandbox/src/main/tools/linux-sandbox-pid1.cc:806-820 | where nothing was, a mount hides nothing |
| `Namespace.Sandbox.MakeAndBind` | mini_sandbox/src/main/tools/linux-sandbox-pid1.cc:1180-1186 | a target is made and the source bound to it, each as the kernel answers |
| `Namespace.Sandbox.BindMount` | mini_sandbox/src/main/tools/linux-sandbox-pid1.cc:1183-1186 | the log grows by exactly this mount when the kernel takes it and the kinds agree |
| `Namespace.Sandbox.OverlayMount` | mini_sandbox/src/main/tools/linux-sandbox-pid1.cc:455-456 | the log grows by exactly this overlay when the kernel takes it |
| `Namespace.Sandbox.Remount` | mini_sandbox/src/main/tools/linux-sandbox-pid1.cc:1161-1162 | changes the mode of the mount served at the target, provided it is mounted just there, and of no other |
| `MountPlan.PlayServes` | mini_sandbox/src/main/tools/linux-sandbox-pid1.cc:1172-1194 | one mounting turn seen from any path: a covering mount takes over, a remount changes the mount at its own target and nothing else |
| `MountPlan.ServedByLastStep` | mini_sandbox/src/main/tools/linux-sandbox-pid1.cc:1213-1284 | after any sequence of turns a path is served by the last one that mounted above it, read-only exactly if it or a later one remounted there |
| `MountPlan.PlainStepsWin` | mini_sandbox/src/main/tools/linux-sandbox-pid1.cc:1251-1284 | later mounts that stay writable win where they cover and change nothing elsewhere |
| `MountPlan.Precedence` | mini_sandbox/src/main/tools/linux-sandbox-pid1.cc:1213-1284 | after the plan every path is served as the class-priority lookup says, whatever the log before and the kernel refused |
| `Mounting.RemountRO` | mini_sandbox/src/main/tools/linux-sandbox-pid1.cc:1130-1169 | remounts exactly if the test says so; fails exactly if nothing is mounted just there or the remount is refused |
| `Mounting.MountAndRemountRO` | mini_sandbox/src/main/tools/linux-sandbox-pid1.cc:1172-1194 | carries out one read-only step, or ends the process: exactly without a source, with a target not made, or with a path that must be read-only and is not remounted |
| `Mounting.RefusedBind` | mini_sandbox/src/main/tools/linux-sandbox-pid1.cc:1183-1193 | with the bind refused the process ends exactly if the path must be read-only and no mount just there can be remounted; else only the mode of that mount changes |
| `Mounting.FittingStepLives` | mini_sandbox/src/main/tools/linux-sandbox-pid1.cc:1172-1194 | under a kernel that refuses nothing, a step on a file or a directory that keeps to the shape of the tree does not end the process |
| `Mounting.FittingWritableLives` | mini_sandbox/src/main/tools/linux-sandbox-pid1.cc:1253-1281 | so does a writable entry, be it a file or a directory |
| `Mounting.ShouldBeWritableIff` | mini_sandbox/src/main/tools/linux-sandbox-pid1.cc:503-531 | on canonical paths the text tests ask for the working directory, a last component "proc" or "tmp", a first one that starts with "dev", or a requested writable or tmpfs directory |
| `Mounting.MustBeReadOnlyIff` | mini_sandbox/src/main/tools/linux-sandbox-pid1.cc:1130-1169 | a step is remounted exactly if its source can be looked up and neither its source nor its target under the root is such a path |
| `Mounting.MountBinds` | mini_sandbox/src/main/tools/linux-sandbox-pid1.cc:1226-1247 | one read-only step for each index of the two bind lists, in order; it ends the process only at a step that does, and not at all where every step fits |
| `Mounting.MountReadOnly` | mini_sandbox/src/main/tools/linux-sandbox-pid1.cc:1197-1210 | one read-only step for each left-over directory whose sandbox path can be looked up; it ends the process only at a step that does |
| `Mounting.MountWritable` | mini_sandbox/src/main/tools/linux-sandbox-pid1.cc:1253-1281 | a host path, file or directory, on its own path, writable; it ends the process exactly if the target is not there, is another kind of node, or the bind is refused |
| `Mounting.MountWritables` | mini_sandbox/src/main/tools/linux-sandbox-pid1.cc:1253-1268 | mounts exactly the writable entries present on the host, in order; it ends the process only at one that does, and not at all where every entry fits |
| `Mounting.MountAllMounts` | mini_sandbox/src/main/tools/linux-sandbox-pid1.cc:1213-1284 | if it does not end the process the log is what the plan for the options makes of it; if it does, one of the mounts is the reason; it does not where the kernel refuses nothing but overlays as invalid and every mount keeps to the shape of the tree |
| `PlanMeaning.PlanServesByClass` | mini_sandbox/src/main/tools/linux-sandbox-pid1.cc:1213-1284 | the plan of any option set is served by class, in any log and under any kernel |
| `PlanMeaning.PlanPrecedence` | mini_sandbox/src/main/tools/linux-sandbox-pid1.cc:1213-1284 | for every option set, log, order and kernel: working directory, then writable entries, then overlays, each on its own path and writable; else left-over directories and binds |
| `PlanMeaning.BaseMode` | mini_sandbox/src/main/tools/linux-sandbox-pid1.cc:1130-1194 | a serving left-over directory is read-only exactly if it must be; a serving bind is read-only exactly if it, a later bind on its target or a left-over directory there must be |
| `PlanMeaning.BindIsReadOnly` | mini_sandbox/src/main/tools/linux-sandbox-pid1.cc:1130-1194 | what an accepted configuration requests for reading is mounted, and read-only if mounted just there, unless its name or something above it says otherwise |
| `PlanMeaning.OwnPathWritable` | mini_sandbox/src/main/tools/linux-sandbox-pid1.cc:1213-1284 | under the working directory, a mounted writable entry or an overlay a path shows its own host path, writable |
| `PlanMeaning.NotOverlaidIff` | mini_sandbox/src/main/tools/linux-sandbox-pid1.cc:438-477 | for every list of requests, nested ones too, and whatever could be listed, nothing is overlaid above a path exactly when each request above it kept what is above the path or missed it |
| `PlanMeaning.KeptPartFallsToBase` | mini_sandbox/src/main/tools/linux-sandbox-pid1.cc:463-466 | outside the working directory and the writable entries, an overlay serves a path, or, exactly when every request above it kept or missed it, the left-over directories and binds decide |
| `OverlayFallback.MountOverlayFs` | mini_sandbox/src/main/tools/linux-sandbox-pid1.cc:438-477 | one request: EINVAL alone makes it kept, unreadable or split, by depth and listing; it ends the process exactly at a request, or one the fallback went on to, that does, and not at all where every answer is success or EINVAL and everything fits; log and set grow by exactly its pieces |
| `OverlayFallback.MountAllOverlayFs` | mini_sandbox/src/main/tools/linux-sandbox-pid1.cc:1309-1328 | the same for a list; gives up exactly below depth 5 with a non-empty list, so never from depth 0 |
| `OverlayFallback.PiecesLieBelow` | mini_sandbox/src/main/tools/linux-sandbox-pid1.cc:463-466 | pieces lie at or below the request, and those kept read-only exactly two levels down |
| `OverlayFallback.CoveredExactlyOnce` | mini_sandbox/src/main/tools/linux-sandbox-pid1.cc:438-477 | the cut: every path at or below a request is covered by exactly one piece of it, or by none exactly when a listing on the way failed or no listed directory leads on to the path |
| `OverlayFallback.ReadableIsNotMissed` | mini_sandbox/src/main/tools/linux-sandbox-pid1.cc:438-477 | two levels down, or deeper, nothing is missed where the listings on the way work |
| `OverlayMode.RunOverlay` | mini_sandbox/src/main/tools/linux-sandbox-pid1.cc:1649-1652 | the overlays once, then the plan with exactly the directories the first round kept, then home; it comes up on a host that has what the options ask for |
| `OverlayMode.KeptPartIsMounted` | mini_sandbox/src/main/tools/linux-sandbox-pid1.cc:1649-1652 | in this mode a kept directory does serve what is below it, in the mode it should have, unless a better class takes over |
| `Leftovers.AddLeftoverFolders` | mini_sandbox/src/main/tools/linux-sandbox-pid1.cc:662-713 | adds exactly the left-over directories of `LeftoverIff`, for every order and repetition, though it asks about the growing set |
| `Leftovers.GrowingSetDoesNotMatter` | mini_sandbox/src/main/tools/linux-sandbox-pid1.cc:548-630 | asking about the grown set differs from asking about the initial one only for a directory already added |
| `Leftovers.LeftoverIff` | mini_sandbox/src/main/tools/linux-sandbox-pid1.cc:548-713 | left over is exactly a known directory of the root that neither covers nor lies in home or the working directory, that no overlay, writable entry or bind source covers, that holds no earlier read-only path, and that is neither /tmp nor /dev |
| `Leftovers.LeftoversPartition` | mini_sandbox/src/main/tools/linux-sandbox-pid1.cc:662-713 | the order of the entries is of no consequence, and no left-over directory covers another |
| `CompletingPass.CompleteOne` | mini_sandbox/src/main/tools/linux-sandbox-pid1.cc:730-848 | one table entry: skipped by name, type, place or existence, else an attempt at a mount; ends the process exactly if a directory above cannot be made or looked up, or the errno of the remount is not tolerated |
| `CompletingPass.CompleteFilesystem` | mini_sandbox/src/main/tools/linux-sandbox-pid1.cc:720-848 | one turn for each of the first num + 1 entries, in order, up to the first that ends the process |
| `CompletingPass.PassNeverShadows` | mini_sandbox/src/main/tools/linux-sandbox-pid1.cc:720-848 | for every table and kernel: a path shown before is shown alike after, through the same mount in the same mode |
| `CompletingPass.PassAddsOnlyMissing` | mini_sandbox/src/main/tools/linux-sandbox-pid1.cc:720-848 | what is added are mounts of table entries on their own paths, absent before, read-only only where they should be |
| `CompletingPass.PassCompletes` | mini_sandbox/src/main/tools/linux-sandbox-pid1.cc:720-848 | with a kernel that refuses nothing, every reached directory mount point not to be skipped and not below a file is there from its turn on |
| `ReadOnlyPass.HostMounts.CountMounts` | mini_sandbox/src/main/tools/process-tools.cc:284-295 | the number of table entries |
| `ReadOnlyPass.HostMounts.FlagsOf` | mini_sandbox/src/main/tools/linux-sandbox-pid1.cc:779-801 | the six tests collect exactly the flags of the entry |
| `ReadOnlyPass.HostMounts.MakeReadOnly` | mini_sandbox/src/main/tools/linux-sandbox-pid1.cc:720-848 | dies exactly on an errno that is not tolerated among the first num + 1 entries; else one turn was taken for each, with its line read then or ahead |
| `ReadOnlyPass.ModesAfterPass` | mini_sandbox/src/main/tools/linux-sandbox-pid1.cc:720-848 | for every table, with repetitions too: an entry on top of its mount point has the mode it should have exactly if a remount there was accepted; a hidden one keeps its mode |
| `ReadOnlyPass.FlagsAfterPass` | mini_sandbox/src/main/tools/linux-sandbox-pid1.cc:779-801 | for every table, kernel and way of reading ahead: a hidden entry keeps its flags; one on top gets those of the last accepted entry below it of the same mount point, before its own line was read if its own turn was accepted, and keeps its own if there is none |
| `ReadOnlyPass.FlagsAreKeptIff` | mini_sandbox/src/main/tools/linux-sandbox-pid1.cc:779-801 | the exact condition for an entry to keep its flags, for every way of reading ahead |
| `ReadOnlyPass.RepeatedMountPointLosesFlags` | mini_sandbox/src/main/tools/linux-sandbox-pid1.cc:779-801 | a table with a repeated mount point on which a flag is lost, unless the upper line was read ahead and its turn accepted |
| `ReadOnlyPass.ReadOnlyAfterPass` | mini_sandbox/src/main/tools/linux-sandbox-pid1.cc:720-848 | without repetitions every entry is reached, and one not ending in /proc and not refused is read-only unless it should be writable, with its flags |
| `ReadOnlyPass.TestsAskForComponents` | mini_sandbox/src/main/tools/linux-sandbox-pid1.cc:720-848 | on canonical paths what the pass skips and leaves writable is told by components |
| `InitFile.StepsAgreeIff` | mini_sandbox/src/main/tools/linux-sandbox-pid1.cc:1526-1569 | for any sequence of mounting turns with the /tmp pair among them: the inner file is the outer one exactly when no later turn mounted above it |
| `InitFile.WhereInitFileIs` | mini_sandbox/src/main/tools/linux-sandbox-options.cc:810-820 | outside, the file is in the private /tmp in the default mode, and else the inner one seen through the root, if there is one |
| `InitFile.InitFileAgreesIff` | mini_sandbox/src/main/tools/linux-sandbox-pid1.cc:1213-1284 | for the plan of every option set in lockstep: exactly when neither the working directory nor a present writable entry nor an overlay nor a mounted left-over directory or later bind covers the file |
| `InitFile.PassKeepsInitFileIff` | mini_sandbox/src/main/tools/linux-sandbox-pid1.cc:720-848 | the completing pass neither makes nor breaks the agreement |
| `InitFile.FinishedInitFileIff` | mini_sandbox/src/main/tools/linux-sandbox-pid1.cc:1638-1646 | so the same exact condition holds for the finished sandbox |
| `InitFile.WritableInitFileSplits` | mini_sandbox/src/main/tools/linux-sandbox-pid1.cc:1253-1268 | with the init file itself a writable entry on the host the two files differ |
| `InitFile.WritableInitFileIsAccepted` | mini_sandbox/src/main/tools/linux-sandbox.cc:322-357 | a default-mode configuration with such an entry, with or without the seed file, that the checks at start accept |
| `InitFile.WritableInitFile` | mini_sandbox/src/main/tools/linux-sandbox-options.cc:749-769 | the option calls that lead to it, whether or not the seed file can be made |
| `InitFile.PlanMountsOwnPaths` | mini_sandbox/src/main/tools/linux-sandbox-pid1.cc:1213-1284 | every other step of the plan mounts a host path on itself, given the bind lists in lockstep |
| `InitFile.TmpShouldBeWritable` | mini_sandbox/src/main/tools/linux-sandbox-pid1.cc:503-531 | the test the program makes never asks for the /tmp pair to be read-only |
| `InitFile.AcceptedKeepsInitFile` | mini_sandbox/src/main/tools/linux-sandbox.cc:322-357 | an accepted default-mode configuration that leaves the init file alone mounts nothing above it after the /tmp pair |
| `InitFile.OpeningKeeps` | mini_sandbox/src/main/tools/linux-sandbox-pid1.cc:1467-1515 | opening the way to a working directory outside /tmp keeps it so, also when the way leads up from home |
| `InitFile.PlanKeepsInitFile` | mini_sandbox/src/main/tools/linux-sandbox-pid1.cc:1213-1284 | after the plan the /tmp pair serves the init file, writable |
| `InitFile.InitFileAgreement` | mini_sandbox/src/main/tools/linux-sandbox-options.cc:810-852 | through the plan and the completing pass the inner init file stays the outer one |
| `DefaultMode.FinishedByClass` | mini_sandbox/src/main/tools/linux-sandbox-pid1.cc:1640-1646 | every path the plan left shown is served in the finished sandbox as the class-priority lookup says |
| `DefaultMode.FinishedSandbox` | mini_sandbox/src/main/tools/linux-sandbox-pid1.cc:1640-1646 | in the finished sandbox a host path under the working directory, a mounted writable entry or an overlay is there as itself, writable |
| `DefaultMode.KeptWasTooLate` | mini_sandbox/src/main/tools/linux-sandbox-pid1.cc:1640-1646 | in the default mode no directory the fallback kept is among the left-over directories the plan mounted |
| `DefaultMode.RequestsAreServed` | mini_sandbox/src/main/tools/linux-sandbox-pid1.cc:1640-1646 | whatever is opened for the working directory, each path below a writable entry requested before and present, or below a piece of an overlay requested before, is there as itself, writable |
| `DefaultMode.HomeIsNotLeftOver` | mini_sandbox/src/main/tools/linux-sandbox-pid1.cc:548-561 | nothing in, at or above home or the working directory is shown through a left-over directory |
| `HostShape.OverlayFits` | mini_sandbox/src/main/tools/linux-sandbox-pid1.cc:438-477 | on a host in order an overlay request and all that is listed in it down to the threshold keep to the shape of the host |
| `HostShape.KeptIsSettled` | mini_sandbox/src/main/tools/linux-sandbox-pid1.cc:463-466 | what the fallback keeps can be mounted on its own path |
| `HostShape.ReadyPlanFits` | mini_sandbox/src/main/tools/linux-sandbox-pid1.cc:1213-1284 | on a host that has what the options ask for, files included, every mount of the plan keeps to its shape, the private /tmp among them |
| `HostShape.MountOnHost` | mini_sandbox/src/main/tools/linux-sandbox-pid1.cc:1213-1284 | there the plan is carried out to its end |
| `HostShape.MakeHome` | mini_sandbox/src/main/tools/linux-sandbox-pid1.cc:632-640 | the home directory is made last; on such a host it is made |
| `OpenedHost.OpenedAreFree` | mini_sandbox/src/main/tools/linux-sandbox-pid1.cc:1467-1515 | for a working directory outside /tmp, what is opened are directories of the host outside /tmp |
| `OpenedHost.OpeningKeepsReady` | mini_sandbox/src/main/tools/linux-sandbox-pid1.cc:1467-1515 | a host that has what the options ask for has what is opened as well |
| `OpenedHost.SmallHostComesUp` | mini_sandbox/src/main/tools/linux-sandbox-options.cc:914-1000 | a host with the default mounts and the seed file as a regular file on which the default mode comes up |
| `DefaultMode.OpenWorkingDir` | mini_sandbox/src/main/tools/linux-sandbox-pid1.cc:1640-1642 | the options after the first half: those before, with the final top level of the mount point opened |
| `DefaultMode.MountAndComplete` | mini_sandbox/src/main/tools/linux-sandbox-pid1.cc:1644-1646 | the plan, for any order of the left-over directories, its completion from the table, and home; it comes up on a host that has what the options ask for |
| `DefaultMode.MountDefault` | mini_sandbox/src/main/tools/linux-sandbox-pid1.cc:1643-1646 | the second half carries out a plan with exactly the left-over directories and completes it; it comes up on such a host |
| `DefaultMode.RunDefault` | mini_sandbox/src/main/tools/linux-sandbox-pid1.cc:1638-1646 | the default mode as one run: the options with the way opened and every earlier request kept, the plan made from them, and its completion; it comes up on such a host |
| `DefaultMode.RunDefaultWithInitFile` | mini_sandbox/src/main/tools/linux-sandbox-pid1.cc:1638-1646 | the run for a configuration that leaves the init file alone: one init file inside and outside; it comes up on a host that has what was requested before the way was opened |
| `Text.DecimalParsesBack` | mini_sandbox/src/main/tools/firewall.cc:74 | printed digits parse back, for every number |
| `Text.PrintedIntParsesBack` | minitap/firewall.go:61-66 | a printed signed int parses back to itself |
| `Text.TrimSpaceFixesTrimmed` | minitap/firewall.go:69-72 | trimming leaves a line alone exactly when it has no surrounding white space |
| `Text.TrimSpaceStrips` | minitap/firewall.go:69-72 | what trimming takes off is ASCII white space, and it takes all of it |
| `Text.SignedDecimalParses` | minitap/firewall.go:61-66 | leading zeros and one sign are read over, and what does not fit 64 bits is no number |
| `Text.OnlySignedDigitsParse` | minitap/firewall.go:61-66 | nothing but digits after at most one sign is a number |
| `Text.LastLine` | minitap/firewall.go:55-60 | a last line needs no newline, and loses one carriage return |
| `Text.LinesOfPrintedLine` | minitap/firewall.go:55-60 | a printed line is read back as one line, but for a carriage return at its end |
| `FirewallTable.FirewallRules.SetMaxConnections` | mini_sandbox/src/main/tools/firewall.cc:19-24 | return code and new table are those of the model call |
| `FirewallTable.FirewallRules.SetFirewallRule` | mini_sandbox/src/main/tools/firewall.cc:26-42 | return code and new table, byte for byte, are those of the model call |
| `FirewallTable.FirewallRules.ResetFirewallRules` | mini_sandbox/src/main/tools/firewall.cc:44-51 | return code and new table are those of the model call |
| `FirewallTable.FirewallRules.DumpRules` | mini_sandbox/src/main/tools/firewall.cc:60-91 | the text printed for the table |
| `FirewallTable.TableHoldsAcceptedRules` | mini_sandbox/src/main/tools/firewall.cc:19-51 | over every call sequence: Disabled means no rule, Enabled at least one, and the slots read back as exactly the accepted rules if and only if each rule is as long as any ever written to its slot, or fills it and meets an unused next slot or the end |
| `FirewallTable.RefusedIff` | mini_sandbox/src/main/tools/firewall.cc:19-51 | from the history alone: a reset is refused exactly after a rule, a rule exactly when it is longer than 1024 or comes after a reset, a cap never |
| `FirewallTable.ReadsBack` | mini_sandbox/src/main/tools/firewall.cc:33-38 | a copied rule reads back as itself exactly when a terminator follows it |
| `FirewallTable.RefilledSlot` | mini_sandbox/src/main/tools/firewall.cc:33-51 | a call sequence after which a slot holds the end of an older rule |
| `FirewallTable.FullSlot` | mini_sandbox/src/main/tools/firewall.cc:26-42 | a rule of full slot length is accepted and runs into the next slot |
| `FirewallTable.NoSlotIff` | mini_sandbox/src/main/tools/firewall.cc:26-42 | after any calls, a further rule has no slot exactly when the table is full and the rule fits a slot, and the guards then answer 0 |
| `FirewallTable.FullTable` | mini_sandbox/src/main/tools/firewall.cc:26-42 | any hundred rules lead there |
| `RulesFile.RulesFileRoundTrip` | minitap/firewall.go:51-80 | dump then read: the cap always; no rules if it is not negative; else the same rules exactly when each is a single trimmed line |
| `RulesFile.RulesReadBackIff` | minitap/firewall.go:55-73 | printed rules are read back exactly when each is a single trimmed line |
| `RulesFile.BadHeaderReadsNothing` | minitap/firewall.go:51-80 | nothing is read exactly when the first line is not a number |
| `Minitap.Process.ReadFirewallRules` | minitap/firewall.go:51-80 | appends the rules and sets the cap the text stands for |
| `Minitap.Process.InitFirewall` | minitap/firewall.go:82-105 | the two maps are exactly the address and name split of the rules; a name without final dot is kept with one, an address as it is |
| `Minitap.RuleMeetsItsQueries` | minitap/firewall.go:82-131 | a rule that is no address is kept with its final dot, and a query for the name, with the dot or without, records its answer there |
| `Minitap.NameAllowedIff` | minitap/firewall.go:202-215 | a name is allowed exactly if some rule that is no address is the same name up to the final dot |
| `Minitap.Process.FirewallDnsIff` | minitap/firewall.go:202-215 | with rules the name is looked for with its final dot, without them the cap decides |
| `AnswerCache.FqdnAddsTheDot` | minitap/firewall.go:82-105 | the final dot is added where there is none and only there, so two names meet exactly if they differ by it at most |
| `Minitap.Process.UpdateFirewall` | minitap/firewall.go:107-131 | the two maps after one answer; a name not allowed is only noted as denied |
| `Minitap.Process.FirewallConnection` | minitap/firewall.go:143-200 | the decision, the counter, and the exact sequence of updates of the slow path |
| `Minitap.Process.RefreshDomains` | minitap/firewall.go:183-190 | every domain is looked up once, in some order, with queries in between, and the maps show exactly those updates |
| `Minitap.Process.SetUpstreamDNS` | minitap/dns.go:277-300 | the resolver host is admitted and its search domains and ndots are taken over, once |
| `Minitap.Process.LookupWithSearch` | minitap/dns.go:306-342 | the answer of the first candidate name that resolves |
| `Minitap.CandidateOrder` | minitap/dns.go:306-332 | the name as asked comes first exactly when it has enough dots, the final one not counted, or there is no search domain, else last; the search domains keep their order |
| `Minitap.FirstResolvedIs` | minitap/dns.go:334-342 | the first candidate that resolves gives the answer, and there is none exactly when none does |
| `Minitap.Process.HandleDNSQuery` | minitap/dns.go:345-393 | records at most one answer, for an allowed name only, and returns what was found for every name `FirewallDnsIff` lets through |
| `Minitap.QuietSlowPathIsARefresh` | minitap/firewall.go:183-190 | undisturbed, the slow path is one refresh of the domains |
| `Minitap.SlowPathIsOrderIndependent` | minitap/firewall.go:183-190 | with disjoint pools every order of ranging over the domains leaves the same maps |
| `AnswerCache.UpdatesStaySound` | minitap/firewall.go:107-131 | over every sequence of answers the allowed domains stay the same and every cached address is a base address or in a recorded answer |
| `AnswerCache.UpdateKeepsExactIff` | minitap/firewall.go:111-115 | one update keeps the cache equal to base plus recorded answers exactly when no address it drops has another owner |
| `AnswerCache.CacheStaysExact` | minitap/firewall.go:107-131 | with disjoint pools the cache equals base plus recorded answers in every reachable state |
| `AnswerCache.RefreshRecords` | minitap/firewall.go:183-190 | a refresh records every successful lookup, and a failed one keeps the old answer |
| `AnswerCache.RefreshIsOrderIndependent` | minitap/firewall.go:183-190 | the maps after a refresh are given outright, without mention of the order |
| `AnswerCache.SharedAddressOrderMatters` | minitap/firewall.go:111-115 | with a shared address the order does matter |
| `PolicyPipeline.PolicySurvivesTheFile` | minitap/firewall.go:51-80 | what the reader makes of a cleanly filled table: the cap alone, or exactly the accepted rules |
| `PolicyPipeline.RulesAreASet` | minitap/firewall.go:82-105 | the two maps do not depend on the order or repetition of the rules |
| `PolicyPipeline.StartMinitap` | minitap/firewall.go:51-105 | table, file, reader, maps: the cap with no rules, or exactly the split of the accepted rules plus the resolver host |
| `PolicyPipeline.AdmissionIsSound` | minitap/firewall.go:143-200 | over all runs the key set is fixed and every admitted address is a literal rule, the resolver host or in an answer now recorded |
| `PolicyPipeline.CacheIsExactFromStartUp` | minitap/firewall.go:82-131 | with disjoint pools the cache is exact in every state from start-up on |
| `Mux.PortPatternMatchesPort` | minitap/mux.go:9-17 | a port pattern matches a rendered address exactly when its port is that port |
| `Mux.DnsPatternMatchesPort53` | minitap/mux.go:9-17 | ":53" matches exactly port 53 |
| `Mux.Dispatcher.HandleTCPRequest` | minitap/mux.go:78-88 | handlers are kept in order of registration |
| `Mux.Dispatcher.HandleUDP` | minitap/mux.go:95-99 | handlers are kept in order of registration |
| `Mux.Dispatcher.Notify` | minitap/mux.go:104-133 | at most one handler is launched, by the full decision: under a cap the first match while there is room; without rules the first match; with rules a match exactly when the address is cached by then |
| `Mux.Dispatcher.NotifyTCP` | minitap/mux.go:104-116 | the same decision for the TCP handlers |
| `Mux.Dispatcher.NotifyUDP` | minitap/mux.go:121-133 | the same decision for the UDP handlers |
| `Mux.CapIsExact` | minitap/mux.go:104-133 | over every interleaving the launched handlers are exactly the first ones wanted, up to the cap, and the counter is their number |
| `Mux.StepTakesFromCut` | minitap/mux.go:104-133 | one notification under the cap takes its handler off the list of those wanted |
| `Mux.EveryNotificationWanted` | minitap/libminitap.go:229-261 | with the registered patterns every notification has a first match: port 53 the resolver, anything else the proxy |
| `LaunchChain.NextKeepsInvariant` | mini_sandbox/src/main/tools/linux-sandbox.cc:478-597 | every step but a killed waiter keeps the protocol invariant |
| `LaunchChain.FileRecordsInitDone` | mini_sandbox/src/main/tools/linux-sandbox-options.cc:823-852 | the init file reads "0" exactly when the sandboxed process has not come to InitDone |
| `LaunchChain.LaunchOutcome` | mini_sandbox/src/main/tools/linux-sandbox.cc:545-597 | in every finished run without a killed waiter, for a chain of any length: with a first fork that worked, the original gets -1 exactly when the inner process never came to InitDone, and otherwise exits with its exit code, or with 1 if a signal ended it; with one that failed, what that chain does then |
| `LaunchChain.TapChainIsTransparent` | mini_sandbox/src/main/tools/minitap-interface.cc:169-220 | with a first fork that worked, the longer chain of the tap has the same outcome as the plain one |
| `LaunchChain.CheckerHidesFailedStart` | mini_sandbox/src/main/tools/linux-sandbox.cc:545-582 | on the tap chain, after a failed start, the process that started the tap exits with 0 whatever code its child had |
| `LaunchChain.FailedForkTellsTheChains` | mini_sandbox/src/main/tools/minitap-interface.cc:169-220 | with a failed one it has not: 255 on the plain chain; on the tap chain 1, or -1 if another child of the caller exits |
| `LaunchChain.UndecidedCanGoOn` | mini_sandbox/src/main/tools/linux-sandbox.cc:478-597 | an undecided run, whichever waiters are killed, always has a next step that is no kill |
| `LaunchChain.EveryRunIsFinite` | mini_sandbox/src/main/tools/linux-sandbox.cc:478-597 | no run is longer than twice the chain plus five |
| `LaunchChain.OutcomeOfEveryRun` | mini_sandbox/src/main/tools/linux-sandbox.cc:545-585 | every run, whichever waiters are killed, cut at its decision: -1 exactly when by then the file was not opened and the first waiter not killed; 1 with that one killed; 1, or 0 past a checker, with another killed and the file opened; else the exit code of the inner process, or 1 if a signal ended it |
| `LaunchChain.EveryEndIsPossible` | mini_sandbox/src/main/tools/linux-sandbox.cc:478-597 | whatever the chain, the process and its end, before or after the init file was opened, there is a run with just this end that comes to a decision |
| `LaunchChain.EveryCodeComesThrough` | mini_sandbox/src/main/tools/linux-sandbox.cc:530-582 | every exit code is relayed to the original process |
| `LaunchChain.SplitAtDecision` | mini_sandbox/src/main/tools/linux-sandbox.cc:545-585 | every decided run whose first fork worked has that shape |
| `LaunchChain.FailedStartReportedIff` | mini_sandbox/src/main/tools/linux-sandbox.cc:545-585 | a failed start is reported as such exactly when the first waiter was not killed |
| `LaunchChain.KilledWaiterHidesFailedStart` | mini_sandbox/src/main/tools/linux-sandbox.cc:545-585 | a run in which that waiter is killed and a failed start looks like an exit with 1 |
| `PoliteKill.Supervisor.OnTimeoutOrTerm` | mini_sandbox/src/main/tools/linux-sandbox.cc:160-183 | the handler does what the model says to child, flag and alarm |
| `PoliteKill.Supervisor.OnSignal` | mini_sandbox/src/main/tools/process-tools.cc:67-88 | an unhandled signal ends the program, a handled one runs the handler |
| `PoliteKill.Supervisor.TakeStep` | mini_sandbox/src/main/tools/linux-sandbox.cc:493-523 | the start-up steps in program order |
| `PoliteKill.SignalEndsIff` | mini_sandbox/src/main/tools/linux-sandbox.cc:493-523 | a signal can arrive at any moment, and it ends the program exactly as long as its handler is not in place |
| `PoliteKill.ChildIsKilledPolitely` | mini_sandbox/src/main/tools/linux-sandbox.cc:160-183 | over every interleaving: signals go to the child only, SIGTERM only as the first and only with a kill delay, all others are SIGKILL |
| `PoliteKill.KillDelayIsKept` | mini_sandbox/src/main/tools/linux-sandbox.cc:493-523 | if SIGALRM comes from the timers alone the kill delay is never overwritten and its alarm kills |
| `PoliteKill.KillDelayClobberedIff` | mini_sandbox/src/main/tools/linux-sandbox.cc:500-516 | with SIGALRM from outside, the exact runs in which the start-up alarm overwrites the kill delay |
| `PoliteKill.OutsideAlarmClobbers` | mini_sandbox/src/main/tools/linux-sandbox.cc:500-516 | such a run |

## Left out

- How far the line reader of the mount table reads ahead: any number of turns up to its own, entry by entry.
- Real system calls (mount, clone, pivot_root, statvfs, fork): each is one model step with an arbitrary answer; propagation, nested submounts of a bind and the mode a host mount brings along are not modelled, so a fresh bind starts writable.
- The nodev, noexec, nosuid and atime flags in `RemountRO` and in the completing pass; they are modelled in the read-only pass only.
- Symlinks and `CanonicPath`: requests carry canonical paths, the symlink parents found under home are an arbitrary list, and the relative path that leads up from home is modelled as the parent it resolves to.
- The tmpfs loop of `MountAllMounts` and `MountFilesystems`: they mount on host paths, not under the sandbox root.
- The mounts under /dev and /proc and the bind of the sandbox root on itself: they are the arbitrary log and tree the plan starts from.
- The side directories of an overlay under `tmp_overlayfs`, and the tmpfs put there in a privileged container.
- Other errors of `stat` than absence on host paths, and a `stat` failure on a sandbox path that comes and goes: failure depends on the path alone.
- Unprivileged containers and nested sandboxes (single branches), failures of the pipes after the inner process exists, and two sandboxes that share one init file.
- The bind of the init file on itself and its read-only remount at the end of `InitDone`.
- gVisor, the TUN device, `proxyConn`, `tcp.go`, DNS packing and record types; `dns.NewRR` fails in the model exactly on a missing address.
- Data races on the Go maps: updates are atomic steps. Races of concurrent notifications are excluded by the lock, which the model takes as given.
- IPv6 and CIDR rules: the Go side keeps a subnet as a domain name and compares IPv4 text only.
- White space outside ASCII, the 64 KB token limit of the line scanner and a failed `fopen`: they would change the reader only.
- Command-line parsing, API wrappers, logging, OS detection, uid and gid maps, capabilities and `Cleanup`.
- FirewallTable.FirewallRules.SetFirewallRule: requires that the rule has a slot; a call without one writes past the array, and `NoSlotIff` says exactly which calls those are.
- FirewallTable.FirewallRules.DumpRules: a last slot without terminator is taken to end with the table.
- SandboxOptions.Options.SetupDefault: the two directories under /tmp are taken to be made once the source directory of the pair is; the code goes on with their names in any case.
- SandboxOptions.Options.ValidateOptions: paths are taken to resolve; a path that does not makes the code refuse.
- WorkingDirChain.MountWorkingDirMountPoint: the two directories are taken to resolve and their relative path to exist.
- Mounting.MountAllMounts: that the process lives is stated for a cooperative kernel and mounts that keep to a shape; for other answers, each step has its exact condition and a loop ends the process only at such a step.
- DefaultMode.RunDefault: a host on which it comes up has no other kind of node in the private /tmp on the requested paths of /tmp.
- DefaultMode.RunDefaultWithInitFile: speaks of the init file only if the kernel took the /tmp pair, since the code ignores a refusal there.
- LaunchChain.LaunchOutcome: supposes that no waiter is killed; `OutcomeOfEveryRun` is the statement without that.
- That the start returns 0 in the sandboxed process only: it is the branch of the fork in which that process goes on, not a state of the chain.
