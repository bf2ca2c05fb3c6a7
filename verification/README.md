# Nexus Panel: a verified model

Nexus Panel runs game servers: a NestJS panel keeps nodes, allocations, servers and users in a database, and a Rust
daemon, Wings, runs the servers of one node as Docker containers. This project models the parts of both where
correctness depends on more than one function, and proves what they keep. `dafny verify dfyconfig.toml` checks all of
it.

Each module states what an operation does as a function on values, gives the imperative form of the source as a class
or method proved against it, and then proves the promises of the source about that function, mostly over whole runs.
The lemmas marked MAIN RESULT carry the claims.

| file | what it models |
|---|---|
| Provisioning.dfy, Checks.dfy, Capacity.dfy, ServersService.dfy | creating and deleting servers as interleaved requests over database rows with constraints; what every server was checked for; how far a node can be over-committed |
| Lifecycle.dfy | the install and suspend columns of a server and the two routes of install reports |
| Startup.dfy | placeholder substitution in the startup command, and the split into arguments in Wings |
| Rules.dfy, Environment.dfy | the rule language of egg variables and the environment of a new server |
| Paths.dfy | `validate_path` of the Wings file manager |
| Registry.dfy, Power.dfy, Locks.dfy | the write-through registry of Wings, containers rebuilt from it, and the per-server locks |
| Liveness.dfy, LivenessAwaits.dfy | heartbeats, the clock and the stored connection status; the same with updates that land later |
| TwoFactor.dfy | two-factor authentication, backup codes and sessions |
| Ports.dfy | creating the allocations of a port range, batched and port by port |
| Telemetry.dfy | the memory, disk and CPU figures of a heartbeat |
| Common.dfy, Runs.dfy, Text.dfy | shared datatypes, sums over rows, 64-bit wrapping, runs of a state machine, splitting of text |

## Where a promise holds only under a condition

These lemmas give the condition, or a run in which the promise fails without it.

- Two overlapping deletes of one server can detach a third (`ClearDetachesAnotherIff`, `OverlappingDeletesDetach`).
- A live server can lose the name in its allocation to a clear or to a deletion of the allocation that started
  earlier (`LiveServerIsNamedIff`, `RacingDeletionUnnames`).
- A create that has passed its checks and finds its allocation free can still be refused, by a server that was created
  on it and has lost its name (`FreeAllocationIsRefusedIff`, `FourthCreateIsRefused`).
- A user with a server that is named by its allocation cannot be removed (`UserRemovalRefusedIff`).
- Creates that check before the others commit over-commit a node by up to (k - 1) * m (`NeverOvercommitsIff`,
  `BoundIsReached`). Overallocation below -100 makes a limit negative, so the bound speaks of its positive part.
- Suspending and unsuspending a server during its install lets power actions through (`PowerPassesIff`,
  `ForwardPossibleIff`, `UnsuspendUnlocksAnInstallingServer`).
- A value that can take part in the placeholder of another key makes the order of the keys show, and one that has `$`
  before certain characters is not inserted as it stands (`KeyOrderIsIrrelevantIff`, `VerbatimIffInert`).
- `numeric` and `integer` can turn an invalid value into a valid one (`AddingNarrowsIff`).
- A path that leaves the root and returns is accepted if it exists and refused if it does not (`BranchesAgreeIff`,
  `ReturningExists`).
- Limits set through the HTTP route of Wings are lost with the container (`RestLimitsSurviveIff`).
- Container names use eight characters of the uuid, so handlers of one server can touch the container of another
  (`TouchesOtherIff`, `ClashTouchesBoth`).
- A handler that fetched its lock before a delete and one that fetched it after can be inside together
  (`CanMeetIff`, `OneHandlerInsidePerEpoch`).
- A health check between the load of a node and its heartbeat, or an update of one that lands late, leaves the node
  disconnected while it is online (`CanStayUnconnectedIff`, `StaleRowKeepsDisconnected`, `LateUpdateDisconnects`).
- The refusal of a large port range speaks of 1000 allocations, but the code creates up to 1001 (`LimitIsOneMore`).
- A counter of /proc/stat that goes back can make the CPU figure negative, which the panel refuses
  (`CpuInRangeIff`, `InRangeIff`, `DecreasingCounterIsRefused`).

## Assumptions

- Database: every statement or transaction is atomic; unique indexes and foreign keys hold; generated ids, tokens and
  secrets are new. Memory and disk amounts are whole numbers; capacities are compared as exact percentages.
- Handlers interleave at their awaits in Provisioning, Lifecycle, Locks, Ports and LivenessAwaits. In TwoFactor,
  Registry and Power each handler is one step; Liveness takes each handler as one step that may act on a row loaded
  earlier.
- Saving an entity with a property set to undefined leaves the column or writes NULL, depending on the persistence
  layer. TwoFactor takes this as a parameter and proves its results for both.
- Startup: keys consist of word characters, and a template is a concatenation of literals and `{{key}}` tokens. In the
  literals of `KeyOrderIsIrrelevantIff` every opening brace is followed by another character; values have no `$` that
  `replace` would expand. The results on arguments hold for every command string.
- Docker keeps a limit that an update does not mention.
- `Number(text)`, regular expressions, bcrypt and TOTP are parameters. `IssuedCodeWorksOnce` takes a hash to match its
  own code and nothing else; `CodesAreConserved` needs no such assumption.
- Rust integers wrap as in a release build. Floating point is exact; lengths of values count characters.
- Registry: a successful write is atomic and reads back what was written; a uuid is one path component.
- Paths: agreement of the two branches is stated for file systems without symbolic links. That accepted paths stay
  below the root needs no such assumption; `AcceptedLeadsBelowRoot` says what it means for existing targets where there
  are links, in a file system that follows a bounded number of them. An error names the check that raised it, where the
  source has one error for all of them.

## Model

| member | source | states |
|---|---|---|
| Provisioning.EveryRunIsSafe | packages/backend/src/servers/servers.service.ts:126-214 | in every state of every interleaving of creates, deletes, node and allocation edits, no two live servers share an allocation, an allocation that names a server names a live one that owns it and sits on its node, and (node, ip, port) stays unique |
| Provisioning.RunKeepsInv | packages/backend/src/servers/servers.service.ts:257-273 | safety is inductive: any run from a state in which the rows are safe and each pending request still knows what it read stays so |
| Provisioning.CommitNeverOverwrites | packages/backend/src/servers/servers.service.ts:192-214 | although the UPDATE has no condition on the old value and the check is stale, a commit that succeeds found the allocation unassigned, assigns it to the new server, and changes no other server or allocation |
| Provisioning.ApplyKeepsNoSharing | packages/backend/src/database/entities/server.entity.ts:67-68 | the unique allocationId is what keeps two servers from sharing an allocation under stale reads |
| Provisioning.CommitKeepsNames | packages/backend/src/servers/servers.service.ts:206-207 | one committed create keeps every assignment pointing at a live owner on its node |
| Provisioning.KnowledgeIsStable | packages/backend/src/servers/servers.service.ts:257-273 | what a request read about its rows survives everything other requests do between its awaits |
| Provisioning.ClearUnnames | packages/backend/src/servers/servers.service.ts:266-270 | after the clear of a delete no allocation names its server any more |
| Provisioning.ForeignKeyNeverRefuses | packages/backend/src/database/entities/allocation.entity.ts:48-50 | in no run does the foreign key on serverId refuse the removal of a cleared server or the cascade of a node removal |
| Provisioning.ClearDetachesAnotherIff | packages/backend/src/servers/servers.service.ts:266-272 | the unconditional clear takes an allocation away from another server exactly when the row of the delete is already gone and the allocation is assigned again |
| Provisioning.OverlappingDeletesDetach | packages/backend/src/servers/servers.service.ts:257-273 | a concrete run of two overlapping deletes of one server that detaches a third server, so the condition above is reachable |
| Provisioning.LiveServerIsNamedIff | packages/backend/src/servers/servers.service.ts:206-207 | a server that a run created and that is still live is named by its allocation exactly when the allocation row existed at the commit and no later event was a clear that had found that allocation or the end of its deletion |
| Provisioning.NamedStep | packages/backend/src/servers/servers.service.ts:266-270 | one event takes the name of a live server away exactly when it is such a clear or deletion, and no event gives it back |
| Provisioning.RacingDeletionUnnames | packages/backend/src/allocations/allocations.service.ts:65-74 | a run in which a deletion of an allocation, checked before a create took it, removes it from the live server |
| Provisioning.UserRemovalRefusedIff | packages/backend/src/database/entities/server.entity.ts:124-126 | removing a user, which cascades to servers, is refused exactly when an allocation names one of them |
| Provisioning.CreateAllSucceeds | packages/backend/src/servers/servers.service.ts:104-214 | undisturbed, a create that fits beside whatever is committed, on a free allocation that no live server holds, goes through all its steps and adds exactly its row and its assignment |
| Provisioning.UnnamedHasLostItsName | packages/backend/src/servers/servers.service.ts:206-207 | in every run a live server whose allocation row exists and does not name it was named when its commit created it, and a later clear or allocation deletion took the name away |
| Provisioning.FreeAllocationIsRefusedIff | packages/backend/src/servers/servers.service.ts:192-214 | in every run a create past its checks, on an allocation that exists and names nobody, is refused at its commit exactly when a live server created on that allocation has lost its name |
| Provisioning.FourthCreateIsRefused | packages/backend/src/servers/servers.service.ts:257-273 | a run from the empty database that reaches this refusal: after a stale delete a create passes all its checks and its commit fails |
| Checks.EveryServerPassedItsChecks | packages/backend/src/servers/servers.service.ts:104-214 | behind every live server of every run stand, in this order, a load of its node, a read that found its allocation on that node and unassigned, an aggregate that left room for its memory and disk, and the commit of its columns |
| Checks.AllocationWasRead | packages/backend/src/servers/servers.service.ts:126-136 | a request past its allocation check had found the allocation on its node and assigned to nobody |
| Checks.CapacityWasChecked | packages/backend/src/servers/servers.service.ts:144-166 | a request past its capacity check had found room for its memory and its disk on the node as it was loaded |
| Checks.UpdateMovesCommitted | packages/backend/src/servers/servers.service.ts:145-151 | an update of a server moves what is committed on its node by exactly the difference |
| Capacity.OvercommitBound | packages/backend/src/servers/servers.service.ts:144-166 | with at most k creates of a node between check and commit, requests of at most m, no shrinking limit and no raising update, committed memory (disk) never exceeds capacity*(1+over/100), or 0 where that is negative, by more than (k-1)*m in any run |
| Capacity.SerialCreatesNeverOvercommit | packages/backend/src/servers/servers.service.ts:144-166 | one create at a time never over-commits a node |
| Capacity.BoundIsReached | packages/backend/src/servers/servers.service.ts:144-214 | the bound is tight for every k and m, for memory and disk: a disciplined run from the empty database in which k creates all check before any commits ends exactly (k-1)*m above the capacity of the node |
| Capacity.NeverOvercommitsIff | packages/backend/src/servers/servers.service.ts:144-214 | no run over-commits a node exactly when at most one create is between check and commit at a time, or requests are of size 0 |
| Capacity.CheckKeepsWithin | packages/backend/src/servers/servers.service.ts:144-166 | a passed check leaves committed plus in-flight requests within limit plus (k-1)*m |
| Capacity.CommitMovesRequest | packages/backend/src/servers/servers.service.ts:192-214 | a commit moves its request from in-flight to committed and conserves their sum |
| Capacity.RunKeepsWithin | packages/backend/src/servers/servers.service.ts:144-214 | the bound on committed plus in-flight requests is kept by every disciplined run |
| ServersService.ServersService.FindAllocation | packages/backend/src/servers/servers.service.ts:126-136 | the three allocation checks in their order, each with its own refusal |
| ServersService.ServersService.SumCommitted | packages/backend/src/servers/servers.service.ts:145-151 | the aggregate equals the sum over the servers of the node, memory and disk, whatever order the rows come in |
| ServersService.CommittedCounts | packages/backend/src/servers/servers.service.ts:145-151 | a new server adds its memory and its disk to what is committed on its node and to nothing else; no servers commit nothing |
| ServersService.ServersService.CheckCapacity | packages/backend/src/servers/servers.service.ts:144-166 | refuses exactly when a hundred times what is committed plus requested exceeds the capacity times 100 plus the overallocation, for memory first and then for disk |
| ServersService.ServersService.CommitTransaction | packages/backend/src/servers/servers.service.ts:192-214 | goes through exactly when the node exists and no server has the allocation; then it adds the row and assigns the allocation, and otherwise both tables stay as they were |
| ServersService.ServersService.ClearAllocation | packages/backend/src/servers/servers.service.ts:266-270 | unassigns the allocation that was read, and no other row |
| ServersService.ServersService.RemoveRow | packages/backend/src/servers/servers.service.ts:272-272 | removes the row unless an allocation still names it |
| ServersService.ServersService.Delete | packages/backend/src/servers/servers.service.ts:257-273 | an uninterrupted delete removes exactly its server, frees its allocation, keeps all other assignments and the safety of the rows |
| Lifecycle.InstalledIsLatestCode | packages/backend/src/servers/servers.service.ts:198-205 | in every interleaving `installed` is the code of the latest of create, reinstall, success and failure by either route; the row says INSTALLING exactly until the first report, create failure or suspension, and then installed is 0 |
| Lifecycle.InstallingIsNeverReentered | packages/backend/src/servers/servers.service.ts:339-342 | once left, INSTALLING never comes back, not even by a reinstall |
| Lifecycle.PowerPassesIff | packages/backend/src/servers/servers.service.ts:275-283 | in every run power passes its check exactly when the latest write of the status was a create failure, a report or a lifted suspension; with nothing reported, exactly when the latest suspension was lifted |
| Lifecycle.ForwardPossibleIff | packages/backend/src/servers/servers.service.ts:275-286 | a power action can be the next thing forwarded after a history of writes exactly when that history has a create failure, a report or a lifted suspension |
| Lifecycle.PowerWaitsForInstall | packages/backend/src/servers/servers.service.ts:275-286 | on a server never suspended before, a forwarded power action is preceded by a report or a create failure |
| Lifecycle.UnsuspendUnlocksAnInstallingServer | packages/backend/src/servers/servers.service.ts:322-328 | a run in which suspend and unsuspend during an install let power through with nothing reported |
| Lifecycle.RecordKeepsInv | packages/backend/src/servers/servers.service.ts:382-400 | every single write keeps the relation between the row and the history of writes |
| Lifecycle.ServerRepository.UpdateInstallStatus | packages/backend/src/servers/servers.service.ts:382-400 | any report other than success counts as a failure; both columns of that row are written, and an unknown server is refused |
| Lifecycle.ServerRepository.HandleInstallComplete | packages/backend/src/wings/event-handlers.ts:75-80 | the event route writes what a successful report writes |
| Lifecycle.ServerRepository.HandleInstallFailed | packages/backend/src/wings/event-handlers.ts:92-97 | the event route writes what a failed report writes |
| Lifecycle.ServerRepository.CheckPower | packages/backend/src/servers/servers.service.ts:275-283 | power is refused exactly for unknown, INSTALLING and SUSPENDED servers, each with its own refusal |
| Lifecycle.ServerRepository.Create | packages/backend/src/servers/servers.service.ts:198-206 | a new row is INSTALLING with installed 0 |
| Lifecycle.ServerRepository.MarkInstallFailed | packages/backend/src/servers/servers.service.ts:242-246 | a refusal by Wings sets the status and leaves installed alone |
| Lifecycle.ServerRepository.Suspend | packages/backend/src/servers/servers.service.ts:298-311 | refused when the loaded row is suspended, otherwise the stored status becomes SUSPENDED, whatever it is by then |
| Lifecycle.ServerRepository.Unsuspend | packages/backend/src/servers/servers.service.ts:322-328 | refused unless the loaded row is suspended, otherwise the stored status is cleared, whatever it is by then |
| Lifecycle.ServerRepository.Reinstall | packages/backend/src/servers/servers.service.ts:339-342 | only installed is reset; the status stays |
| Startup.BuildStartup | packages/backend/src/servers/servers.service.ts:183-187 | the loop over the environment computes the key-by-key replacement |
| Startup.OnePlaceholder | packages/backend/src/servers/servers.service.ts:183-187 | in a command with one placeholder the value takes its place, whatever the key |
| Startup.ExpandPatterns | packages/backend/src/servers/servers.service.ts:185 | what the replacement patterns of JavaScript stand for: a dollar sign, the match, the text before it and the text after it |
| Startup.VerbatimIffInert | packages/backend/src/servers/servers.service.ts:186-186 | for every template and every key the placeholder is replaced by the value as it stands exactly when no `$` in the value precedes one of `$`, `&`, backtick and apostrophe |
| Startup.ReplaceKeysIsSubstitution | packages/backend/src/servers/servers.service.ts:183-187 | key-by-key replacement in the string is simultaneous substitution in the template, as long as no literal text, and no value of an earlier key, can take part in a placeholder that is still to be replaced |
| Startup.KeyOrderIsIrrelevantIff | packages/backend/src/servers/servers.service.ts:185-187 | for word keys and inert values, the loop is simultaneous substitution in every order and template, and the order never shows in any template, exactly when no value can take part in the placeholder of another key that is not replaced by itself |
| Startup.HarmlessValuesAreApart | packages/backend/src/servers/servers.service.ts:185-187 | values in which every opening brace is followed by another character, such as JSON, meet that condition |
| Startup.TwoOrdersAgreeIff | packages/backend/src/servers/servers.service.ts:185-187 | on the placeholder of the first of two keys the two orders agree exactly when its value does not spell the placeholder of the second |
| Startup.PlaceholdersVanishIff | packages/backend/src/servers/servers.service.ts:185-187 | for word keys and inert values, no declared placeholder is left in any template and any order exactly when no value can take part in a declared placeholder, its own included |
| Startup.DeclaredPlaceholdersVanish | packages/backend/src/servers/servers.service.ts:185-187 | for one template and order, a declared placeholder is not left when neither literals nor values can take part in it |
| Startup.NestedValueBreaksOrder | packages/backend/src/servers/servers.service.ts:185-187 | two keys and a template on which the two orders give different commands |
| Startup.SpliceIsSubstitution | packages/backend/src/servers/servers.service.ts:186-186 | for one key, replacing in the rendered template is substituting in the template, whenever no literal can take part in its placeholder |
| Startup.SplitThenSplice | wings/src/docker.rs:122-122 | for one non-empty value without white space, splitting after replacing equals replacing in every argument, for every command string |
| Startup.ArgumentsAreStable | wings/src/docker.rs:122-122 | for values that are single words, the arguments Wings obtains from the finished command are the arguments of the template with the values filled in |
| Rules.ValidateVariableValue | packages/backend/src/common/utils/variable-validator.ts:6-115 | from the text of the rules: an empty value is valid exactly when no trimmed segment is required; another one exactly when it meets the demand of every segment, and for a single numeric, integer, boolean, in:, regex:, min: or max: exactly when the plain condition on the value holds; the errors are those of the broken rules in rule order |
| Rules.AcceptsFromText | packages/backend/src/common/utils/variable-validator.ts:13-114 | acceptance stated on the segments of the rule text, without the parser: required alone decides about an empty value, and every segment makes its demand on another one, min and max comparing numbers exactly when numeric or integer is a segment |
| Rules.SingleRule | packages/backend/src/common/utils/variable-validator.ts:40-110 | a value under one rule is valid exactly when it is a number, an integer, one of the four literals, in the list, matched by the stripped pattern, or within the length |
| Rules.TextIsParsed | packages/backend/src/common/utils/variable-validator.ts:35-112 | the chain of text comparisons reads every rule text for what it demands |
| Rules.BoundsAreInclusive | packages/backend/src/common/utils/variable-validator.ts:87-110 | min and max include the bound, for numbers and for lengths |
| Rules.DelimitersAreStripped | packages/backend/src/common/utils/variable-validator.ts:74-78 | /pattern/flags stands for pattern; a text without two slashes around it stands for itself |
| Rules.TrimIs | packages/backend/src/common/utils/variable-validator.ts:17 | white space around a rule is dropped, and nothing else |
| Rules.CheckRule | packages/backend/src/common/utils/variable-validator.ts:36-111 | one pass through the chain of branches reports an error exactly when the rule does not hold, and which one |
| Rules.NoErrorsIffAccepts | packages/backend/src/common/utils/variable-validator.ts:114-114 | no error is reported exactly when the conjunction of the rules holds, or the value is empty and not required |
| Rules.RuleOrderIsIrrelevant | packages/backend/src/common/utils/variable-validator.ts:17-115 | permuting the rules keeps the verdict and permutes the errors |
| Rules.AddingRulesNarrows | packages/backend/src/common/utils/variable-validator.ts:33-112 | adding any rule other than numeric and integer keeps every error, so it never turns invalid into valid |
| Rules.AddingNarrowsIff | packages/backend/src/common/utils/variable-validator.ts:33-112 | a rule can be added without ever turning an invalid value valid, for all hosts, values and rule lists, exactly when it is neither numeric nor integer |
| Rules.NumericTypeWidens | packages/backend/src/common/utils/variable-validator.ts:33-33 | a value that numeric or integer turns from rejected to accepted |
| Rules.BoundsAreBetween | packages/backend/src/common/utils/variable-validator.ts:56-110 | `integer&#124;min:a&#124;max:b` accepts exactly what `integer&#124;between:a,b` accepts, from the rule text on, for bounds without `&#124;`, comma or trailing space |
| Rules.BlankHasNoErrors | packages/backend/src/common/utils/variable-validator.ts:13-15 | the shortcut for blank rules agrees with evaluating them |
| Environment.ResolveEnvironment | packages/backend/src/servers/servers.service.ts:168-173 | exactly the declared keys; a provided value wins, otherwise the default of the last variable with the key |
| Environment.ResolvedIsUnique | packages/backend/src/servers/servers.service.ts:168-173 | request and egg determine the environment |
| Environment.ValidateServerVariables | packages/backend/src/common/utils/variable-validator.ts:117-137 | valid exactly when every variable, duplicates included, passes; each broken key carries the errors of its last broken variable |
| Environment.EmptyReportIff | packages/backend/src/common/utils/variable-validator.ts:136-136 | an empty error map means that every variable passes, and the other way round |
| Environment.DefaultingIsRedundant | packages/backend/src/common/utils/variable-validator.ts:129-129 | on a resolved environment the validator always judges the stored value; its own defaulting never happens |
| Environment.PrepareEnvironment | packages/backend/src/servers/servers.service.ts:168-181 | create goes through exactly when the environment fixed by request and egg satisfies the rules of every egg variable, duplicates included; it stores that environment, and otherwise reports on it |
| Paths.ValidatePath | wings/src/files.rs:21-77 | a null byte, a missing root and a target that cannot be resolved each have their own refusal; an existing target is accepted exactly when it resolves to the root or below, and the resolved path is returned; a missing one exactly when no prefix has more parent steps than names, giving root plus normal form |
| Paths.MissingTargetAccepted | wings/src/files.rs:49-74 | a missing target is accepted exactly when no prefix has more `..` than names, and the result is the root plus the lexical normal form |
| Paths.WalkIsFromRight | wings/src/files.rs:51-69 | what the stack machine leaves is what cancelling names from the right leaves, an independent definition of the normal form |
| Paths.AcceptedStaysBelowRoot | wings/src/files.rs:27-76 | whatever the file system answers, the returned path has the root as a prefix, and the inner re-checks and the check after trimming never fire |
| Paths.BranchesAgree | wings/src/files.rs:42-74 | without symbolic links, for an existing path whose normalisation stays under the root both branches return the root plus the normal form |
| Paths.BranchesAgreeIff | wings/src/files.rs:42-74 | for an existing path under the root the branches agree exactly when no prefix has more `..` than names |
| Paths.ReturningExists | wings/src/files.rs:42-48 | paths that leave the root and come back exist, so the condition can fail |
| Paths.ResolveIsWalk | wings/src/files.rs:43-48 | where both succeed, path resolution without links and the lexical walk reach the same path |
| Paths.RelativeRoundTrip | wings/src/files.rs:21-77 | writing names as a relative path and validating it gives the root plus those names |
| Paths.RevalidationIsIdentity | wings/src/files.rs:21-77 | validating an accepted path again relative to the root returns it |
| Paths.EachParentTakesOneBack | wings/src/files.rs:51-64 | as text: names followed by k times /.. give the root and all but the last k names, and one step more than there are names is refused |
| Paths.AcceptedLeadsBelowRoot | wings/src/files.rs:42-47 | with symbolic links: an existing target is accepted exactly when what it leads to lies at or below the root, and the returned path has no links left: following it leads to itself |
| Registry.AppState.LoadConfigs | wings/src/state.rs:67-86 | a uuid is loaded exactly when some parsing file holds it, with the configuration of the last such file in the order read |
| Registry.AppState.StoreServerConfig | wings/src/state.rs:36-41 | memory and the file of the server both hold the configuration, everything else is unchanged |
| Registry.AppState.PersistConfig | wings/src/state.rs:58-65 | creates the directory if needed and writes the one file |
| Registry.AppState.GetServerConfig | wings/src/state.rs:43-46 | reads memory only |
| Registry.AppState.RemoveServerConfig | wings/src/state.rs:48-56 | the entry and its file are gone, everything else is unchanged |
| Registry.OrderIsIrrelevantIff | wings/src/state.rs:73-83 | the loaded registry is independent of the directory order exactly when no two files disagree about a uuid |
| Registry.ReloadIsIdentity | wings/src/state.rs:36-86 | after any run of stores, removes and restarts, loading the disk in any directory order gives the registry in memory |
| Registry.CrashIsAtomic | wings/src/state.rs:36-65 | a crash at any point reloads the registry from just before or just after the interrupted operation |
| Power.LimitsAreExactIff | wings/src/docker.rs:115-116 | Docker gets the requested bytes exactly for requests below 2^43 MB, the CPU arithmetic is exact for every u32, and both paths compute the same limits |
| Power.LimitIsCongruent | wings/src/grpc.rs:438 | beyond 2^43 MB the limit is the requested number of bytes up to a multiple of 2^64 |
| Power.TouchesOtherIff | wings/src/docker.rs:72-76 | a live update, a delete or a start of one server changes, removes or makes the container of another exactly when their uuids agree in the first eight characters other than dashes |
| Power.ClashingUuids | wings/src/docker.rs:72-76 | two concrete uuids whose container names are the same |
| Power.ClashTouchesBoth | wings/src/docker.rs:72-76 | of two such servers, deleting one removes the container of the other, and a start of the other finds a container with the limits of the first |
| Power.WingsGrpcService.UpdateResources | wings/src/grpc.rs:425-456 | with a container, its limits are set, and a registered server keeps its record in memory and on disk with exactly memory, CPU and disk limit replaced; without one, and for an unregistered server, registry and disk are unchanged |
| Power.WingsGrpcService.PowerStart | wings/src/grpc.rs:258-271 | fails exactly when the container is missing and the server unregistered; a missing container is rebuilt with the limits of the registry, an existing one is left alone |
| Power.LiveLimitsSurvive | wings/src/grpc.rs:425-456 | after a live update of a registered server, any run without a sync, reinstall or other handler of it that loses containers or restarts the daemon, followed by a start, brings it back with exactly those limits |
| Power.RestLimitsSurviveIff | wings/src/routes/servers.rs:144-168 | after an update over HTTP, which leaves the registry alone, any such run, the loss of the container and a start, the limits are those of the registry, so they are the ones asked for exactly when the registry had them |
| Power.DeleteUndoesCreate | wings/src/grpc.rs:110-195 | deleting a server that was just created takes exactly its registration, its configuration file and its container away |
| Power.StoredLimitsComeBack | wings/src/grpc.rs:258-271 | limits stored by a sync or reinstall change no container and are in force after a loss and a start; a create over HTTP registers nothing to start from |
| Power.RestUpdateKeepsOthers | wings/src/routes/servers.rs:144-166 | a limit left out of the body keeps its value |
| Power.StepsKeepLimits | wings/src/grpc.rs:258-271 | registry and running container keep agreeing on the limits through every such run |
| Locks.ServerLocks.GetLock | wings/src/grpc.rs:48-53 | returns the mutex in the table, a new one only if there was none, numbered the way the runs of handlers number mutexes |
| Locks.ServerLocks.Remove | wings/src/grpc.rs:192-192 | removes the entry of one uuid; mutexes that were made stay what they are |
| Locks.SameMutexIffSameEpoch | wings/src/grpc.rs:48-53 | in every interleaving two handlers of one uuid wait on the same mutex exactly when the entry was not removed between their fetches |
| Locks.OneHandlerInsidePerEpoch | wings/src/grpc.rs:48-53 | of the handlers that fetched the lock between two removals of its entry at most one is inside its section, in every run |
| Locks.OneCurrentHandlerInside | wings/src/grpc.rs:176-195 | the handlers since the last removal all use the mutex in the table, so at most one of them is inside, although delete removes the entry while holding the guard |
| Locks.CanMeetIff | wings/src/grpc.rs:176-195 | in every run two handlers of one uuid can come to be inside together, neither leaving before, exactly when the entry was removed between their fetches |
| Locks.RemovalLetsTwoIn | wings/src/grpc.rs:176-195 | a run with one handler from before the removal and one from after it inside together |
| Locks.RunKeepsInv | wings/src/grpc.rs:48-53 | at most one mutex per uuid and epoch, and at most one holder per mutex, in every run |
| Liveness.NodesService.ProcessHeartbeat | packages/backend/src/nodes/nodes.service.ts:97-110 | stores the arrival, and writes CONNECTED with the version exactly when the node is known, had no heartbeat within 60 seconds and its loaded row was not CONNECTED |
| Liveness.NodesService.GetHealth | packages/backend/src/nodes/nodes.service.ts:113-128 | answers whether the node is online and writes DISCONNECTED only for an offline node stored as CONNECTED; an unknown node is refused |
| Liveness.OnlineIsConnected | packages/backend/src/nodes/nodes.service.ts:97-122 | with atomic handlers and a clock that does not go back, an online node is stored as CONNECTED in every run, whatever the rows said at start |
| Liveness.CheckIsExact | packages/backend/src/nodes/nodes.service.ts:113-122 | right after a health check the stored status is CONNECTED exactly when the node is online |
| Liveness.OnlineIffRecentBeat | packages/backend/src/nodes/node-heartbeat.store.ts:32-39 | a node is online exactly when a heartbeat of it came less than 60000 ms ago and the panel has not restarted since |
| Liveness.SteadyIsNeverOffline | packages/backend/src/nodes/node-heartbeat.store.ts:22-39 | while heartbeats come less than 60000 ms apart every event finds the node online and its stored status stays what it is, whatever rows the requests had loaded |
| Liveness.RunKeepsInv | packages/backend/src/nodes/nodes.service.ts:97-122 | no heartbeat lies in the future and online nodes are CONNECTED, through every run |
| LivenessAwaits.CanStayUnconnectedIff | packages/backend/src/nodes/nodes.service.ts:97-122 | in every timed run in which rows are loaded earlier and updates land later: right after a heartbeat that brings a node online, some continuation in which it stays online and all its updates land leaves it unconnected exactly when an update to something else than CONNECTED is on its way, or none is and the row says so already |
| LivenessAwaits.OnlineIsSettled | packages/backend/src/nodes/nodes.service.ts:97-122 | an online node was brought online by a heartbeat; all its updates that land since had been decided by then, and the last of them settles its status |
| LivenessAwaits.PendingShrinks | packages/backend/src/nodes/nodes.service.ts:105-122 | while a node stays online no handler decides an update of it; what was pending can only land |
| LivenessAwaits.LateUpdateDisconnects | packages/backend/src/nodes/nodes.service.ts:118-122 | a run in which an update decided by a health check lands after that of the next heartbeat and leaves the online node DISCONNECTED |
| LivenessAwaits.BeatAtOnceIsAtomic | packages/backend/src/nodes/nodes.service.ts:97-110 | a heartbeat whose update lands at once is the atomic handler |
| LivenessAwaits.CheckAtOnceIsAtomic | packages/backend/src/nodes/nodes.service.ts:113-128 | so is a health check |
| Liveness.StaleRowKeepsDisconnected | packages/backend/src/nodes/nodes.service.ts:97-122 | from a fresh panel, a health check between load and heartbeat leaves the node DISCONNECTED while it is online, through every continuation in which its heartbeats come in time |
| Liveness.ClockSetBack | packages/backend/src/nodes/node-heartbeat.store.ts:32-39 | a clock set back makes a node online and DISCONNECTED, so the assumption on the clock is needed |
| TwoFactor.AuthService.Login | packages/backend/src/auth/auth.service.ts:67-133 | accepts exactly the password of an existing enabled user, and opens one session exactly if that user has no two-factor authentication; otherwise nothing changes |
| TwoFactor.AuthService.RefreshToken | packages/backend/src/auth/auth.service.ts:135-158 | succeeds exactly for the token of a session that is not revoked and whose user exists and is enabled |
| TwoFactor.AuthService.Logout | packages/backend/src/auth/auth.service.ts:160-169 | revokes the session with the id, or refuses an unknown one |
| TwoFactor.AuthService.RevokeSession | packages/backend/src/auth/auth.service.ts:343-352 | revokes the session only if it belongs to the user |
| TwoFactor.AuthService.SetupTwoFactor | packages/backend/src/auth/auth.service.ts:171-188 | stores a pending secret exactly when two-factor authentication is off |
| TwoFactor.AuthService.VerifyTwoFactorSetup | packages/backend/src/auth/auth.service.ts:190-222 | promotes the pending secret and issues eight hashes, and changes no other column; or refuses, first for an unknown user, then without a pending secret, then for a wrong code |
| TwoFactor.AuthService.DisableTwoFactor | packages/backend/src/auth/auth.service.ts:224-247 | switches off with a valid code, clearing columns only where saving undefined does; or refuses with the first check that fails |
| TwoFactor.AuthService.TakeBackupCode | packages/backend/src/auth/auth.service.ts:276-289 | finds the first stored hash the code matches and removes just that one; otherwise the list is unchanged |
| TwoFactor.AuthService.VerifyTwoFactorLogin | packages/backend/src/auth/auth.service.ts:249-312 | opens a session exactly for an enabled user with a secret and a valid TOTP code or a stored backup code; the first matching backup code is removed, and nothing else changes |
| TwoFactor.AccountsAreIndependent | packages/backend/src/auth/auth.service.ts:190-312 | in every run over all users and sessions the row of a user is what that user's own requests make of it |
| TwoFactor.CodesAreConserved | packages/backend/src/auth/auth.service.ts:207-289 | in every run the hashes issued last are, as a multiset, those still stored plus those consumed since, so codes left and backup logins make eight |
| TwoFactor.IssuedCodeWorksOnce | packages/backend/src/auth/auth.service.ts:276-289 | after any run, while the issued codes are stored, a code is accepted by the backup route exactly when it was issued last and no backup login has used it since; no code is ever used twice |
| TwoFactor.EnabledHasSecret | packages/backend/src/auth/auth.service.ts:215-242 | usesTotp says exactly that a setup succeeded and was not disabled since, and it implies a stored secret |
| TwoFactor.SecretComesFromSetup | packages/backend/src/auth/auth.service.ts:180-185 | every secret ever stored or pending was generated by a setup request of that user |
| TwoFactor.VerifiedAgainIff | packages/backend/src/auth/auth.service.ts:215-219 | the same pending secret can be verified a second time exactly when saving undefined leaves the column alone |
| TwoFactor.RefreshesIff | packages/backend/src/auth/auth.service.ts:135-169 | after any run a session refreshes exactly when no logout or revocation of it is among the events and its user exists and is enabled; a revoked one never does again |
| TwoFactor.SessionsAreOpened | packages/backend/src/auth/auth.service.ts:67-133 | in every run the sessions not there at the start are exactly those opened by a login whose password matched the row of an enabled user without two-factor authentication, or by a second step with a valid TOTP code or a stored backup code |
| TwoFactor.RevokedIff | packages/backend/src/auth/auth.service.ts:343-352 | a stored session changes only by being revoked, exactly by the events that name it |
| Ports.Allocations.CreateBatched | packages/backend/src/allocations/allocations.service.ts:36-63 | a reversed range and one that spans more than 1000 are refused with nothing changed; otherwise exactly the ports the query did not find are added, unassigned, in order and at most 1001, or none if one of them is taken by now or the node is unknown |
| Ports.Allocations.CreatePerPort | packages/backend/src/admin/admin-allocations.controller.ts:84-113 | the same with one lookup per port, each at its own moment, and with the alias of the request |
| Ports.Allocations.SaveAll | packages/backend/src/database/entities/allocation.entity.ts:15-46 | a save adds all rows, or none if one of them violates the unique key or refers to an unknown node |
| Ports.Allocations.BulkDelete | packages/backend/src/admin/admin-allocations.controller.ts:134-142 | removes exactly the unassigned allocations of the node |
| Ports.CreateRefuses | packages/backend/src/allocations/allocations.service.ts:36-42 | which refusal a range gets, for every range and whatever the lookups saw; the unique key refuses exactly when a port that its lookup did not find is taken at the save |
| Ports.CreateAdds | packages/backend/src/allocations/allocations.service.ts:44-63 | what is added is exactly what the lookups did not find |
| Ports.CreatesExactlyTheMissing | packages/backend/src/allocations/allocations.service.ts:36-63 | undisturbed, either creator adds exactly the missing ports of the range in increasing order, at most 1001 of them, with the same rows aside from the alias; it is refused only for an unknown node with ports missing |
| Ports.RangeIsTaken | packages/backend/src/admin/admin-allocations.controller.ts:95-112 | the call goes through exactly when the node is known or the whole range is taken; afterwards a port is taken exactly when it was before or lies in the range |
| Ports.RepeatAddsNothing | packages/backend/src/allocations/allocations.service.ts:44-62 | repeating a call by either creator adds nothing |
| Ports.LimitIsOneMore | packages/backend/src/allocations/allocations.service.ts:40-42 | a free range of 1001 ports is created, one more than the refusal message says |
| Ports.UniquenessIsKept | packages/backend/src/database/entities/allocation.entity.ts:15-17 | whatever the lookups saw, a save keeps (node, ip, port) and ids unique |
| Ports.ActsAtTheSave | packages/backend/src/admin/admin-allocations.controller.ts:95-112 | if allocations are only added meanwhile, a creator meets the unique key exactly when a port of its range was taken between its lookup and the save, and otherwise acts as one step at the save |
| Ports.BulkDeleteUndoesCreate | packages/backend/src/admin/admin-allocations.controller.ts:134-142 | a bulk delete undoes a create on a node whose allocations were all assigned, and keeps exactly the assigned rows and those of other nodes |
| Telemetry.ReadMemoryInfo | wings/src/heartbeat.rs:106-126 | the last line of each key counts, an unreadable file gives zeros, and used never exceeds total |
| Telemetry.ParseIs | wings/src/heartbeat.rs:128-133 | a number is digits, after an optional plus sign, below 2^64; anything else is refused |
| Telemetry.MemoryIsExactIff | wings/src/heartbeat.rs:106-133 | from a file that reports T and A kB, total and used are those kilobytes in bytes exactly when T fits in 54 bits and A does too or wraps to at least T |
| Telemetry.PrintedValueIsRead | wings/src/heartbeat.rs:128-133 | the number the kernel prints is the number that is read, whatever padding and unit |
| Telemetry.DiskUsage | wings/src/heartbeat.rs:136-145 | used disk never exceeds the total, whatever statvfs says |
| Telemetry.DiskIsExactIff | wings/src/heartbeat.rs:136-145 | with no more blocks available than there are, the figures are exact exactly when the size in bytes fits in 64 bits |
| Telemetry.CpuInRangeIff | wings/src/heartbeat.rs:173-178 | the figure never exceeds 100 and is not negative exactly when the total did not advance or advanced at least as much as idle |
| Telemetry.CpuIsTheBusyShare | wings/src/heartbeat.rs:148-179 | from two samples whose parsed counters do not decrease and together advance by less than 2^64 the figure lies in [0, 100]; if the sum does not wrap in between it is the share of the advance that the fourth counter does not account for |
| Telemetry.InRangeIff | wings/src/heartbeat.rs:173-178 | for non-decreasing counters of any advance the figure is in range exactly when fewer than four were read, or the wrapped sum overflows in between, does not advance, or advances at least as much as idle |
| Telemetry.LineIsRead | wings/src/heartbeat.rs:149-163 | reading a line of a name and counters, each after any white space, gives back the counters |
| Telemetry.AggregateLineIsPrinted | wings/src/heartbeat.rs:150-156 | the first line of /proc/stat, with its two spaces after cpu, is such a line |
| Telemetry.SendHeartbeat | wings/src/heartbeat.rs:53-91 | the payload holds the figures of what was read, used never exceeds total, and it meets the bounds of the panel exactly when the CPU figure is not negative |
| Telemetry.HeartbeatIsAccepted | packages/backend/src/nodes/dto/heartbeat.dto.ts:27-56 | the panel accepts the payload, whatever the memory and disk readings, unless both samples can be read and a counter goes back or they together advance by 2^64 or more |
| Telemetry.PrintedHeartbeatIsAccepted | packages/backend/src/nodes/dto/heartbeat.dto.ts:27-56 | the same from the counters in two lines as the kernel prints them |
| Telemetry.DecreasingCounterIsRefused | wings/src/heartbeat.rs:173-178 | two printed lines in which a counter goes back while idle advances give a figure of -100 and a payload the panel refuses |

## Left out

- The checks of create on the node being online, Wings being reachable, the egg and the owner: they only end a request early, which the protocol models as an abort.
- `ServersService.update` is one step; that its save may write back other columns it had loaded is not modelled.
- `AllocationsService.assign` and `unassign`: no route of the panel calls them.
- Deleting a single allocation in `AllocationsService` and `AdminAllocationsController`: an unassigned row is removed, a single guarded statement; the protocol of Provisioning contains the deletion itself.
- Rules.ValidateVariableValue: error messages are constructors with the bounds as arguments, not English text.
- TwoFactor.AuthService.VerifyTwoFactorLogin: the temporary token is taken as already verified, because signing and expiry of JSON web tokens are not modelled.
- TwoFactor.AuthService.RefreshToken: does not model `lastActiveAt` or the access token it signs.
- TwoFactor: overlapping handlers of one user; every handler is one step on the stored row.
- Ports.Allocations.CreatePerPort: the rows each lookup sees are a parameter, because one call of a method cannot show other requests between its awaits; ranges of fractional numbers are not modelled.
- Power.WingsGrpcService.PowerStart: stop, restart and kill, which do not read the registry, and the events that follow a power action.
- Power: port bindings, volumes and environment of a container; volume paths differ between create, reinstall and sync and nothing is claimed about them.
- Paths.AcceptedStaysBelowRoot: does not say where a missing target really lies when a directory above it is a symbolic link; the lexical branch does not resolve links.
- Registry: failed or torn writes, which `persist_config` ignores, and a data directory that does not exist (it loads as an empty registry).
- Liveness: adding and removing nodes, the other heartbeat figures the panel keeps in memory, and saving an edited node, which may write back a connection status loaded earlier (`NodesService.update`).
- Provisioning: which user owns a server; removing a user is an event that carries the servers it cascades to.
- Telemetry.CpuIsTheBusyShare: does not model the rounding of floating-point division.
- `ConsoleBuffer` in wings/src/console.rs: a bounded queue, which would add only easy members.
- Installation scripts, console, files other than path validation, Docker, HTTP and gRPC transport: only their effect on the modelled state appears.
- Frontend, guards and roles, search, notifications, audit log, locations, subusers, API keys, databases, schedules and pagination: requests with a single branch.
