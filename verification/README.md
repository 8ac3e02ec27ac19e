# Declarative Onboarding in Dafny

F5 Declarative Onboarding takes a declaration, compares it with the configuration of a BIG-IP and issues the creations,
changes and deletions that make the two agree. It records the configuration it found first, so that it can fall back to
it, and it carries on where it was when the worker restarts. This project models the parts in which those promises are
kept, over an abstract device, and proves what they guarantee - and exactly when.

| files | what they model |
|---|---|
| `SelfIpStore`, `SelfIpHandler`, `SelfIpTheorems`, `SelfIpDeclarations` | replacing self IPs: what is deleted first, what is put back, in which order |
| `VlanNames`, `RouteDomains`, `RouteDomainFix`, `VlanConservation`, `VlanPlacement`, `VlanTheorems`, `VlanAttachments`, `VlanIdempotence` | re-partitioning VLANs over route domains |
| `Json`, `DeepDiff`, `DiffHandler`, `DiffTheorems` | diffing two declarations |
| `DeleteHandler`, `DeleteTheorems` | ordered deletion |
| `ClassNames`, `ListFixes`, `Reconcile`, `Restore` | carrying both declarations out: convergence, defaults, empty posts and rollback |
| `Refusals`, `ListEdits`, `ListRollback` | a run that fails because a deletion is refused, and the rollback to a snapshot that the run has edited |
| `DeepPath`, `Ids`, `IdsTheorems`, `State` | dotted paths, renaming between ids and newIds, upgrading the saved state |
| `Text`, `Sshd`, `Gslb` | the text formats that are printed to the device and read back |
| `TaskLifecycle`, `RestWorker` | a task across crashes, restarts, reboots and revocations |
| `InspectHandler` | objects that share a name in a generated declaration |
| `OriginalConfig` | the original configuration over any sequence of readings |

Code that works by changing things step by step is a class or a method with loops, proved against a function of its
inputs or of its old state; the theorems are about that function. `Object.keys` is a duplicate-free sequence where the
order matters and a set where it does not. `undefined` is `None`.

Several promises hold only under a condition, and then the condition is exact and the theorem is an equivalence. Where
plausible input fails, a lemma gives one:

* A self IP is deleted while a route still needs it when the subnet of a floating self IP that is taken along is wider
  than that of the local-only one (`SelfIpTheorems.LegalityIff`, `SelfIpDeclarations.WideFloatingSubnetIsIllegal`).
  The handler does not complete when a floating self IP is redeclared as local-only next to a redeclared neighbour
  (`SelfIpTheorems.CompletesIff`, `SelfIpDeclarations.FloatingTurnedLocalFails`).
* An empty GSLB class in the delete declaration deletes nothing, although elsewhere it stands for all objects
  (`DeleteTheorems.GslbOnlyByName`, `DeleteTheorems.EmptyGslbClassDeletesNothing`); so a GSLB data center that was
  posted stays when a blank declaration follows (`Restore.DataCenterStays`). Traffic groups are a class of truth with
  names, but nothing deletes them (`Restore.TrafficGroupStays`). What converges, and what a blank declaration brings
  back, is decided by `Reconcile.Converges` and `Restore.BlankRestores`.
* A rollback returns a class the snapshot holds nothing of to its original instead (`Restore.RollbackIff`,
  `Restore.SnapshotClassReplaced`).
* The fixes and the delete handler take address and port lists out of the snapshot a rollback goes back to
  (`ListEdits.ListsForgotten`). With the firewall module provisioned a list has an entry in two classes; it is there
  again after the rollback exactly when the failed declaration had it in one of the two and not in the other, or in
  neither and had no network lists at all (`ListRollback.PairRolledBackIff`). So a network list that is replaced by
  another one is lost (`ListRollback.ReplacedListIsLost`), and one that is declared in both classes is deleted by the
  rollback (`ListRollback.DoublyDeclaredListIsDeleted`) and written again by every run
  (`Reconcile.SecondRunIff`, `ListRollback.DoublyDeclaredNeverSettles`).
* An error that has not been saved is lost in a crash, and the task can then end as OK
  (`TaskLifecycle.ErrorIsFinalIff`). That happens when the state cannot be saved before a rollback
  (`TaskLifecycle.UnsavedErrorIsLost`), and to an error a client has been answered with when the device could not be
  initialised (`TaskLifecycle.AnsweredErrorIsFinalIff`, `TaskLifecycle.AnsweredErrorIsLost`).
* A rollback that is interrupted, or that fails and is followed by a crash, reports ROLLING_BACK for ever
  (`TaskLifecycle.CrashedStatusIsFinalIff`, `TaskLifecycle.FailedRollbackStaysRollingBack`).
* A second License object that asks for a revocation is revoked again after a restart (`TaskLifecycle.RevokesOnceIff`,
  `TaskLifecycle.SecondLicenseRevokesTwice`).
* A second updateIds translates a boolean that a null at its newId has hidden from the first one
  (`IdsTheorems.IdempotentIff`, `IdsTheorems.HiddenBoolean`).
* Once the original configuration holds an empty Disk class, no disk size is ever recorded
  (`OriginalConfig.LargestKeptIff`, `OriginalConfig.LateSizeIsLost`).
* Tasks that have been saved and loaded are never cleaned up (`State.ReloadedNeverExpire`,
  `State.OldTaskSurvivesReload`).
* An object called like a name generated for a conflict displaces another one or is overwritten
  (`InspectHandler.PlacedIff`, `InspectHandler.GeneratedNameDisplaces`).

## Model

| member | source | states |
|---|---|---|
| SelfIpHandler.BigIp.HandleSelfIp | src/lib/networkHandler.js:388-541 | sends, in this order, the deletions of both passes, the creations and what is to be put back, and leaves the device and the trace of requests as `Handle` describes; fails exactly when a request is refused |
| SelfIpHandler.BigIp.DeleteExistingSelfIps | src/lib/networkHandler.js:1256-1363 | one pass: routes, sync IP, matching floating self IPs, existing self IPs, with what has to be put back |
| SelfIpHandler.BigIp.SortBodies | src/lib/networkHandler.js:407-449 | the bodies of the declared self IPs, floating ones apart from the others, in declaration order |
| SelfIpHandler.BigIp.FindMatchingRoutes | src/lib/networkHandler.js:1437-1464 | the routes whose gateway lies in a doomed subnet, by distinct name |
| SelfIpHandler.BigIp.FindMatchingFloatingSelfIps | src/lib/networkHandler.js:1399-1430 | the floating self IPs in the subnet of a doomed local-only one, by distinct name |
| SelfIpHandler.BigIp.FindMatchingConfigSyncIp | src/lib/networkHandler.js:1371-1392 | the sync IP when a doomed self IP has its address |
| SelfIpStore.SubnetRules | src/lib/networkHandler.js:1399-1464 | an address is compared without its mask; route domain ids are taken out of gateway and subnet |
| SelfIpStore.NothingRemoved | src/lib/networkHandler.js:1437-1464 | a percent sign that no digit follows is no route domain id |
| SelfIpStore.SyncRules | src/lib/networkHandler.js:1371-1392 | the sync IP is an address without its mask, where no route domain id means 0 |
| SelfIpStore.NothingToMatch | src/lib/networkHandler.js:1371-1464 | a route without a gateway matches nothing, and neither does an unset sync IP |
| SelfIpTheorems.HandleEffect | src/lib/networkHandler.js:388-541 | the final store in closed form, and: the run goes through exactly when nothing is deleted twice |
| SelfIpTheorems.CompletesIff | src/lib/networkHandler.js:451-486 | with unique names the run completes exactly when no floating self IP taken along is itself redeclared as local-only |
| SelfIpTheorems.Conservation | src/lib/networkHandler.js:388-541 | the full paths are those of the declared and the undeclared self IPs, each once; declared ones are there as declared; undeclared ones have their VLAN, address, traffic group, allowService and policies, and every route its gateway, network and MTU; the sync IP has its old value; what depends on no redeclared self IP is not touched |
| SelfIpTheorems.OtherPropertiesLost | src/lib/networkHandler.js:489-520 | what the handler does not list is lost: the other properties of every route and floating self IP that is put back |
| SelfIpTheorems.LegalityIff | src/lib/networkHandler.js:1281-1355 | no self IP is deleted while a route, the sync IP or a floating neighbour needs it, exactly when the routes in the subnets of the floating neighbours are covered by the local-only pass |
| SelfIpDeclarations.BodiesWellFormed | src/lib/networkHandler.js:407-449 | the bodies built from a valid declaration meet what conservation needs |
| SelfIpDeclarations.DeclarationConserves | src/lib/networkHandler.js:388-541 | conservation in terms of the declaration, with the properties of a declared self IP one by one |
| SelfIpDeclarations.CreationOrder | src/lib/networkHandler.js:468-527 | creations come as local-only, declared floating, restored floating, sync IP, routes; the deletion phase creates nothing |
| SelfIpDeclarations.WideFloatingSubnetIsIllegal | src/lib/networkHandler.js:1281-1339 | a concrete device and declaration on which a self IP is deleted while a route needs it |
| SelfIpDeclarations.FloatingTurnedLocalFails | src/lib/networkHandler.js:451-486 | a floating self IP that is redeclared as local-only: the handler does not complete |
| VlanNames.TmosLawful | src/lib/declarationHandler.js:442-463 | parsing and printing names agree, for unqualified declared names and fully qualified current ones |
| VlanNames.PlainTmosName | src/lib/declarationHandler.js:442-463 | partition and name of a full name, read and printed |
| VlanNames.FolderedTmosName | src/lib/declarationHandler.js:442-463 | the same with a folder |
| VlanNames.PartitionAlone | src/lib/declarationHandler.js:442-463 | a partition alone has no name, and prints as if it were undefined |
| VlanNames.AtMostIff | src/lib/declarationHandler.js:544-553 | the lists are sorted by dictionary order: a prefix first, otherwise the first different character decides |
| RouteDomainFix.Declaration.ApplyRouteDomainVlansFix | src/lib/declarationHandler.js:434-554 | the route domains are left as `Fixed` describes |
| RouteDomainFix.Declaration.ApplyDefaultRouteDomainFix | src/lib/declarationHandler.js:369-399 | the route domains are left as `WithDefault` describes |
| RouteDomainFix.DefaultPresent | src/lib/declarationHandler.js:369-399 | route domain 0 is there afterwards, and of the others exactly those without id 0 |
| RouteDomainFix.PlacementAfterBothFixes | src/lib/declarationHandler.js:369-554 | the exact number of places of every VLAN after both fixes |
| RouteDomainFix.VlansFixIdempotent | src/lib/declarationHandler.js:434-554 | applying the VLAN fix again changes nothing, whatever the VLANs are called |
| RouteDomainFix.BothFixesIdempotent | src/lib/declarationHandler.js:369-554 | nor does applying both fixes again, with or without route domain 0 on the device |
| VlanConservation.FilterConserves | src/lib/declarationHandler.js:489-520 | while lists are filtered, a VLAN is never lost or doubled between the lists and what is left to place |
| VlanTheorems.DeclaredOnce | src/lib/declarationHandler.js:500-527 | every declared VLAN is in exactly one place |
| VlanAttachments.AttachedIff | src/lib/declarationHandler.js:470-487 | what is recorded: every undeclared folderless Common VLAN of the device, with the id of the last route domain that lists it |
| VlanAttachments.AttachedPlacement | src/lib/declarationHandler.js:500-542 | an undeclared attached VLAN is in one place if some route domain lists it or the id of its last current lister survives, in none otherwise |
| VlanAttachments.NoStale | src/lib/declarationHandler.js:499-519 | a folderless Common VLAN that is neither declared nor listed by the device is gone |
| VlanAttachments.ExactPlacement | src/lib/declarationHandler.js:434-554 | the three cases as one exact count |
| VlanAttachments.GoesBack | src/lib/declarationHandler.js:529-542 | an undeclared attached VLAN nobody lists returns to the last declared route domain with its id |
| VlanAttachments.StaysWithFirstLister | src/lib/declarationHandler.js:492-520 | one that is listed stays with the first route domain that lists it |
| VlanTheorems.GoesToFirstLister | src/lib/declarationHandler.js:492-520 | a declared VLAN goes to the first route domain that lists it |
| VlanTheorems.GoesToDefault | src/lib/declarationHandler.js:521-527 | a declared VLAN no route domain lists goes to route domain 0 |
| VlanIdempotence.ForeignKept | src/lib/declarationHandler.js:500-519 | entries of other partitions and of folders keep their multiplicity in every list |
| VlanIdempotence.Tidied | src/lib/declarationHandler.js:544-553 | every list ends up qualified and sorted, and the route domains are the same |
| VlanIdempotence.Idempotent | src/lib/declarationHandler.js:434-554 | the fix is idempotent for a fixed current configuration |
| DeepDiff.Differences | src/lib/diffHandler.js:78-83 | the edits between two trees, each once, in whatever order the keys are visited |
| DeepDiff.ApplyOne | src/lib/diffHandler.js:75-83 | applying one more edit extends the applied ones by one, in any order |
| DeepDiff.PatchedAll | src/lib/diffHandler.js:75-83 | applying every edit reaches the target |
| DeepDiff.DiffersIff | src/lib/diffHandler.js:78 | there is an edit exactly when the trees differ |
| DiffHandler.DiffHandler.Process | src/lib/diffHandler.js:56-170 | the callback's bookkeeping and the copying loop yield exactly the update and the delete declaration that `ToUpdate` and `ToDelete` define without any edits; so, object by object, unchanged ones are in neither, vanished ones in both with an empty body, changed ones only in the update with their new body; and classes outside the truth pass unchanged exactly if they are text or objects: arrays turn into objects, null into an empty one, numbers and booleans are dropped |
| DiffHandler.DiffHandler.PopulateNonTruthClasses | src/lib/diffHandler.js:196-212 | the classes outside the truth, copied |
| DiffHandler.NameDiffers | src/lib/diffHandler.js:85-108 | the names recorded for a class are those of the objects that differ |
| DiffHandler.DeletedBody | src/lib/diffHandler.js:110-134 | the recorded deletions are the classes and names that vanish |
| DiffTheorems.ClassDescribed | src/lib/diffHandler.js:56-170 | taken at their word, the two declarations of one class describe the target exactly when it can be told from nothing to write |
| DiffTheorems.TargetDescribed | src/lib/diffHandler.js:56-170 | the same for every class of truth of two whole declarations |
| DiffTheorems.NonEmptyTargetDescribed | src/lib/diffHandler.js:56-170 | so every target without empty bodies is described |
| DiffTheorems.NothingToDo | src/lib/diffHandler.js:78-158 | the diff touches no class of truth exactly when all of them agree already |
| DiffTheorems.EmptyDeleteMeansAll | src/lib/diffHandler.js:110-134 | an empty class in the delete declaration means that the whole class vanished, and only that |
| ListFixes.CurrentConfiguration.ApplyListFixes | src/lib/declarationHandler.js:917-1038 | the four fixes take out of the current configuration the lists that are declared in the class of their namesakes |
| Reconcile.GetsThrough | src/lib/deleteHandler.js:121-240 | after the update has been written, the delete handler gets through on every delete declaration the diff produces |
| Reconcile.CarriedClass | src/lib/deleteHandler.js:121-283 | both declarations carried out with the delete handler's own rule leave a class without namesakes as `ClassAfter` says |
| Reconcile.ListAfter | src/lib/deleteHandler.js:171-218 | and a list as it is declared, or was, or as the namesake of a new one, and gone when neither class declares it |
| Reconcile.ListPresentIff | src/lib/declarationHandler.js:917-1038 | with namesakes on the device, a list is there in both classes exactly when one of the two declares it |
| Reconcile.ClassAttained | src/lib/deleteHandler.js:95-119 | that is the target exactly when every vanishing object is one the delete handler takes away and what is written is no empty body |
| Reconcile.Converges | src/lib/declarationHandler.js:1334-1356 | a run takes a class of truth, lists included, to its target exactly when the target is attainable from what the device held |
| Reconcile.SecondRunIff | src/lib/diffHandler.js:78-158 | a second run with the same target is silent about a class exactly when the target is attainable from what the first run saw and no list is declared in both classes |
| Restore.CommonDeclaration.ApplyDefaults | src/lib/declarationHandler.js:195-217 | missing and empty classes of truth get their original; Authentication its remote user defaults |
| Restore.CommonDeclaration.RemoveEmptyObjects | src/lib/declarationHandler.js:1321-1329 | empty classes are removed, the others stay |
| Restore.PostLeaves | src/lib/declarationHandler.js:109-155 | after a post a class is as declared, or as it was originally when it is missing or empty, exactly when that is attainable |
| Restore.PostLeavesAuthentication | src/lib/declarationHandler.js:205-217 | a declared Authentication that is not empty is there field by field, with the remote user defaults of the original if it declares none |
| Restore.BlankRestores | src/lib/declarationHandler.js:195-217 | a blank declaration brings a class back to its original exactly when that is attainable from the current state |
| Restore.RestoresOriginalIff | src/lib/declarationHandler.js:195-217 | the same after any sequence of posts |
| Restore.RestoresOriginal | src/lib/declarationHandler.js:195-217 | so, whatever was posted, a class the delete handler knows comes back, a GSLB class and a class without names if the original is not empty |
| Restore.DataCenterStays | src/lib/deleteHandler.js:263-283 | a posted GSLB data center that is on the device after a blank declaration |
| Restore.TrafficGroupStays | src/lib/deleteHandler.js:27-51 | a traffic group that is on the device after a blank declaration |
| Restore.RollbackIff | src/nodejs/restWorker.js:519-543 | a rollback, from whatever the failed attempt left, brings a class back to the snapshot exactly when its original is empty or the snapshot has something of it, and the snapshot is attainable |
| Restore.SnapshotClassReplaced | src/lib/declarationHandler.js:195-217 | a snapshot without VLANs that is rolled back to the original's VLAN |
| ListEdits.ListsForgotten | src/lib/deleteHandler.js:174-218 | which address and port lists the edited current configuration lacks once their classes have been processed, in terms of the request and the configuration before |
| ListEdits.RollbackAfterEditsIff | src/nodejs/restWorker.js:519-543 | the edits change nothing about what a rollback does to the other classes |
| Refusals.StopsThere | src/lib/deleteHandler.js:121-240 | an object the device refuses to delete: the classes before its own are processed, the run fails |
| ListRollback.ListReturnsIff | src/nodejs/restWorker.js:519-543 | after the rollback a list is on the device exactly when one of its two classes returns it, from the edited snapshot or, if that is empty, from the original; and with that body |
| ListRollback.PairBackByRequestIff | src/nodejs/restWorker.js:519-543 | a list of both classes is back, in both, unless both classes wanted to delete it and the network class not all of its lists |
| ListRollback.PairRolledBackIff | src/lib/declarationHandler.js:917-1038 | the same by the failed declaration: in exactly one class, or in neither with no network list declared |
| ListRollback.ReplacedListIsLost | src/lib/deleteHandler.js:171-218 | two configurations and a VLAN that cannot be deleted: the lists get through, the run fails, and the replaced list is in neither class after the rollback |
| ListRollback.DoublyDeclaredListIsDeleted | src/lib/declarationHandler.js:917-1038 | the same device, and a declaration with the list in both classes: the rollback deletes it |
| ListRollback.DoublyDeclaredNeverSettles | src/lib/declarationHandler.js:917-1038 | the second run with that declaration writes the list again |
| DeepPath.GetDeepValueIsGet | src/lib/doUtil.js:631-647 | re-joining and re-splitting the path reads component by component |
| DeepPath.GetAfterSetIff | src/lib/doUtil.js:631-667 | what is written reads back exactly when the path has no empty component |
| DeepPath.OthersUnchanged | src/lib/doUtil.js:593-667 | writing and deleting leave every unrelated path alone |
| DeepPath.DeletedIsGone | src/lib/doUtil.js:593-608 | after a deletion there is nothing at the path; it changes nothing exactly when there was nothing |
| DeepPath.RemoveUndoesPut | src/lib/doUtil.js:593-667 | deleting what was just written restores the object exactly when the place was free and its container existed |
| DeepPath.UnreadIff | src/lib/doUtil.js:631-647 | nothing is read from a value exactly when it is null, false, zero or the empty string |
| DeepPath.NothingToDelete | src/lib/doUtil.js:593-608 | nor is anything deleted from one, or at an empty path |
| DeepPath.WritableIff | src/lib/doUtil.js:649-667 | a path can be written on an empty object exactly when it is not empty and neither starts nor ends with a dot |
| DeepPath.ArrayIff | src/lib/doUtil.js:649-667 | a missing container becomes an array exactly when the next component is a whole number |
| Ids.Renamer.MapProperties | src/lib/configManager.js:803-924 | the loop over the table is the fold `MapFirst` |
| Ids.Renamer.Update | src/lib/parserUtil.js:35-71 | both loops together are `UpdateIds` |
| IdsTheorems.MapsMidway | src/lib/configManager.js:803-956 | after each row: what has moved to its newId, what is still at its id, and that nothing throws |
| IdsTheorems.UpdatedKey | src/lib/parserUtil.js:35-71 | updateIds, key by key |
| IdsTheorems.TextRead | src/lib/configManager.js:803-924 | text in Common loses its prefix unless the table retains it |
| IdsTheorems.FlagRead | src/lib/configManager.js:803-924 | a flag is true exactly when the device says its word, and absent only where the table says so |
| IdsTheorems.NameAssigned | src/lib/parserUtil.js:35-71 | a property the table renames to name is the name of the object afterwards |
| IdsTheorems.RoundTripIff | src/lib/parserUtil.js:35-155 | updateIds undoes mapProperties exactly on items whose table values survive |
| IdsTheorems.IdempotentIff | src/lib/parserUtil.js:108-155 | updateIds is idempotent unless a null at a newId hides a boolean at the id |
| IdsTheorems.HiddenBoolean | src/lib/parserUtil.js:108-155 | a row and an item for which a second updateIds changes the result |
| State.UpgradeOnce | src/lib/state.js:601-632 | the version gate makes the upgrade idempotent |
| State.ConstructTwice | src/lib/state.js:569-589 | constructing the state from an upgraded one changes nothing |
| State.UpgradeRestoresIds | src/lib/state.js:601-632 | what an earlier release recorded under newIds reads after the upgrade as the device had it |
| State.StateUpgradeRestores | src/lib/state.js:601-632 | the whole upgrade: an outdated configuration gets the version of the release and reads in every class, by name or not, as the device had it; any other one is not touched |
| State.NamePassedOn | src/lib/state.js:617-626 | objects by name keep their name where the table asks for it |
| State.OnlyTaskUpgraded | src/lib/state.js:569-589 | a state from before there were tasks becomes that of its only task |
| State.TasksUpgraded | src/lib/state.js:569-589 | the tasks of any other state stay, with their times as text |
| State.DoState.constructor | src/lib/state.js:43-54 | an empty state, or the upgraded copy, whose dates are text |
| State.DoState.AddTask | src/lib/state.js:61-74 | the new task is the most recent one and stays; exactly the expired ones go |
| State.DoState.CleanupOldTasks | src/lib/state.js:591-599 | exactly the expired tasks go |
| State.RetentionIff | src/lib/state.js:591-599 | a task stays exactly when it is at most seven days old or its age is not a number |
| State.ReloadedNeverExpire | src/lib/state.js:591-599 | a loaded task, whose time is text, never expires |
| State.OldTaskSurvivesReload | src/lib/state.js:591-599 | a task of eight days that is cleaned up, and stays once the state has been loaded |
| State.DoState.UpdateResult | src/lib/state.js:529-559 | falsy arguments leave the old value, errors are appended |
| State.ErrorsAccumulate | src/lib/state.js:529-559 | over any sequence of updates the errors are all errors given, in order |
| State.LastCodeCounts | src/lib/state.js:529-559 | the code is the last one given |
| State.LastTextCounts | src/lib/state.js:529-559 | so are the status and the message |
| State.NothingGiven | src/lib/state.js:529-559 | updates that give only errors leave everything else |
| Sshd.PrintInclude | src/lib/systemHandler.js:1209-1232 | the text is one line for each given setting, in order |
| Sshd.ConfigItem.PatchSSHD | src/lib/configManager.js:1220-1247 | the settings read line by line; fails exactly when a line lacks its list |
| Sshd.IncludeRoundTrip | src/lib/configManager.js:1220-1247 | reading the printed text returns the settings exactly for clean ones |
| Sshd.PrintedKeywords | src/lib/systemHandler.js:1209-1232 | the keyword of every setting and the form of its value |
| Text.ParseIntForms | src/lib/configManager.js:1235-1244 | the number read from an argument: white space, a sign and a trailing rest are accepted, text without leading digits gives NaN |
| Gslb.DestinationRoundTrip | src/lib/gslbHandler.js:244 | splitting a printed destination returns address and port, whatever the address |
| Gslb.DestinationInjective | src/lib/gslbHandler.js:244 | different destinations print differently |
| Gslb.MonitorsRoundTrip | src/lib/configManager.js:1398-1401 | space-free monitor names come back, unless the list is one empty name |
| Gslb.PrintedForms | src/lib/gslbHandler.js:204-244 | an IPv4 destination, an IPv6 destination and a list of monitors as the device expects them |
| TaskLifecycle.StatusIsHonest | src/nodejs/restWorker.js:476-597 | over all runs with crashes: OK and REBOOTING only after process resolved, OK with 200, progress with 202, errors with a code |
| TaskLifecycle.SavedExactly | src/nodejs/restWorker.js:340-597 | which steps save, and that the task is then on disk as it is; every other step leaves the disk |
| TaskLifecycle.OutermostHandler | src/nodejs/restWorker.js:355-400 | outside of onboard a rejection ends the chain with ERROR and 500, unsaved |
| TaskLifecycle.InvalidRequests | src/nodejs/restWorker.js:200-250 | an invalid declaration is answered with 400 and saved, a malformed request with 400 and not saved |
| TaskLifecycle.SavedAtStart | src/nodejs/restWorker.js:814-836 | a start saves nothing, or RUNNING ahead of the change of the declaration, with the directives still in it |
| TaskLifecycle.NoDeviceCode | src/nodejs/restWorker.js:1387-1403 | a device that cannot be initialised is reported with the code of the failure, or 500 |
| TaskLifecycle.RejectionsRollBack | src/nodejs/restWorker.js:509-519 | every rejection of process, or of the save after it, leads to the rollback with its code |
| TaskLifecycle.AnsweredIsDone | src/nodejs/restWorker.js:382-400 | after the answer nothing more happens to a task but saves, other tasks and crashes |
| TaskLifecycle.Interruptions | src/nodejs/restWorker.js:780-812 | another task takes over as the most recent one; a crash loses what is in memory |
| TaskLifecycle.ErrorIsFinalIff | src/nodejs/restWorker.js:509-597 | no step, crash or restart changes an error, exactly when it has been saved |
| TaskLifecycle.AnsweredErrorIsFinalIff | src/nodejs/restWorker.js:355-392 | the error a client is answered with is final exactly when it is saved; it is when the device was reached, and it is not, on its own, when the device could not be initialised or the request was malformed |
| TaskLifecycle.AnsweredErrorIsLost | src/nodejs/restWorker.js:1387-1403 | a run in which the device cannot be initialised, the client is answered, and after a crash the task ends as OK |
| TaskLifecycle.UnsavedErrorIsLost | src/nodejs/restWorker.js:509-557 | a run in which the save before the rollback fails, and after a crash the task ends as OK |
| TaskLifecycle.CrashedStatusIsFinalIff | src/nodejs/restWorker.js:786-900 | after a crash the saved status is final exactly when a start does not pick it up |
| TaskLifecycle.FailedRollbackStaysRollingBack | src/nodejs/restWorker.js:509-557 | a run in which a rollback fails and the worker crashes: the status is ROLLING_BACK for ever |
| TaskLifecycle.RevokesOnceIff | src/nodejs/restWorker.js:830-858 | at most one revocation over all runs exactly when the declaration no longer asks for one without the first License's directives |
| TaskLifecycle.LastGivenCounts | src/lib/systemHandler.js:639-665 | of every directive the last License object that gives it counts |
| TaskLifecycle.AsksIff | src/lib/systemHandler.js:639-665 | a license by key asks for a revocation with revokeCurrent, any other one with revokeFrom |
| TaskLifecycle.SecondLicenseRevokesTwice | src/nodejs/restWorker.js:830-858 | two License objects that both ask can be revoked twice |
| TaskLifecycle.SingleLicenseRevokesOnce | src/lib/systemHandler.js:639-665 | so for a declaration with one License object |
| RestWorker.RestWorker.Onboard | src/nodejs/restWorker.js:476-557 | never rejects; ends with process resolved and its wish for a reboot recorded, or with ERROR and the code of the rejection, unless a reboot cuts it short; saves ROLLING_BACK before a rollback, and skips the rollback when that save fails; at most one revocation |
| RestWorker.RestWorker.SetPostOnboardStatus | src/nodejs/restWorker.js:559-597 | ERROR stays, otherwise REBOOTING or OK by the reboot flag and the prompt; saved at the end |
| RestWorker.RestWorker.OnboardAndReport | src/nodejs/restWorker.js:476-597 | the two in sequence: REBOOTING with 202 exactly when process resolved and it or the prompt asks for a reboot, OK with 200 exactly when it resolved and neither does, ERROR otherwise; saved |
| RestWorker.RestWorker.HandleStartupState | src/nodejs/restWorker.js:786-900 | what is resumed, what becomes OK, what stays |
| RestWorker.RestWorker.License | src/lib/systemHandler.js:639-665 | a revocation is requested once when asked for and not skipped |
| DeleteHandler.DeleteHandler.DeleteClass | src/lib/deleteHandler.js:121-240 | one class: named or all current objects, namesakes, retained objects, the route domain transaction |
| DeleteHandler.DeleteHandler.Process | src/lib/deleteHandler.js:92-283 | the GSLB transaction, then every class in order |
| DeleteTheorems.GetsThroughIff | src/lib/deleteHandler.js:121-240 | on a device that refuses nothing the run goes through exactly when what is looked up or deleted in a transaction is there |
| DeleteTheorems.Complete | src/lib/deleteHandler.js:121-240 | everything asked for that is not retained is gone, although the current configuration is edited on the way |
| DeleteTheorems.DeletesInOrder | src/lib/deleteHandler.js:27-51 | the requests go through the classes in order |
| DeleteTheorems.Restrained | src/lib/deleteHandler.js:95-119 | nothing retained is deleted or sent for deletion; nothing goes that was not asked for |
| DeleteTheorems.DeviceObjectsStay | src/lib/deleteHandler.js:95-119 | the device groups, tunnels, resolver, route domain and monitors the device needs are never deleted nor sent for deletion, by their literal names |
| DeleteTheorems.OthersGo | src/lib/deleteHandler.js:121-240 | every other object that is asked for, by name or as one of its class, is gone |
| DeleteTheorems.EverythingSent | src/lib/deleteHandler.js:121-283 | a deletion is sent for every object that is asked for, present or not; for a list it may be that of its namesake |
| DeleteTheorems.ExactlyGone | src/lib/deleteHandler.js:95-240 | an object that is neither a list nor of a GSLB class goes exactly when it is asked for and not retained |
| DeleteTheorems.GslbOnlyByName | src/lib/deleteHandler.js:263-283 | a GSLB object goes exactly when it is named; an empty class deletes none |
| DeleteTheorems.EmptyGslbClassDeletesNothing | src/lib/deleteHandler.js:263-283 | a device with one GSLB server and a request for all of them: the server stays |
| InspectHandler.MakeTenantDeclaration | src/lib/inspectHandler.js:553-591 | the loop over the emitted objects is the fold `EmitAll` |
| InspectHandler.EveryObjectPlaced | src/lib/inspectHandler.js:563-590 | single keys keep their name, the i-th emission of a repeated one gets the suffix i, nothing else is stored, and the conflict flag is set exactly when a key repeats |
| InspectHandler.StoredOnce | src/lib/inspectHandler.js:563-590 | each object is under exactly one name |
| InspectHandler.PlacedIff | src/lib/inspectHandler.js:569-586 | every object is where it belongs exactly when, emission by emission, no key is a name generated before and no generated name is the key of one object |
| InspectHandler.GeneratedNameDisplaces | src/lib/inspectHandler.js:569-586 | three objects of which one is called like a generated name: one is misplaced |
| InspectHandler.TenantClassKeptIff | src/lib/inspectHandler.js:555-590 | the declaration keeps its own class exactly when no object is called that |
| OriginalConfig.ConfigManager.UpdateOriginal | src/lib/configManager.js:525-592 | the end of get, for db variables and the disk |
| OriginalConfig.FirstValueKept | src/lib/configManager.js:537-547 | the recorded value of a variable is the first non-empty one ever read |
| OriginalConfig.ValueStays | src/lib/configManager.js:537-547 | and stays for all further readings |
| OriginalConfig.VariablesRecordedIff | src/lib/configManager.js:537-592 | the class of variables is recorded, be it empty, exactly once it or the provisioning has been read |
| OriginalConfig.LargestKeptIff | src/lib/configManager.js:549-592 | the largest disk size is recorded exactly when no reading without a size created an empty Disk class before |
| OriginalConfig.LateSizeIsLost | src/lib/configManager.js:549-592 | a reading without the Disk class and then one with a size: the size is not recorded |
| OriginalConfig.LargestKeptWhenProvisioned | src/lib/configManager.js:549-592 | with provisioning always read: exactly when the first reading has a size |

## Left out

- Sending requests, retries, logging, telemetry, encryption, webhooks, schema validation, the trace files and cleanDiff.
- The bodies most handlers build, BIG-IQ and TCW polling, and waiting for a remote device to reboot.
- The tables in configItems.json: they are parameters, with the conditions the theorems need.
- isInSubnet of an outside library: a parameter, as are versionCompare, clocks and generated ids.
- Promise.all is a loop that stops at the first failure. What a failed run leaves behind is not described; a failed self-IP run may have lost routes.
- Objects named like a property of Object.prototype, objects without a name, and tenants other than Common.
- JavaScript numbers are integers, so printing beyond 1e21 differs; sorting is by code point instead of UTF-16 unit.
- DeepPath.GetAfterSetIff: setDeepValue, deleteKey, mapProperties and updateIds edit nested objects in place; the model rebuilds values, so sharing between objects and the part written before an exception are not captured. Strings have no index properties.
- DeepDiff.Differences: arrays are compared as a whole, where the package also reports changes inside them; the handler copies an updated class as a whole or object by object either way.
- DiffHandler.DiffHandler.Process: classes of truth are text, lists, or objects, and named classes hold objects under non-empty names; the schema accepts nothing else.
- IdsTheorems.RoundTripIff: rows with transform, stringToInt, dereferenceId, schemaMerge or a default are not in the table, nor is the newId called name; mapProperties is modelled with translateToNewId only.
- Restore.RollbackIff: the classes rewritten by a fix function (host names, management addresses, route domains and others) are not covered, removeUnwantedProperties is left out, and no object of the original is an empty body.
- Reconcile.Converges: writing a body replaces the object's body; what a handler does about a property that is absent, and a device that refuses a body, are not part of this model. RoutingBGP and ManagementIp, whose own handlers replace objects, are excluded. The namesake of a new list reads like some body that is not empty, and one that exists is not changed by writing the list in the other class.
- ListFixes.CurrentConfiguration.ApplyListFixes: the fixes also sort addresses and turn ports into text, which is not part of this model.
- Restore.RestoresOriginal: for lists the exact statement is Restore.BlankRestores.
- ListEdits.ListsForgotten: the class that fails is a later one; a list class that fails has edited the configuration for all its names, which is not described.
- TaskLifecycle.StatusIsHonest: the handshakes of READY_FOR_REVOKE and REBOOT_NOW are single steps, snapshots carry no revoke directive and grow no disk, the platform is BIG-IP, and the clean-up of old tasks does not reach this one. The worker is a transition system; RestWorker shows which runs its methods are.
- DeleteHandler.DeleteHandler.Process: a list and its namesake are one object on the device, as with AFM provisioned; the deletion of Authentication parts and of VXLAN profiles, and the encoding of names in paths, are not part of this model.
- OriginalConfig.LargestKeptIff: classes that require a module are not part of this model.
