# Verified models of rancher machine

Dafny models of the parts of the machine tool whose correctness depends on the order of
steps, on partial failure or on interleaving, with proofs of what their control flow keeps.
The outside world (Azure, the disk, the plugin process, a provider) is a state that changes one
call at a time. Every call can fail, before or after it has had its effect.

| modules | what they model |
|---|---|
| `AzureCloud`, `AzureDriver`, `AzureClient`, `AzureSafety`, `AzureTidy`, `AzureRuns`, `AzureFaults`, `AzureOptions` | Create and Remove of the Azure driver, for any number of machines that share networks and security groups |
| `PluginClose`, `Heartbeat` | closing driver plugins, and the timing of heartbeats between client and plugin server |
| `StoredConfig`, `HostMigration`, `Filestore` | migration of stored host configurations and the replacement of files on disk |
| `Text`, `Decimal`, `VersionCompare` | comparison of Docker version strings |
| `FanIn`, `Permutations`, `HostList`, `Actions` | goroutines that report to one collector, `ls`, and actions on several machines |
| `Lifecycle` | the order in which `create` and `rm` change the store and the provider |
| `Ports`, `Ec2Permissions`, `GoogleFirewall` | what the EC2 and Google drivers add to security groups and firewall rules |
| `Progress`, `HostOnlyAdapters` | the download progress meter and the VirtualBox adapter list |
| `Wrappers` | a value that may be absent |

How to read them:

- An Azure command is a function of the cloud, of the machine's configuration and of a plan that
  says how each call ends. It returns the log of changes that it made. `AzureClient.Driver` is the
  same command as a class that changes the cloud in place; each of its methods is proved equal to
  the function. The model cloud never refuses a delete, so safety is owed to the driver alone.
- A concurrent protocol is a state with steps. A run is any sequence of enabled steps.
- `Disk.history` has every state of the file system there has been, so a clause about all of it
  covers a crash at any point.

## Where the code and its promises differ

Each of these is kept as the code has it, shown on a concrete input where one is named, and
stated as an exact condition.

- Azure `Remove` looks for a network by its unsplit name, so a network named `group:name` and its
  subnet are left behind (`LifeLeavesNothingExactly`, `PrefixedNetworkIsLeft`).
- Without the option for a security group, Azure `Remove` deletes an unattached group of the
  fallback name even if it does not carry the tag (`RemovalDeletesUserNsgExactly`,
  `FallbackRemovesUserNsg`).
- `CanBeDeleted` ignores the error of its refresh and then dereferences nil, and the check of an
  availability set, which is false for any list of VMs, dereferences a missing list
  (`RemoveCrashesExactly`, `OneFailedRefreshCrashes`).
- A Close that reaches a driver whose construction has not set its plugin yet dereferences nil
  (`RunsAreSafe`, `ClosingTooEarlyPanics`).
- A failed heartbeat makes the goroutine send to itself; its driver is never closed, and no Close of
  the factory returns any more (`FailedHeartbeatBlocks`, `OneFailedHeartbeat`).
- The package comment of versioncmp says that suffixes are ignored. The number of a release
  candidate counts (`SuffixIsIgnoredExactly`, `ReleaseCandidateCounts`).
- `ls` shows one machine in the place of another when their names differ in case only
  (`ListingIsComplete`, `SortingLosesNothingExactly`, `CaseClashLosesItem`). A host in error hides one
  that answered; otherwise it can depend on the order of arrival which one is shown
  (`ArrivalMattersExactly`, `RunsAgreeExactly`).
- A forced `rm` can forget a machine that still exists (`OrphanedExactly`, `ForcedRemovalOrphans`).
- A save after the machine was made, or the load of an older entry by `rm`, can leave an entry that
  cannot be loaded, and then no unforced `rm` gets at the machine (`CreateLosesExactly`,
  `RemovalLosesExactly`, `RunsKeepLoadableExactly`, `LostSave`, `LostLoad`).
- An EC2 port written with a leading zero is added again by every configuration, even to a group
  that has the port (`ConvergesExactly`, `LeadingZeroNeverSettles`, `ReturnedAreNewExactly`,
  `LeadingZeroIsReturnedAgain`).
- Once a hundred times the bytes received overflows 64 bits, the progress text can depend on how
  the reads were cut (`CutsShowExactly`, `OverflowShowsCuts`), and a complete download of such a
  length never comes to 100% (`CompleteText`, `OverflowPrintsNothing`).
- `saveToFile` ends with the old content gone and the new one not in place exactly when everything
  up to the removal works and the rename does not (`SaveToFile`, `RenameFailureLosesFile`). The
  migrating load is safe because it writes a backup first.

## Model

| member | source | states |
|---|---|---|
| AzureCloud.SameNetworkExactly | drivers/azure/util.go:213-219 | Remove looks for the network that Create made if and only if the option has no colon |
| AzureCloud.NamesAreInjective | drivers/azure/azureutil/naming.go:7-40 | two machines never share the name of an interface or of an address |
| AzureClient.Driver.Request | drivers/azure/azureutil/azureutil.go:147-155 | a request that works, is lost or reports an error late has the effect that the fault model gives it |
| AzureClient.Driver.CreateNetworkSecurityGroup | drivers/azure/azureutil/azureutil.go:112-155 | rules are written only to a group with the tag or a new one, and a missing group outside the machine's own resource group is refused; equal to EnsureNsg, and the context then refers to the group |
| AzureClient.Driver.CreateVirtualNetworkIfNotExists | drivers/azure/azureutil/azureutil.go:210-256 | refines EnsureVnet: an existing network is kept, and refused in another location |
| AzureClient.Driver.CreateSubnet | drivers/azure/azureutil/azureutil.go:267-301 | refines EnsureSubnet, and the context then refers to the configured subnet, old or new |
| AzureClient.Driver.CreatePublicIPAddress | drivers/azure/azureutil/azureutil.go:163-202 | refines EnsureIp, and the context then refers to the machine's own address |
| AzureClient.Driver.CreateNetworkInterface | drivers/azure/azureutil/azureutil.go:314-361 | puts an interface made of exactly the references passed in |
| AzureClient.Driver.Create | drivers/azure/azure.go:393-464 | the whole run, with references passed through the deployment context, equals the specification, so the interface is the configured one |
| AzureClient.Driver.CreateMachine | drivers/azure/azure.go:433-463 | address, interface and VM are made from the references in the context; equal to PutMachine, which AzureSafety.MachineStep is about |
| AzureClient.Driver.DeleteVirtualMachineIfExists | drivers/azure/azureutil/azureutil.go:456-480 | a VM that is gone already is no failure; equal to RemoveVm for every fault |
| AzureClient.Driver.DeleteNetworkInterfaceIfExists | drivers/azure/azureutil/cleanup.go:234-262 | an interface that is gone already is no failure; equal to RemoveNic for every fault |
| AzureClient.Driver.DeletePublicIPAddressIfExists | drivers/azure/azureutil/cleanup.go:204-232 | an address that is gone already is no failure; equal to RemoveIp for every fault |
| AzureClient.Driver.DeleteNetworkSecurityGroupIfExists | drivers/azure/azureutil/cleanup.go:157-202 | the counted lists of the refreshed reference decide as attachment in the cloud does |
| AzureClient.Driver.CleanupAvailabilitySetIfExists | drivers/azure/azureutil/cleanup.go:130-155 | never deletes, and panics exactly as KeepAvailabilitySet says |
| AzureClient.Driver.CleanupSubnetIfExists | drivers/azure/azureutil/cleanup.go:60-93 | the counted interfaces of the refreshed subnet decide as attachment in the cloud does; equal to RemoveSubnet |
| AzureClient.Driver.CleanupVirtualNetworkIfExists | drivers/azure/azureutil/cleanup.go:95-128 | the counted subnets of the refreshed network decide as attachment in the cloud does; equal to RemoveVnet |
| AzureClient.Driver.Remove | drivers/azure/azure.go:467-510 | the whole run equals the specification, stopping at the first failure |
| AzureSafety.CreateIsDisciplined | drivers/azure/azure.go:393-464 | every change that Create makes, up to any fault, is allowed in the state it is made in |
| AzureSafety.RemoveIsDisciplined | drivers/azure/azure.go:467-510 | the same for Remove: each deletion is of something that nothing stands on any more |
| AzureSafety.NetworkStep | drivers/azure/azure.go:417-432 | after the network part of Create the group and the subnet exist, and all changes were allowed |
| AzureSafety.MachineStep | drivers/azure/azure.go:433-463 | address, interface and VM come in an order that never leaves a reference dangling |
| AzureSafety.MachineRemovalStep | drivers/azure/azure.go:490-498 | the interface goes only after its VM, and the address only after its interface |
| AzureSafety.NetworkRemovalStep | drivers/azure/azure.go:499-509 | group, subnet and network go only when unattached |
| AzureSafety.ExecuteIsDisciplined | drivers/azure/azureutil/cleanup.go:38-58 | both commands end in the state that their log of allowed changes leads to |
| AzureSafety.ChangeKeepsIntegrity | drivers/azure/azureutil/cleanup.go:38-202 | an allowed change keeps referential integrity and the ownership of names |
| AzureSafety.LogKeepsIntegrity | drivers/azure/azureutil/cleanup.go:38-202 | so does any log of allowed changes |
| AzureSafety.EveryStateIsSound | drivers/azure/azure.go:393-510 | in every state that a command passes through, whatever fails, each VM's interface exists and each interface's subnet, group and address, and each subnet's network |
| AzureSafety.RunKeepsIntegrity | drivers/azure/azure.go:393-510 | referential integrity over every sequence of commands of any machines, each failing anywhere |
| AzureSafety.ChangeSparesOthers | drivers/azure/azureutil/cleanup.go:38-202 | an allowed change leaves every other machine and all it stands on as they were |
| AzureSafety.RunSparesOthers | drivers/azure/azure.go:393-510 | no run of other machines' commands touches a VM, its interface, address, subnet, network or group, except for rules of a managed group |
| AzureSafety.RunKeepsUserNsg | drivers/azure/azureutil/azureutil.go:125-145 | an untagged group is neither changed nor deleted by any run, unless a removal falls back to its name |
| AzureTidy.CreateEffect | drivers/azure/azure.go:393-464 | a completed Create is one step: network and machine are added |
| AzureTidy.RemoveEffect | drivers/azure/azure.go:467-510 | a completed Remove is one step: the machine goes, and of the network what is unattached |
| AzureTidy.ArrivalStaysExact | drivers/azure/azure.go:412-463 | if the cloud holds exactly what its machines need, it does so with one machine more |
| AzureTidy.DepartureStaysExact | drivers/azure/azure.go:490-509 | and with one machine fewer, when the right network is looked for or still needed |
| AzureTidy.DepartureLeavesSubnet | drivers/azure/azure.go:505-509 | otherwise the subnet stays with nobody to use it |
| AzureTidy.RemoveStaysExactOrNot | drivers/azure/azure.go:467-510 | exactly when a completed Remove leaves no unneeded resource |
| AzureRuns.CreateIsLocal | drivers/azure/azure.go:393-464 | a completed Create does to the resource groups it names what it would do to them alone, and nothing to the rest |
| AzureRuns.RemoveIsLocal | drivers/azure/azure.go:467-510 | so does a completed Remove, if nothing outside refers into the groups |
| AzureRuns.CompletedRunIsTidy | drivers/azure/azure.go:393-510 | from any sound cloud with nothing in the groups concerned, after any run of completed commands these groups hold exactly what remaining machines use and the rest is untouched; once all machines are removed the cloud is what it was |
| AzureTidy.LifeLeavesNothingExactly | drivers/azure/azure.go:505-509 | one machine's life leaves an empty cloud empty if and only if the network's name has no colon |
| AzureFaults.PrefixedNetworkIsLeft | drivers/azure/azure.go:505-509 | a concrete machine whose commands both complete and whose network is left |
| AzureFaults.RemovalDeletesUserNsgExactly | drivers/azure/azureutil/cleanup.go:187-202 | however Remove ends, it has deleted an untagged group if and only if it falls back to its name, nothing is attached, it got that far and the delete was not lost |
| AzureFaults.RemoveCrashesExactly | drivers/azure/azureutil/cleanup.go:38-202 | for every plan of faults, Remove panics if and only if it reaches a group, subnet or network that exists and whose refresh fails, or the check of an availability set without a list |
| AzureFaults.FailedRefreshCrashes | drivers/azure/azureutil/cleanup.go:90-93 | if only these checks can fail, that is when one of them hides a resource that is there or lacks the list |
| AzureFaults.OneFailedRefreshCrashes | drivers/azure/azureutil/cleanup.go:125-128 | a concrete network and one failed refresh |
| AzureFaults.FallbackRemovesUserNsg | drivers/azure/azureutil/cleanup.go:187-202 | a concrete group of the user's that is deleted |
| AzureFaults.WorkingCreateCompletes | drivers/azure/azure.go:393-464 | without faults, Create completes if and only if the group can be resolved and may be used, and the network is new or in the right location |
| AzureFaults.WorkingRemoveCompletes | drivers/azure/azure.go:467-510 | without faults, Remove completes on every cloud, whatever is left in it |
| AzureFaults.CreateEndsExactly | drivers/azure/azure.go:393-464 | for every plan of faults, exactly when Create completes and exactly when its VM and interface exist afterwards; it never panics |
| AzureFaults.RemoveEndsExactly | drivers/azure/azure.go:467-510 | for every plan of faults, exactly when Remove completes |
| AzureFaults.RemovalDeletesNsgExactly | drivers/azure/azureutil/cleanup.go:187-202 | however Remove ends, exactly which security groups it has deleted, tagged or not |
| AzureOptions.CompletedCreate | drivers/azure/util.go:168-219 | from the options: the machine is in the group and under the name given, with its interface in the security group, network and subnet that the options name, and an address unless refused |
| AzureOptions.CompletedCreateNetwork | drivers/azure/azureutil/azureutil.go:112-155 | from the options: a new or tagged group has exactly the configured rules, another one is as it was, and a new network is in the configured location |
| AzureOptions.CompletedRemove | drivers/azure/azure.go:490-498 | from the options: nothing under the machine's names is left |
| AzureOptions.NsgIsNamed | drivers/azure/util.go:168-191 | which security group an option stands for, and when it cannot be resolved |
| AzureOptions.VnetIsNamed | drivers/azure/util.go:213-219 | which network an option stands for, with a group or without |
| AzureOptions.NamedGroupIsKept | drivers/azure/azureutil/cleanup.go:187-202 | from the options: a machine that names its group never deletes one of the user's, however the removal ends |
| AzureOptions.WorkingRemovalDeletesUserNsgExactly | drivers/azure/azureutil/cleanup.go:187-202 | from the options: exactly which removals delete a group of the user's |
| AzureOptions.OrdersKeepUserNsg | drivers/azure/azure.go:393-510 | from the options: over every run of any machines, a group without the tag is neither changed nor deleted by machines that name it |
| PluginClose.CloseKeepsInv | libmachine/drivers/rpc/client_driver.go:208-223 | each of the four actions of close, once each and in order, keeps the invariant |
| PluginClose.ClosePanicsExactly | libmachine/drivers/rpc/client_driver.go:208-223 | such an action panics if and only if it closes a plugin that is not set |
| PluginClose.RegisterKeepsInv | libmachine/drivers/rpc/client_driver.go:146-153 | so does the registration of a driver |
| PluginClose.BeatKeepsInv | libmachine/drivers/rpc/client_driver.go:172-186 | so does a heartbeat, which is never sent after the done signal |
| PluginClose.StepKeepsInv | libmachine/drivers/rpc/client_driver.go:105-223 | every step of any goroutine keeps the invariant, and panics in that one case only |
| PluginClose.RunsAreSafe | libmachine/drivers/rpc/client_driver.go:105-223 | every interleaving of constructions, heartbeats and Close calls: it panics if and only if a Close reaches a plugin that is not set; each driver is signalled, its channel closed, its server told and its plugin closed at most once and in that order, with no heartbeat after the signal |
| PluginClose.BuiltExactly | libmachine/drivers/rpc/client_driver.go:188-198 | the plugin is set exactly once the run has taken that step of the construction |
| PluginClose.OrderlyRunsNeverPanic | libmachine/drivers/rpc/client_driver.go:105-223 | no panic if constructions end before a Close begins |
| PluginClose.CompletedCloseShutsAll | libmachine/drivers/rpc/client_driver.go:105-118 | when the factory's Close returns, every driver has been closed completely |
| PluginClose.CloseIsNeverStuck | libmachine/drivers/rpc/client_driver.go:208-215 | a Close can always go on unless the goroutine of the driver at hand has not started, or a heartbeat of it is under way or has failed |
| PluginClose.GoodHeartbeatsDoNotBlock | libmachine/drivers/rpc/client_driver.go:172-186 | in every run without a failed heartbeat, no goroutine ever waits for itself |
| PluginClose.CloseGoesThrough | libmachine/drivers/rpc/client_driver.go:105-118 | a Close with built drivers and no failed heartbeat has a continuation in which it returns with every driver closed |
| PluginClose.EveryDriverCanBeClosed | libmachine/drivers/rpc/client_driver.go:105-223 | from every state reached without a failed heartbeat and with built drivers, every driver can be signalled, its channel closed, its server told and its plugin closed, exactly once each |
| PluginClose.FailedHeartbeatBlocks | libmachine/drivers/rpc/client_driver.go:178-184 | in every continuation, a driver with a failed heartbeat is never closed and no Close returns |
| PluginClose.OneFailedHeartbeat | libmachine/drivers/rpc/client_driver.go:178-184 | a concrete run after which no Close ever returns |
| PluginClose.ClosingTooEarlyPanics | libmachine/drivers/rpc/client_driver.go:151-198 | a run in which Close overtakes a construction and panics |
| Heartbeat.StepKeepsInv | libmachine/drivers/plugin/register_driver.go:51-62 | the server's idle time is what the client's state tells, in every timely step |
| Heartbeat.TimelyRunsEndInClose | libmachine/drivers/plugin/register_driver.go:51-62 | if each request delay plus the previous delay stays under timeout minus interval, the server never times out and exits through close in bounded time after close was called |
| Heartbeat.ClientIsNeverStuck | libmachine/drivers/rpc/client_driver.go:172-186 | in every state the client has a next action: it takes the done signal at once, and otherwise sends a heartbeat after five seconds |
| Heartbeat.TimeoutExactly | libmachine/drivers/plugin/register_driver.go:18-20 | during a heartbeat the server may time out exactly if the delays add up to five seconds, that is ten seconds of idling |
| StoredConfig.WrittenIsReadBack | libmachine/host/migrate.go:18-30 | a host that is written is read back equal, whatever name the reader started with, except for the raw driver field, which only repeats the driver and is not written |
| HostMigration.MigrateHost | libmachine/host/migrate.go:47-120 | the loop over its own version field terminates and computes the version-by-version migration, with its failures and panics; a current document without a name keeps the given one |
| HostMigration.WellFormedLoads | libmachine/host/migrate.go:47-120 | every well-formed document up to version 3 loads at version 3, and a migration is reported exactly for older ones |
| HostMigration.MigratesExactly | libmachine/host/migrate.go:72-113 | exactly which old documents migrate |
| HostMigration.FailsExactly | libmachine/host/migrate.go:47-120 | exactly which documents fail and exactly which panic |
| HostMigration.DriverKeepsItsFields | libmachine/host/migrate_v2_v3.go:14-49 | a migration changes StorePath in the raw driver object and no other field |
| HostMigration.CredentialsAreKept | libmachine/host/migrate_v1_v2.go:43-78 | certificate and key paths survive every migration, as do swarm settings from version 0 and engine and swarm options from later ones |
| HostMigration.Version1KeepsTheRest | libmachine/host/migrate_v1_v2.go:43-78 | from version 1: driver, memory, disk and the remote paths are kept, and the store path and certificate directory become those of the whole store |
| HostMigration.Version0IsCompleted | libmachine/host/migrate_v0_v1.go:18-49 | from version 0: the TLS flag, the install URL, empty remote paths and the swarm options that it is given |
| HostMigration.LaterVersionsKeepOptions | libmachine/host/migrate_v2_v3.go:39-47 | from version 2 on, every option is kept as it is, field by field |
| HostMigration.LoadedCanBeSavedExactly | libmachine/host/migrate.go:23-25 | a loaded host can be saved if and only if it was migrated or its document has a driver |
| HostMigration.MigrationIsStable | libmachine/host/migrate.go:47-120 | any document that loads, once saved, is read back without migration and equal |
| Filestore.NamesDiffer | libmachine/persist/filestore.go:33-58 | file, backup and temporary never have the same name |
| Filestore.Disk.WriteFile | libmachine/persist/filestore.go:34-36 | at every moment, no file but the one written differs |
| Filestore.Disk.Stage | libmachine/persist/filestore.go:38-50 | until the temporary is complete, the file itself is untouched at every moment |
| Filestore.Disk.Swap | libmachine/persist/filestore.go:52-58 | the file is seen whole or not at all at every moment, and exactly when it ends up missing |
| Filestore.Disk.SaveToFile | libmachine/persist/filestore.go:33-58 | exactly when it succeeds; success means the file has the data and nothing else changed; no existing file is ever seen half-written; no temporary stays behind; exactly when the old content is lost |
| Filestore.RenameFailureLosesFile | libmachine/persist/filestore.go:52-58 | a concrete file that is gone after a failed rename |
| Filestore.Disk.Save | libmachine/persist/filestore.go:60-74 | exactly when it succeeds; then the written host is on disk and nothing else changed |
| Filestore.Disk.LoadConfig | libmachine/persist/filestore.go:110-141 | at every moment of a load, with failures and crashes anywhere, the loaded bytes are in the configuration file or its backup; without a migration nothing is written and the result is exact; with one, exactly when the host is found |
| Filestore.Disk.LoadTwice | libmachine/persist/filestore.go:110-141 | after a load that succeeded, a second one returns an equal host and never touches the disk |
| VersionCompare.CompareSegments | libmachine/versioncmp/compare.go:62-95 | the loop over segments decides the lexicographic order of the sequences continued with zeros |
| VersionCompare.CompareNumeric | libmachine/versioncmp/compare.go:62-95 | the same for strings cut at the first dash and split at dots |
| VersionCompare.Compare | libmachine/versioncmp/compare.go:22-56 | the result is -1, 0 or 1 as the key of one version precedes, equals or follows the other's, community editions last |
| VersionCompare.ExactlyOne | libmachine/versioncmp/compare.go:22-56 | any two versions are related in exactly one way, so swapping the arguments negates the result |
| VersionCompare.NotAfterIsTransitive | libmachine/versioncmp/compare.go:22-56 | the order is a total preorder and equality is a congruence |
| VersionCompare.RcKeepsEdition | libmachine/versioncmp/compare.go:25-43 | replacing release-candidate marks neither makes nor breaks an edition mark, in any string |
| VersionCompare.TrailingRcIsIgnored | libmachine/versioncmp/compare.go:25-43 | every version equals itself with a bare "-rc" appended |
| VersionCompare.NumbersWithSuffix | libmachine/versioncmp/compare.go:62-67 | the numbers after a release-candidate mark are further version numbers; any other suffix is cut off |
| VersionCompare.SuffixIsIgnoredExactly | libmachine/versioncmp/compare.go:3-6 | exactly which suffixes make no difference |
| VersionCompare.ReleaseCandidateCounts | libmachine/versioncmp/compare.go:3-6 | a numbered release candidate comes after its release |
| VersionCompare.NumberDecides | libmachine/versioncmp/compare.go:62-95 | between versions that agree up to the last dot, the smaller number after it comes first |
| VersionCompare.EditionsComeLast | libmachine/versioncmp/compare.go:29-38 | every community edition comes after every version that is none |
| VersionCompare.EditionKey | libmachine/versioncmp/compare.go:46-56 | the edition's mark is taken out and what is left counts as for any other version |
| VersionCompare.EditionCandidate | libmachine/versioncmp/compare.go:46-56 | the number of an edition's release candidate is one more version number |
| VersionCompare.EditionCandidatesCount | libmachine/versioncmp/compare.go:46-56 | candidates of an edition come after it and in the order of their numbers |
| Decimal.FormatIsRead | drivers/amazonec2/amazonec2.go:1455-1461 | every 64-bit integer that is printed is parsed back |
| FanIn.StepKeepsInv | commands/commands.go:456-480 | what has been received is what has been sent, after every step of any goroutine |
| FanIn.RunsCollectOnce | commands/commands.go:456-480 | in every interleaving nothing is sent on the closed channel, and at the end each goroutine has run once and been heard once |
| FanIn.RunsTerminate | commands/ls.go:442-456 | until the channel is closed some step is possible, and every step brings the end closer |
| FanIn.EveryOrderArises | commands/ls.go:442-456 | every order of the workers' values is the order of arrival of some run |
| HostList.RunsKeepNames | commands/ls.go:418-440 | an answer or a timeout of a goroutine is about its own host, in every run |
| HostList.OneItemPerHost | commands/ls.go:442-456 | whatever the interleaving and the timeouts, the names received are those of the hosts, each as often |
| HostList.SortHostListItemsByName | commands/ls.go:475-487 | the in-place sort puts, for each sorted key, the last item with that key |
| HostList.SortingLosesNothingExactly | commands/ls.go:475-487 | the sorted listing is a permutation of the items if and only if no two different items share a name up to case |
| HostList.CaseClashLosesItem | commands/ls.go:475-487 | two concrete machines of which one is not listed |
| HostList.ArrivalOrderIsIrrelevant | commands/ls.go:475-487 | without clashes, the listing does not depend on the order of arrival |
| HostList.GetHostListItems | commands/ls.go:442-464 | the result is the sorted items of hosts and of hosts in error, for every order of the map |
| HostList.SortingKeepsNamesExactly | commands/ls.go:475-487 | sorting keeps the names if and only if no two of them differ in case only |
| HostList.ListingIsComplete | commands/ls.go:442-464 | for every interleaving, timeouts and order of the map, every loaded host and every host in error is listed once if and only if no two of their names differ in case only |
| HostList.ArrivalMattersExactly | commands/ls.go:442-487 | the listing is the same for every order of arrival and of the map if and only if no two different errors share a name up to case, and no two different answers share one that no error has |
| HostList.RunsAgreeExactly | commands/ls.go:442-487 | the same for runs: any two runs in which the goroutines produce given items, and any two orders of the map, list the same if and only if that holds of the items and errors |
| HostList.ListingIsDetermined | commands/ls.go:442-464 | when all names differ in lower case, the listing is a permutation of the items and the same for any two runs that produced the same items and any two orders of the map |
| HostList.ListingIsInOrder | commands/ls.go:475-487 | the listing is in the order of the names up to case |
| HostList.ErrorIsShown | commands/ls.go:466-473 | a host in error is listed under its name, as such, with the error on one line |
| Actions.LoadHosts | libmachine/persist/store.go:24-38 | the hosts that load, in order, and an error for exactly the names that do not |
| Actions.AllLoadedAreKept | libmachine/persist/store.go:24-38 | if all load, host by host the names' own configurations |
| Actions.HostsOfBoth | libmachine/persist/store.go:24-38 | what is loaded of some names does not depend on the others |
| Actions.CollectErrors | commands/commands.go:471-479 | the collector keeps the non-nil errors in the order of arrival |
| Actions.ErrorsOfBoth | commands/commands.go:471-475 | errors of later arrivals come after those of earlier ones, and none is lost |
| Actions.EveryMachineActsOnce | commands/commands.go:456-480 | each machine's action runs exactly once, and the errors returned are the multiset of non-nil errors |
| Actions.ActedOnEachHost | commands/commands.go:436-480 | goroutines that ran once each have acted once on each host |
| Actions.Client.RunActionForeachMachine | commands/commands.go:456-480 | the hosts acted on are a permutation of the hosts, and no error is returned if and only if all succeeded |
| Actions.Client.SaveAll | commands/commands.go:130-141 | hosts are saved in order up to the first failure |
| Actions.TargetsExactly | commands/commands.go:105-114 | all arguments are targets; without any, the default machine exactly if it is known to exist |
| Actions.Client.RunAction | commands/commands.go:97-141 | nothing runs unless every target loads; nothing is saved if any action fails; otherwise all are saved up to the first failure |
| Lifecycle.Client.CmdCreate | commands/create.go:206-246 | no machine without an entry comes about, success means an entry that can be loaded and a machine, and no other machine is touched |
| Lifecycle.Client.PerformCreate | libmachine/libmachine.go:145-183 | the driver's Create and the two saves after it, each of which can lose the entry's configuration |
| Lifecycle.Client.LoadHost | libmachine/libmachine.go:90-112 | a load that succeeds leaves a current entry; one of an older entry that fails may have migrated or lost it |
| Lifecycle.Client.RemoveRemoteMachine | commands/rm.go:67-74 | only a machine whose entry can be loaded is removed, and success means that it is gone |
| Lifecycle.Client.RemoveLocalMachine | commands/rm.go:76-82 | success means that the entry is gone |
| Lifecycle.Client.RemoveMachine | commands/rm.go:31-52 | success means that both are gone; unforced, the entry outlives the machine; no other machine is touched |
| Lifecycle.Client.CmdRm | commands/rm.go:14-52 | all names are handled whatever fails, and exactly when an error is reported |
| Lifecycle.CreateSucceedsExactly | commands/create.go:206-246 | exactly when a create succeeds, and the whole world after it |
| Lifecycle.MachineIsMadeExactly | libmachine/libmachine.go:145-150 | exactly when a create makes the machine, successful or not |
| Lifecycle.LoadSucceedsExactly | libmachine/libmachine.go:90-112 | exactly when a load succeeds, and what it does to the store |
| Lifecycle.EntryIsRemovedExactly | commands/rm.go:76-82 | exactly what the removal of an entry leaves of it |
| Lifecycle.RemovalSucceedsExactly | commands/rm.go:31-52 | exactly when a removal succeeds, forced or not, and the whole world after it |
| Lifecycle.AllRemovedAreGone | commands/rm.go:31-52 | if no error occurred, none of the names is left on either side |
| Lifecycle.OrphanedExactly | commands/rm.go:67-82 | exactly when a removal leaves a machine without an entry |
| Lifecycle.RunsLeaveNoOrphan | libmachine/libmachine.go:117-152 | over every sequence of creates and unforced removes, with any failures, every existing machine has an entry |
| Lifecycle.CreateLosesExactly | libmachine/libmachine.go:145-150 | exactly when a create leaves a machine whose entry cannot be loaded |
| Lifecycle.RemovalLosesExactly | commands/rm.go:67-74 | exactly when an unforced removal leaves a machine whose entry cannot be loaded: its load loses an older entry |
| Lifecycle.LostStaysLost | commands/rm.go:67-74 | such a machine stays lost in every run of creates and unforced removes |
| Lifecycle.RunsKeepLoadableExactly | libmachine/libmachine.go:117-152 | after every such run, all existing machines can be loaded if and only if no save of a create and no load of a removal has lost one |
| Lifecycle.LostSave | libmachine/libmachine.go:145-150 | a create that loses its machine |
| Lifecycle.LostLoad | commands/rm.go:67-74 | an unforced removal that loses an existing machine of an older version |
| Lifecycle.ForcedRemovalOrphans | commands/rm.go:31-52 | a forced removal that forgets an existing machine |
| Ports.KeyIsInjective | drivers/driverutil/util.go:7-13 | port and protocol can be told from the key they are looked up under |
| Ec2Permissions.HasTagKey | drivers/amazonec2/amazonec2.go:1533-1540 | true exactly if some tag has the key |
| Ec2Permissions.PortsInbound | drivers/amazonec2/amazonec2.go:1279-1284 | exactly the keys that the group's permissions cover |
| Ec2Permissions.ConfigureSecurityGroupPermissions | drivers/amazonec2/amazonec2.go:1274-1474 | returns exactly the wanted permissions whose key is not covered yet, in order, or an error for an unreadable port |
| Ec2Permissions.StandardExactly | drivers/amazonec2/amazonec2.go:1286-1453 | exactly which ports are wanted of which group, their ranges, and which are open to the group alone |
| Ec2Permissions.EmptyGroupGetsAll | drivers/amazonec2/amazonec2.go:1274-1474 | a group without permissions gets all of them and the requested ports, a read-only one nothing |
| Ec2Permissions.RequestedPort | drivers/amazonec2/amazonec2.go:1455-1469 | a requested number, with a protocol or without, is opened to everyone |
| Ec2Permissions.MissingIsNew | drivers/amazonec2/amazonec2.go:1286-1473 | every returned permission belongs to a want whose lookup key was not present |
| Ec2Permissions.ReturnedAreNewExactly | drivers/amazonec2/amazonec2.go:1274-1474 | no returned permission's own port and protocol were present if and only if each requested port is canonical or not present under its own key |
| Ec2Permissions.CanonicalPortsReturnNew | drivers/amazonec2/amazonec2.go:1274-1474 | so for canonical ports nothing is returned that the group has |
| Ec2Permissions.LeadingZeroIsReturnedAgain | drivers/amazonec2/amazonec2.go:1455-1469 | a port with a leading zero is returned to a group that has the port |
| Ec2Permissions.MetOnceAdded | drivers/amazonec2/amazonec2.go:1286-1473 | every want is met once the result is added, if its permission is found under its key |
| Ec2Permissions.PortIsSound | drivers/amazonec2/amazonec2.go:1455-1469 | a requested port is found again if and only if it is written the way it is printed |
| Ec2Permissions.ConvergesExactly | drivers/amazonec2/amazonec2.go:1274-1474 | a second configuration returns nothing if and only if every requested port is canonical |
| Ec2Permissions.LeadingZeroNeverSettles | drivers/amazonec2/amazonec2.go:1455-1469 | a port with a leading zero is asked for again |
| GoogleFirewall.OpenedPorts | drivers/google/compute_util.go:143-151 | exactly the keys that the rule opens |
| GoogleFirewall.MissingOpenedPorts | drivers/google/compute_util.go:143-161 | per protocol the requested ports that are not open, in order, and no empty list |
| GoogleFirewall.UpdateRule | drivers/google/compute_util.go:205-214 | the old entries stay in front and one entry per protocol follows, for every order of the map |
| GoogleFirewall.UpdateOpensExactly | drivers/google/compute_util.go:205-214 | the updated rule opens exactly the old keys and the requested ones |
| GoogleFirewall.SecondPassIsQuiet | drivers/google/compute_util.go:184-214 | a second pass finds nothing missing |
| GoogleFirewall.PortsUsed | drivers/google/compute_util.go:163-181 | the docker port, the swarm port of a master and every open port, in order and with their protocol |
| GoogleFirewall.UsedPortsExactly | drivers/google/compute_util.go:163-181 | asked for are docker's port, the swarm master's and the open ports, and nothing else |
| GoogleFirewall.UsedPortsAskTheSame | drivers/google/compute_util.go:163-181 | writing the protocol out does not change what a port asks for |
| Progress.ReaderWithProgress.Read | libmachine/mcnutils/b2d.go:368-386 | after every read, in 64-bit arithmetic, the text is the marks up to the highest percentage of any total so far, and the next percentage has not overflowed |
| Progress.QuotientRoundsToZero | libmachine/mcnutils/b2d.go:372-372 | the division rounds towards zero, so a small negative number counts as zero percent |
| Progress.ReachFits | libmachine/mcnutils/b2d.go:371-384 | no total of any download makes the next percentage overflow, so the loop ends |
| Progress.ReaderWithProgress.PrintMarks | libmachine/mcnutils/b2d.go:374-384 | the loop prints each mark up to the percentage once and in order, and none for a percentage already passed |
| Progress.ReaderWithProgress.ReadAll | libmachine/mcnutils/b2d.go:368-386 | the same after any sequence of reads |
| Progress.TextOfTotal | libmachine/mcnutils/b2d.go:368-386 | without overflow, the text is a function of the bytes received so far, however the reads were cut |
| Progress.CutsShowExactly | libmachine/mcnutils/b2d.go:371-384 | every way to read a total prints the same if and only if no smaller total reaches a higher percentage |
| Progress.OverflowShowsCuts | libmachine/mcnutils/b2d.go:371-384 | the first total that overflows, read in one and in two |
| Progress.CompletesExactly | libmachine/mcnutils/b2d.go:368-386 | however it was cut, a complete download has printed the 51 marks up to 100% if and only if a hundred times its length fits 64 bits |
| Progress.CompleteText | libmachine/mcnutils/b2d.go:368-386 | its text is then, and only then, 0%....10%.... up to 100%, each mark once and in order |
| Progress.OverflowPrintsNothing | libmachine/mcnutils/b2d.go:368-386 | the smallest length for which it does not: one read prints nothing |
| HostOnlyAdapters.Complete | drivers/virtualbox/network.go:138-152 | the maps refuse a record exactly if it clashes with an earlier one |
| HostOnlyAdapters.ListHostOnlyAdapters | drivers/virtualbox/network.go:107-164 | the callback over lines yields the index of the scanned records, and fails exactly on an unreadable line or a clash |
| HostOnlyAdapters.Take | drivers/virtualbox/network.go:117-157 | the callback takes in one line and keeps the maps in step with the records |
| HostOnlyAdapters.EveryOutputIsPrinted | drivers/virtualbox/vbm.go:143-165 | every sequence of lines is the print of some adapters and a rest without a network name |
| HostOnlyAdapters.FoldIsRecord | drivers/virtualbox/network.go:117-137 | taking lines in one by one gives, for each key, the value of its last line |
| HostOnlyAdapters.PrintedIsScanned | drivers/virtualbox/vbm.go:143-165 | every print, with lines in any order, unknown, repeated or left out, is scanned back record by record if and only if every line can be read |
| HostOnlyAdapters.PrintedListIsRead | drivers/virtualbox/network.go:107-164 | any output fails if and only if a line cannot be read or two adapters share a network name or a readable address, and otherwise exactly the network names map to their records |

## Left out

- Requests to Azure, EC2, Google and VirtualBox, SSH, HTTP and process handling: only success, failure and effect are modelled.
- Concurrent Azure commands: the driver's methods are documented as unsafe for them, so runs are one command after another.
- Azure availability sets (but for their check), OS disks, storage accounts, SSH keys and power states: each is one call that works or fails.
- Azure resource names are compared exactly; Azure itself ignores their case.
- getSecurityRules: the rules of a group are one value here.
- checkLegacyDriver and the other checks of PreCreateCheck: only the check for an existing VM plays a part.
- AzureRuns.CompletedRunIsTidy: assumes network names without a group for all machines of a run; AzureTidy.RemoveStaysExactOrNot has the exact condition for each removal.
- AzureClient.Driver.CreateNetworkInterface: the private address, location and naming parameters are not modelled.
- PluginClose: failures of the close call, which the code only logs.
- localbinary plugin: address and output streaming and its stop channel are not modelled.
- Heartbeat: covers heartbeats that succeed; scheduling delays count as part of the calls' delays.
- StoredConfig: JSON text is a parsed document, integer widths are unbounded, and engine and swarm fields that no migration looks at are one value.
- HostMigration: filepath.Dir and filepath.Join are parameters, and the host passed in has only a name, as the file store passes it.
- HostMigration.CredentialsAreKept: does not claim the store path and certificate directory, which from version 0 come from an empty path.
- Filestore: permissions, directories and paths are not modelled, and a rename happens at once.
- VersionCompare: the wrappers LessThan, LessThanOrEqualTo, GreaterThan, GreaterThanOrEqualTo and Equal are single comparisons of the result.
- HostList: the natural sort and lower-casing are parameters, filters, formats and the fields of an item besides its name are not modelled, and neither is the attempt goroutine that a timeout leaves waiting.
- Actions.Client.RunAction: what an action does to a machine is not modelled; each goroutine's result is arbitrary.
- Lifecycle: provisioning and the waiting after creation are one step that works or fails.
- Ec2Permissions.ConvergesExactly: assumes that port numbers of existing permissions are 64-bit integers, as their type says.
- GoogleFirewall: creating and patching the rule at the provider is not modelled.
- HostOnlyAdapters: the regular expression that splits lines, the scanner's own error and DHCP ranges are not modelled.
- Regular expressions, templates, flag tables, provisioners, certificates, the locks of SerialDriver, the filters of ls and crash reports are not modelled.
