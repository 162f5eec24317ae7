# Verified models of the k_cockpit core

k_cockpit manages virtual machines on several nodes: a control plane talks to an
agent on every node, and the agents drive `qemu-img`, `iptables`, libvirt, Open
vSwitch and dnsmasq. This project models the six parts of it in which a slip
loses data or locks somebody out, and proves what those parts promise.

- **Backing chains** (`BackingChains`, `ImageHosts`). A disk image maps clusters
  to blocks and may have a backing image; reading falls through the chain.
  Rebase, flatten, promote and make-independent keep the readable contents of
  every image in the store, wherever they stop. Deleting a middle generation
  leaves nothing dangling exactly when the child list is complete and the new
  parent is another image.
- **Port-mirror watchdog and firewalls** (`MirrorWatchdogs`; `Iptables`,
  `NodeFirewalls`, `FirewallProperties`). Over every run of requests, ticks,
  timers, crashes and restarts no unconfirmed mirror outlives its deadline. The
  rule chains of the node baseline and of the host protection give the policy's
  verdict to every packet.
- **SQL splitter** (`SqlSplitter`, `SqlTokens`). The scanner computes a declarative
  cut of the script, which for a script read as tokens is the list of pieces between
  its separators; splitting is a normal form.
- **Point edits of libvirt XML** (`XmlTags`, `XmlEdits`, `XmlConsole`, `XmlValues`,
  `XmlScanning`, `XmlConsoleLaws`, `XmlConsoleChanges`, `XmlConsolePorts`). Text
  search on a rendered tag is a lens on its attributes; console edits touch one
  element only, are idempotent, and write numbers and passwords that a reader gets
  back.
- **Tables in text form** (`UploadSessions`, `DnsmasqConfs`). The hexadecimal
  bitmap is a set of chunk numbers and the dnsmasq file a bijection of MAC and IP
  addresses.
- **Concurrent protocols** (`HubProtocols`, `HubGuarantees`, `HubLosses`,
  `HubBlocking`, `HubStandstill`, `HubRegistries`; `StreamBridges`; `ColdMigrations`,
  `MigrationRuns`, `TakeoverFiles`, `MigrationLosses`, `Remappings`,
  `FirmwarePaths`, `PathRewritings`, `DefinitionRewritings`). Small-step machines of the
  connection registry and of offline migration, the byte bridge of consoles, and
  the rewriting of a definition's file paths.

`Text` holds the string functions that several parts share. Code that updates
state is a class whose methods are proved against functions of the old state; the
laws are lemmas about those functions. Failures of tools and files are
nondeterministic choices (`var fault: bool := *`) or parameters that say what fails.

## What does not hold

The proofs found cases in which the code does less than its comments say; each
comes with the exact condition or a concrete run.

- Repairing a confirmed mirror re-enables it without a watchdog and thereby
  forgets the confirmation, so a timer or file of the earlier enable can still
  take it off. It stays exactly when no such leftover exists; a repair with a
  watchdog of its own lasts until its deadline exactly when no earlier timer falls
  due before (`MirrorWatchdogs.RepairSticksExactly`,
  `MirrorWatchdogs.WatchedRepairLastsExactly`, `MirrorWatchdogs.ConfirmedRepairIsLost`).
- Applying a firewall a second time flushes its chain while INPUT still jumps to
  it, so a trusted connection is cut until the chain is refilled unless the rest
  of INPUT accepts it (`FirewallProperties.TrustedStaysConnectedExactly`,
  `FirewallProperties.SecondApplyCutsOff`).
- Writing `port` into a graphics tag hits `autoport` when that comes first
  (`XmlConsolePorts.PortReachesItsAttributeExactly`,
  `XmlConsolePorts.SpicePortIsLost`).
- `promote_delete` checks neither that the child list is complete nor that the new
  parent differs from the target (`ImageHosts.IncompleteListStrands`).
- A takeover repeated after one that succeeded places the firmware file and then
  removes the earlier definition together with that very file; the cleanup removes
  the source's copy even when it was never handed over. A copy survives exactly
  when the last takeover left one in place
  (`MigrationRuns.FirmwareInPlaceExactly`, `MigrationRuns.FirmwareSurvivesExactly`,
  `MigrationLosses.FirmwareIsLost`).
- A takeover places files before it looks whether the node has another machine of
  that name. The other machine's definition is safe, its files are not
  (`TakeoverFiles.FileKeptExactly`, `MigrationLosses.StrangerLosesItsDisk`).
- An export ignores that storing its list failed. A retry without a definition then
  sends the list that was stored before, or none (`MigrationRuns.ResendsExactly`).
- Rewriting the paths of a definition replaces them one after the other in the
  whole text. A path that holds other moving paths gets its new place exactly when
  the first entry whose path occurs in it has the same kind and a path that stands
  at the beginning and leaves no slash behind (`PathRewritings.PathRemappedExactly`).
  Files of one directory are fine however their names begin
  (`PathRewritings.OneDirectory`); a disk below a directory whose name begins with
  an earlier disk's path is not (`PathRewritings.SuchPaths`).
- An Execute whose deadline passes while a reply is already in its channel can
  wait for its connection's lock for ever when that connection is then closed
  (`HubBlocking.LateReplyThenDisconnect`, `HubBlocking.StuckForever`), and with it
  every Execute that has looked this connection up; no other holder keeps a
  connection's lock for ever (`HubBlocking.LockFreedExactly`,
  `HubBlocking.ReturnsExactly`). When it is a new connection of the agent that
  closes the old one, attaching holds the hub's own lock meanwhile: no Execute for
  any node begins any more and no agent can attach or detach
  (`HubStandstill.NothingBeginsAnyMore`, `HubStandstill.LateReplyThenReconnect`).
  Nothing else stops the hub (`HubStandstill.HubUnlockedExactly`,
  `HubStandstill.AnsweredExactly`).

## Model

| member | source | states |
|---|---|---|
| ImageHosts.ImageHost.ReadCluster | internal/nodeagent/ex_template_maintain.go:143-169 | walking up the chain reads what the recursive definition of an image's contents says, including broken chains |
| ImageHosts.ImageHost.QemuRebase | internal/nodeagent/ex_template_maintain.go:146-169 | safe rebase changes one image only, keeps what every image of the store reads, even when it fails half-way, and switches the backing image exactly on success |
| ImageHosts.ImageHost.QemuConvert | internal/nodeagent/ex_template_maintain.go:172-194 | the converted image reads as its source, has its size and no backing image; nothing else changes |
| ImageHosts.ImageHost.QemuImgBacking | internal/nodeagent/ex_vm_edit.go:377-393 | a known answer is the image's backing image |
| ImageHosts.ImageHost.FlattenStandalone | internal/nodeagent/ex_template_maintain.go:172-194 | after success the image stands alone under its old name; after failure the store is as before; contents are kept either way |
| ImageHosts.ImageHost.ReparentOne | internal/nodeagent/ex_template_maintain.go:146-169 | both ways of re-parenting keep all contents, touch one image and set the wanted backing exactly on success |
| ImageHosts.ImageHost.TemplateReparent | internal/nodeagent/ex_template_maintain.go:101-143 | rebase and flatten keep all contents, dangle nothing, touch only the target and verify the result; anything but an existing template, under none or another existing template, is refused and changes nothing |
| ImageHosts.ImageHost.ReparentAll | internal/nodeagent/ex_template_maintain.go:44-98 | the loop over the children keeps all contents wherever it stops; on success all of them hang on the new parent |
| ImageHosts.ImageHost.PromoteChild | internal/nodeagent/ex_template_maintain.go:44-68 | contents kept, nothing dangling, unlisted images untouched, on success all children moved; an empty list is refused |
| ImageHosts.ImageHost.PromoteDelete | internal/nodeagent/ex_template_maintain.go:70-98 | only a target in the template directory is deleted; otherwise, or when a child fails, every image is still there and reads as before; on success the target alone is gone, the children hang on the new parent, and nothing dangles if and only if the list was complete and the new parent another image |
| ImageHosts.ImageHost.DisksIndependent | internal/nodeagent/ex_vm_edit.go:297-374 | contents kept wherever it stops, other files untouched, nothing done to a machine that runs or has snapshots; on success every disk of the machine stands alone; the count is that of the images cut off |
| BackingChains.ReparentAcyclic | internal/nodeagent/ex_template_maintain.go:146-169 | hanging an image on one that is not built on it keeps the store acyclic |
| BackingChains.ReplaceUnseen | internal/nodeagent/ex_template_maintain.go:146-169 | replacing an image is invisible to images not built on it |
| BackingChains.ReplaceKeepsReader | internal/nodeagent/ex_template_maintain.go:146-169 | if the replaced image reads as before, so does every descendant |
| BackingChains.ReplaceKeepsContents | internal/nodeagent/ex_template_maintain.go:146-169 | the same for the whole store |
| ImageHosts.CopyUp | internal/nodeagent/ex_template_maintain.go:146-169 | copying a backing cluster into the image changes no contents anywhere |
| ImageHosts.SwitchBacking | internal/nodeagent/ex_template_maintain.go:146-169 | once all differing clusters are copied, switching the backing image changes no contents anywhere |
| ImageHosts.ReplaceByStandalone | internal/nodeagent/ex_template_maintain.go:172-194 | renaming the converted copy over the image changes no contents anywhere |
| ImageHosts.DeleteExact | internal/nodeagent/ex_template_maintain.go:70-98 | after the children moved, deleting the target leaves nothing dangling if and only if the list was complete and the parent not the target |
| ImageHosts.CompleteListIsSafe | internal/nodeagent/ex_template_maintain.go:70-98 | what the control plane guarantees implies both the precondition and the safe case |
| ImageHosts.IncompleteListStrands | internal/nodeagent/ex_template_maintain.go:70-98 | concrete stores on which the code strands a child |
| ImageHosts.StandaloneOutlivesParents | internal/nodeagent/ex_vm_edit.go:319-361 | however many disks were made independent, each of them and every image built on it reads the same after a former ancestor is deleted |
| ImageHosts.ReparentAcyclicExactly | internal/nodeagent/ex_template_maintain.go:146-169 | the store stays acyclic if and only if the new parent is not the image or below it |
| MirrorWatchdogs.MirrorAgent.PortMirrorEnable | internal/nodeagent/ex_net_security.go:772-834 | new node state after enabling: mirror on, confirmation forgotten, file and timer for a positive watchdog only, 120 seconds by default; refusals change nothing |
| MirrorWatchdogs.MirrorAgent.ArmWatchdog | internal/nodeagent/ex_net_security.go:866-869 | writes the deadline file and starts a timer for the same moment, beside any older ones |
| MirrorWatchdogs.MirrorAgent.FireWatchdog | internal/nodeagent/ex_net_security.go:873-881 | a timer takes an unconfirmed mirror off and removes the file |
| MirrorWatchdogs.MirrorAgent.RearmWatchdogs | internal/nodeagent/ex_net_security.go:884-904 | a restart gives each readable file one timer, due at once when late, and drops damaged files |
| MirrorWatchdogs.MirrorAgent.PortMirrorConfirm | internal/nodeagent/ex_net_security.go:920-927 | new node state after a confirmation |
| MirrorWatchdogs.MirrorAgent.PortMirrorDisable | internal/nodeagent/ex_net_security.go:929-937 | new node state after disabling |
| MirrorWatchdogs.StepKeepsInv | internal/nodeagent/ex_net_security.go:772-904 | every step keeps: an attached, awaiting mirror has its file and, while the agent is up, a timer due in time; a confirmed one has no deadline; one disabled last is off |
| MirrorWatchdogs.NoneOutlivesItsDeadline | internal/nodeagent/ex_net_security.go:772-904 | in every run since boot, once due timers have fired no unconfirmed mirror outlives the later of its deadline and the last restart |
| MirrorWatchdogs.ConfirmedStays | internal/nodeagent/ex_net_security.go:873-927 | after a confirmation, until the next enable or disable of that name, no old timer and no restart takes the mirror off |
| MirrorWatchdogs.DisabledStaysOff | internal/nodeagent/ex_net_security.go:929-937 | after a disable the mirror is off in every run until the next successful enable of its name, whatever timers and files are left |
| MirrorWatchdogs.FiredStaysOff | internal/nodeagent/ex_net_security.go:873-881 | the same after a timer fires for an unconfirmed mirror |
| MirrorWatchdogs.DeadlineIsGone | internal/nodeagent/ex_net_security.go:873-927 | after a timer has fired, or a confirmation, no later start arms a timer of that name before the next enable |
| MirrorWatchdogs.RestartFromFiles | internal/nodeagent/ex_net_security.go:884-904 | after a start no damaged file is left, and files and timers correspond |
| MirrorWatchdogs.RepairSticksExactly | internal/nodeagent/ex_net_security.go:820-834 | a mirror enabled without a watchdog stays for ever if and only if no timer and no readable file of an earlier enable is left |
| MirrorWatchdogs.WatchedRepairLastsExactly | internal/nodeagent/ex_net_security.go:820-881 | a mirror enabled with a positive watchdog stays attached until its own deadline in every run that does not name it if and only if no timer of an earlier enable of that name falls due before |
| MirrorWatchdogs.ConfirmedRepairIsLost | internal/nodeagent/ex_net_security.go:820-834 | a legal run in which a confirmed and repaired mirror is taken off |
| NodeFirewalls.Firewall.IptablesAdd | internal/nodeagent/ex_net_security.go:46-55 | appends a rule to a chain only when it is not there |
| NodeFirewalls.Firewall.FirewallApply | internal/nodeagent/ex_net_security.go:199-284 | runs the compiled command list for the policy, or a prefix of it, reported as a failure, when a hooking command fails |
| NodeFirewalls.Firewall.HostFirewallApply | internal/nodeagent/ex_net_security.go:309-380 | the same for the host protection, whose chain leaves SSH open and which leaves the default policy alone; the action rollback runs the rollback |
| NodeFirewalls.Firewall.FirewallRollback | internal/nodeagent/ex_net_security.go:287-301 | runs the whole rollback list |
| Iptables.AddIfAbsentIsTransparent | internal/nodeagent/ex_net_security.go:46-55 | adding only absent rules never changes a first-match decision |
| FirewallProperties.ChainCompiles | internal/nodeagent/ex_net_security.go:204-265 | each layer's chain decides each packet as the policy says: established and loopback, SSH for the host protection, whitelist, first matching rule, else nothing |
| FirewallProperties.ApplyGivesPolicyVerdict | internal/nodeagent/ex_net_security.go:199-375 | after an apply of either layer the verdict on each packet is an enabled policy's decision, else, and always when disabled, that of the rest of INPUT and the default: the chosen one (drop and deny close) for the node baseline, the one there was for the host protection |
| FirewallProperties.FirstRuleDecides | internal/nodeagent/ex_net_security.go:215-372 | a packet that nobody has to let through is accepted if and only if the first rule that applies to it says allow or accept |
| FirewallProperties.TrustedStaysConnectedExactly | internal/nodeagent/ex_net_security.go:197-375 | on either layer a trusted packet is accepted after every single command if and only if it was accepted before with and without the old jump |
| FirewallProperties.FirstApplyKeepsTrusted | internal/nodeagent/ex_net_security.go:197-375 | on a first apply of either layer nobody trusted is cut off at any command |
| FirewallProperties.SecondApplyCutsOff | internal/nodeagent/ex_net_security.go:197-375 | for either layer a table and a policy for which the second apply cuts a trusted connection |
| FirewallProperties.AtMostOneJumpAlways | internal/nodeagent/ex_net_security.go:204-375 | over any sequence of operations, complete or broken off, INPUT holds at most one jump to each chain |
| FirewallProperties.RollbackClears | internal/nodeagent/ex_net_security.go:287-301 | after any history a rollback leaves no jump, no chains and the policy ACCEPT, and all other rules of INPUT |
| SqlSplitter.SplitStatements | cmd/migrate/main.go:229-301 | the scanner returns the trimmed, non-blank pieces of the declarative cut |
| SqlSplitter.PiecesCoverScript | cmd/migrate/main.go:229-301 | the untrimmed pieces with separators put back are the script without its comments |
| SqlSplitter.OnePieceMoreThanSeparators | cmd/migrate/main.go:229-301 | one piece more than there are separating semicolons |
| SqlSplitter.PiecesAreInert | cmd/migrate/main.go:229-301 | no piece holds a separator or a comment, and all but the last have their quotes closed |
| SqlTokens.ScriptIsCut | cmd/migrate/main.go:229-301 | a script of plain characters, separators, literals with doubled quotes, quoted identifiers and comments, the last one possibly open, is cut at its separators and nowhere else, without the comments |
| SqlTokens.EveryTextIsAScript | cmd/migrate/main.go:229-301 | every text is such a script |
| SqlSplitter.SplittingIsANormalForm | cmd/migrate/main.go:229-301 | joining the statements and splitting again gives the same statements, for every script |
| UploadSessions.UploadSession.MarkReceived | internal/model/upload_session.go:111-140 | true exactly for a new index in range; then that chunk and no other becomes received; else nothing changes |
| UploadSessions.UploadSession.MissingChunks | internal/model/upload_session.go:147-156 | the strictly increasing complement of the received chunks |
| UploadSessions.UploadSession.IsComplete | internal/model/upload_session.go:159-170 | true exactly when there are chunks and none is missing |
| UploadSessions.Chunks | internal/model/upload_session.go:79-88 | the number n of chunks with (n-1)*chunk < size <= n*chunk, and 0 for sizes that are not positive |
| UploadSessions.HexDigit | internal/model/upload_session.go:185-203 | the digit is read back as its value and survives trimming |
| UploadSessions.MarkingIsInsertion | internal/model/upload_session.go:111-140 | marking any text, short, upper case or damaged, inserts one index into the recorded set |
| UploadSessions.RecordedByDigit | internal/model/upload_session.go:91-104 | which digits record the chunk at each place of their group of four, character by character |
| UploadSessions.RecordedInEitherCase | internal/model/upload_session.go:185-195 | text in upper and in lower case records the same chunks |
| UploadSessions.MarkingStaysTrimmed | internal/model/upload_session.go:91-140 | marked texts are unaffected by the trimming on the next read |
| UploadSessions.ReplayCountsDistinct | internal/model/upload_session.go:111-170 | from an empty bitmap, true answers count the distinct indices in range, which are what is recorded |
| DnsmasqConfs.DnsmasqConf.UpsertDHCPHost | internal/nodeagent/ex_net_write.go:512-551 | replaces every lease with that MAC or that IP by the pair and keeps the range; refuses to invent a range |
| DnsmasqConfs.DnsmasqConf.RemoveDHCPHost | internal/nodeagent/ex_net_write.go:554-585 | removes the leases of one MAC and nothing else |
| DnsmasqConfs.DnsmasqConf.RunDnsmasqForBridge | internal/nodeagent/ex_net_write.go:269-331 | configuring again keeps all leases and sets the range |
| DnsmasqConfs.DnsmasqConf.ReadDnsmasqHosts | internal/nodeagent/ex_net_write.go:318-331 | reads exactly the lines of the leases the file stands for |
| DnsmasqConfs.RenderedReadsBack | internal/nodeagent/ex_net_write.go:300-331 | a rendered file is read back line by line as the head and the leases |
| DnsmasqConfs.FileSaysSettings | internal/nodeagent/ex_net_write.go:300-316 | line by line, every file names its bridge, DNS port 0, the range from start to end, the router and the leases |
| DnsmasqConfs.RouterOfAddress | internal/nodeagent/ex_net_write.go:640-646 | the router is number 1 of the first address's network |
| DnsmasqConfs.LineMatches | internal/nodeagent/ex_net_write.go:528-538 | the textual tests on a lease line hold exactly for its MAC and its IP |
| DnsmasqConfs.EditedLines | internal/nodeagent/ex_net_write.go:525-545 | the lines kept by an edit are the head and exactly the other leases |
| DnsmasqConfs.BindingReplaces | internal/nodeagent/ex_net_write.go:512-551 | binding keeps the leases a bijection and changes exactly the entries named |
| DnsmasqConfs.UnbindingRemoves | internal/nodeagent/ex_net_write.go:554-585 | releasing keeps the bijection and removes exactly that MAC |
| DnsmasqConfs.LeasesOverARun | internal/nodeagent/ex_net_write.go:512-585 | a binding survives any run of later edits that name neither its MAC nor its IP |
| DnsmasqConfs.RunStaysBijective | internal/nodeagent/ex_net_write.go:512-585 | over every run no MAC and no IP occurs twice |
| XmlTags.AttrValueRefines | internal/nodeagent/xml_edit.go:41-54 | text search reads the first attribute, single quotes before double, whose name ends in the key |
| XmlTags.SetTagAttrRefines | internal/nodeagent/xml_edit.go:72-96 | text replacement writes that attribute or appends a new one with the quote in use |
| XmlTags.GetAfterSet | internal/nodeagent/xml_edit.go:41-96 | get after put returns the value |
| XmlTags.SetOfGet | internal/nodeagent/xml_edit.go:41-96 | putting back what was read is the identity |
| XmlTags.SetTwice | internal/nodeagent/xml_edit.go:72-96 | the second put wins |
| XmlTags.SetLeavesOthers | internal/nodeagent/xml_edit.go:72-96 | attributes whose name is not a suffix of the written one read as before |
| XmlEdits.EditTwice | internal/nodeagent/xml_edit.go:261-273 | a row of writes repeated changes nothing, although two may hit the same attribute |
| XmlEdits.EditIsRead | internal/nodeagent/xml_edit.go:261-273 | a write in the row is read back unless a later name ends alike |
| XmlConsole.XmlTagEnd | internal/nodeagent/xml_edit.go:169-185 | the loop finds the end of the tag that the quote-aware definition gives |
| XmlConsole.FindGraphicsElement | internal/nodeagent/xml_edit.go:124-161 | the loop finds the element that the recursive scan gives |
| XmlConsole.ApplyConsoleGraphics | internal/nodeagent/xml_edit.go:215-281 | result and report are those of the specification the laws are about |
| XmlConsole.RemoveElement | internal/nodeagent/xml_edit.go:221-237 | cuts the element with its indentation and one line break on each side |
| XmlConsole.WriteAttributes | internal/nodeagent/xml_edit.go:261-273 | the writes are the console's row of edits in order |
| XmlValues.SaysPortExactly | internal/nodeagent/xml_edit.go:262-270 | the text written for a port is the one decimal numeral that denotes it, or -1 when libvirt is to choose |
| XmlValues.EscapedIsRead | internal/nodeagent/xmlbuilder.go:381-384 | an escaped password holds no quote or bracket, and reading the five entities gives it back |
| XmlScanning.TagEndRendered | internal/nodeagent/xml_edit.go:169-185 | the scan over a well-formed tag ends at its end, whatever its quoted values hold besides brackets |
| XmlScanning.PassAgrees | internal/nodeagent/xml_edit.go:124-161 | a scan that passes a place goes on from there in any text with the same beginning |
| XmlConsoleLaws.SyncChild | internal/nodeagent/xml_edit.go:193-208 | the listen child carries the address afterwards and is the only thing changed |
| XmlConsoleLaws.EnablingExisting | internal/nodeagent/xml_edit.go:215-281 | text outside the element is kept; tag and listen child carry the address, a numeral that denotes the port, and text that reads as the password, which stays when none is given; the same request again reports no change |
| XmlConsoleChanges.EnablingAbsent | internal/nodeagent/xml_edit.go:240-258 | the new element is found, says what was asked for, autoport included, the rest is kept, and asking again changes nothing |
| XmlConsoleChanges.DisablingExisting | internal/nodeagent/xml_edit.go:220-238 | the element goes with all blanks and one line break in front of it and one line break behind, the rest stays, and disabling again reports no change |
| XmlConsolePorts.PortWritesLandExactly | internal/nodeagent/xml_edit.go:262-270 | of the two writes both land in the attribute they name if and only if a port attribute stands in front of autoport |
| XmlConsolePorts.PortReachesItsAttributeExactly | internal/nodeagent/xml_edit.go:261-281 | in the document that enabling returns, the element's tag has a port that denotes the requested one and the matching autoport if and only if a port attribute stood in front of autoport in the document given |
| XmlConsolePorts.SpicePortIsLost | internal/nodeagent/xml_edit.go:261-281 | the tag of an automatic spice console, on which every requested port is lost |
| HubProtocols.LocksKept | internal/agent/hub/hub.go:123-186 | every step keeps the locks, the registry and the tables of pending operations consistent |
| HubProtocols.StepKeeps | internal/agent/hub/hub.go:123-236 | every step keeps what an execution has seen equal to what its connection processed for it |
| HubGuarantees.RegistryIsLatest | internal/agent/hub/hub.go:162-186 | in every interleaving a connection is registered if and only if it was the last to attach to its node and has not detached since |
| HubGuarantees.SilentAfterReturn | internal/agent/hub/hub.go:129-145 | after Execute has returned no callback of it runs or starts, and nothing about it changes |
| HubGuarantees.ProcessedInOrder | internal/agent/hub/hub.go:322-338 | messages of a connection are dealt with once, in order |
| HubGuarantees.SeesItsOwn | internal/agent/hub/hub.go:197-236 | an execution sees exactly the stages and the first result that name it on its connection while tracked, or else the loss of that connection |
| HubGuarantees.EndsForItsCause | internal/agent/hub/hub.go:211-236 | in every run an execution ends as undelivered exactly when its send failed, as timed out exactly when its deadline passed while it waited, and with a reply exactly when it took one |
| HubLosses.ClosingTellsEverybody | internal/agent/hub/hub.go:148-160 | in every run, when the closing of a connection ends, every execution in flight on it has been told the loss |
| HubLosses.DroppedCanReturn | internal/agent/hub/hub.go:148-236 | a waiting execution that is no longer tracked always has a reply to take |
| HubBlocking.StuckForever | internal/agent/hub/hub.go:148-160 | an execution that gave up while its full slot is being written to never returns |
| HubBlocking.LockFreedExactly | internal/agent/hub/hub.go:123-160 | in every consistent state some continuation frees a connection's lock if and only if it is not held to write into the full slot of an execution on its way out |
| HubBlocking.ReturnsExactly | internal/agent/hub/hub.go:197-236 | an Execute that has looked its connection up and not returned can return in some continuation if and only if that connection is not held up in that way |
| HubBlocking.LateReplyThenDisconnect | internal/agent/hub/hub.go:222-236 | a run from the idle hub, with a reply that arrives as the deadline passes and then a disconnect, that ends in such a state |
| HubStandstill.HubUnlockedExactly | internal/agent/hub/hub.go:148-188 | in every consistent state some continuation unlocks the hub if and only if the lock is not held by an attach that has to close a connection held up in that way |
| HubStandstill.NothingBeginsAnyMore | internal/agent/hub/hub.go:165-201 | otherwise, after any continuation, no Execute looks up a connection of any node and no connection begins to attach or ends its detaching |
| HubStandstill.AnsweredExactly | internal/agent/hub/hub.go:183-236 | an Execute that still waits for the hub's lock can return, with a result or as not connected, in some continuation if and only if the hub is not stopped and the node's connection not held up, unless a new one is just taking its place |
| HubStandstill.LateReplyThenReconnect | internal/agent/hub/hub.go:165-236 | a run from the idle hub, with a reply that arrives as the deadline passes and then a second connection of the agent, that ends with the hub stopped |
| HubRegistries.Connection.OnMessage | internal/agent/hub/hub.go:137-146 | a message reaches the operation it names, if tracked, and changes no other |
| HubRegistries.Connection.CloseAll | internal/agent/hub/hub.go:148-160 | the first close ends every pending operation with the loss, a second does nothing |
| HubRegistries.Connection.Track | internal/agent/hub/hub.go:123-127 | adds the operation |
| HubRegistries.Connection.Untrack | internal/agent/hub/hub.go:129-133 | removes the operation |
| HubRegistries.Registry.Attach | internal/agent/hub/hub.go:165-172 | the new connection takes the node's place and the old one is closed |
| HubRegistries.Registry.Detach | internal/agent/hub/hub.go:174-181 | closes the connection and clears the node's place only if it still holds it |
| StreamBridges.StreamBridge.Read | internal/agent/hub/stream.go:69-85 | hands out the stream exactly where the last read stopped, for any chunk and buffer sizes, and each time as much as fits of the left-over bytes or of the first chunk |
| StreamBridges.StreamBridge.Write | internal/agent/hub/stream.go:87-110 | the full length only when all bytes were queued in order in chunks of at most 32 KB; an error leaves at most a prefix queued, and none on a closed bridge |
| StreamBridges.StreamBridge.PumpToAgent | internal/agent/hub/stream.go:229-241 | a turn delivers the first queued chunk, or drops it and ends the pump when sending fails; delivered plus queued bytes stay the accepted bytes |
| StreamBridges.StreamBridge.PumpFromAgent | internal/agent/hub/stream.go:210-226 | a turn queues its chunk while the bridge is open and has room, waits while it is full, and ends the pump once it is closed; consumed, left-over and queued bytes stay the bytes that arrived |
| StreamBridges.FlattenAppend | internal/agent/hub/stream.go:87-110 | queueing a chunk appends its bytes to the queued stream |
| ColdMigrations.SourceAgent.Migrate | internal/nodeagent/ex_longtail.go:55-147 | originals and definition untouched; success exactly when every disk can be copied, and then every file that can is listed and staged as it is; the whole list is stored, unless that fails; without a definition the stored list is sent again |
| ColdMigrations.SourceAgent.Cleanup | internal/nodeagent/ex_longtail.go:211-236 | removes the definition, its firmware file whether listed or not, the listed files and the staging area, and nothing else, except for what cannot be removed; the firmware is gone once the definition is |
| ColdMigrations.TargetAgent.PlaceFile | internal/nodeagent/ex_longtail.go:385-394 | a rename or a copy, or a copy that broke off with the staged file kept |
| ColdMigrations.TargetAgent.PlaceAll | internal/nodeagent/ex_longtail.go:254-298 | the outcomes of the loop, entry by entry in list order: done with all paths rewritten, or stopped at an entry |
| ColdMigrations.TargetAgent.Define | internal/nodeagent/ex_longtail.go:301-347 | refuses another machine's definition; removes an earlier one of ours with its firmware file; defines |
| ColdMigrations.TargetAgent.Takeover | internal/nodeagent/ex_longtail.go:243-353 | placing, then defining, with every way in which they may break off |
| ColdMigrations.PlacedUpToIs | internal/nodeagent/ex_longtail.go:254-298 | after any part of the loop the entries done are in place, the others and all other files untouched |
| ColdMigrations.TakeoverFile | internal/nodeagent/ex_longtail.go:254-347 | what a takeover makes of one listed file: on success it is in place if and only if no definition was removed that names its place; on failure it is untouched, placed, or half copied and still staged |
| ColdMigrations.TakeoverDomain | internal/nodeagent/ex_longtail.go:311-347 | on success the definition is the rewritten one; on failure it is the old one or, if it was ours, gone |
| MigrationRuns.StepKeeps | internal/nodeagent/ex_longtail.go:55-353 | every export, transfer, takeover and cleanup, failing or not, keeps the run's invariant |
| MigrationRuns.ResendsExactly | internal/nodeagent/ex_longtail.go:139-191 | an export that succeeds without a definition sends the list of the last successful export with one if and only if that export has stored it, else the list stored before |
| MigrationRuns.EveryDiskIsSent | internal/nodeagent/ex_longtail.go:55-191 | from an empty staging area, whatever list a successful export sends holds every disk |
| MigrationRuns.NothingIsLost | internal/nodeagent/ex_longtail.go:55-353 | at every moment of every run each disk has a complete copy and a node holds the definition |
| MigrationRuns.RetriesEndAlike | internal/nodeagent/ex_longtail.go:271-298 | however earlier attempts broke off, a takeover that succeeds ends in the same disks and XML |
| MigrationRuns.FirmwareInPlaceExactly | internal/nodeagent/ex_longtail.go:254-326 | after a takeover that succeeds the firmware is in place if and only if it was handed over or there already and no definition was removed that names its place |
| MigrationRuns.FirmwareSurvivesExactly | internal/nodeagent/ex_longtail.go:211-326 | once a cleanup has removed the source's definition, a copy of the firmware survives if and only if the last takeover left it in place |
| MigrationRuns.StrangersKeepTheirDefinition | internal/nodeagent/ex_longtail.go:311-326 | a foreign domain of the same name keeps its definition and the source loses nothing |
| FirmwarePaths.FirstElementIsNamed | internal/nodeagent/ex_longtail.go:199-207 | a definition names the text of its first nvram element, whatever stands around it |
| MigrationLosses.FirmwareIsLost | internal/nodeagent/ex_longtail.go:211-347 | for every machine with a firmware file in the standard place, a run with a repeated takeover that loses both copies |
| MigrationLosses.StrangerLosesItsDisk | internal/nodeagent/ex_longtail.go:254-326 | a run in which a refused takeover has replaced a foreign machine's disk |
| TakeoverFiles.FileKeptExactly | internal/nodeagent/ex_longtail.go:254-347 | a complete file of the target outlives every possible takeover if and only if it is neither the destination of a staged file that the loop gets to nor the firmware of a definition the takeover may remove |
| PathRewritings.PathRemappedExactly | internal/nodeagent/ex_longtail.go:281-297 | a placed file's path becomes its new place if and only if the first entry whose moving path occurs in it stands at its beginning, has the same kind and leaves no slash behind |
| PathRewritings.PathIsRemapped | internal/nodeagent/ex_longtail.go:281-297 | that condition is enough even when paths overlap new places |
| PathRewritings.PathWithinPath | internal/nodeagent/ex_longtail.go:281-297 | of two files whose second path begins with the first, the second is rewritten correctly if and only if they have one kind and no slash follows |
| PathRewritings.OneDirectory | internal/nodeagent/ex_longtail.go:281-297 | files of one kind and directory all get their new places, however their names begin |
| PathRewritings.SuchPaths | internal/nodeagent/ex_longtail.go:281-297 | two concrete disks of which the second is rewritten wrongly |
| PathRewritings.RightByAccident | internal/nodeagent/ex_longtail.go:281-297 | a concrete list on which a path is rewritten correctly off that condition, because another path overlaps a new place |
| DefinitionRewritings.RemapsPaths | internal/nodeagent/ex_longtail.go:281-297 | on a whole definition each path word becomes its file's new place and nothing else changes, when every path word meets that condition |
| DefinitionRewritings.RemapsPathsExactly | internal/nodeagent/ex_longtail.go:281-297 | and only then |
| DefinitionRewritings.NoPathIsLeft | internal/nodeagent/ex_longtail.go:281-297 | afterwards no word holds a path that was to be replaced |

## Left out

- Process execution, clocks, libvirt and the file system: tools are small machines over explicit state, their failures arbitrary choices. A clean-up command whose failure the code ignores is taken to succeed, except in `ColdMigrations`.
- The services above the agents: complete child lists, a new parent that is not below the target, cleanup only after a takeover that succeeded and no takeover after cleanup has begun appear as hypotheses or as guards of a run's steps.
- `virsh undefine --nvram` is taken to delete the file that the text of the definition's nvram element names, sometimes even when the call fails; that a firmware file is none of the disks is a hypothesis on the machine.
- The transfer between nodes: no code for it is in the repository, so a transfer may do anything to the target's staging area when it fails, and has copied every listed file when it succeeds.
- Live and warm migration, file modes and AppArmor profiles of placed files, base names `.`, `..` and `/` in a takeover's list, and the reading of disks, firmware and UUID out of the domain XML, which are parameters.
- In the rewriting of paths: that the definition writes paths as words between delimiters they do not contain, that names are the base names of their paths, and that no path to be replaced stands inside a new place, are hypotheses; for the direction from a right result to the condition, also that such a path cannot overlap the new place of an entry before it (`PathRewritings.RightByAccident` shows why).
- The staged copy of the domain XML next to the stored list: what is sent again goes with the XML of the machine, which does not change.
- Counts of rewritten bytes and sizes in results, and progress reports.
- Reboots of the host, which clear `/run`, and a crash inside `portMirrorEnable` between making the row and arming it.
- The per-bridge rows behind a mirror name: the attached mirrors are a set of names.
- Parsing of addresses, ports and whitelists given to iptables: sources are parsed values, the host whitelist is a list, and jumps from INPUT to chains of other programs are arbitrary decisions.
- The NAT rules, address bindings and bandwidth limits of the same file.
- Starting and watching dnsmasq: whether it starts is an arbitrary choice. MACs of 17 characters and dotted IPv4 text, which the control plane checks, are preconditions.
- Bytes against characters: strings are sequences of characters, lower-casing and white space are those of ASCII.
- XML whose attribute values hold quotes or angle brackets or end in a searched key and an equals sign, and children other than `listen`.
- `removeSelfClosing`, `xmlBlocks`, `setDiskBus` and `setDiskSource` of the XML edits.
- Sends on a bridge that race with its close: a blocked send waits for room or for the close.
- gRPC, certificates, heartbeats and stream opening around the hub. Operation identifiers are numbers, fresh for each Execute. In `HubRegistries`, a send into a full slot waits for its reader; that this may be for ever is the subject of `HubBlocking`.
