# micrun resource bookkeeping, verified

micrun turns OCI container resources into settings for RTOS guests ("mica clients"). This project models
the bookkeeping behind that translation in Dafny and proves what it keeps, computes and gets wrong:

- **CPU lists** (`Text`, `CpuList`, `CpuSets`, `PedestalCpus`, `MicaCpus`, `CpuTexts`): the text format of cpuset(7), section
  FORMATS ("List format"), at character level. `CpuList.Meaning` is what a text denotes and `CpuList.Canonical` the text
  a set is printed as; both parsers and both printers are loops proved against these two functions. `CpuTexts` says what
  the readable texts are without them: numbers, ranges and gaps with any white space, and what each of them denotes.
- **Planning and configuration** (`OciSpecs`, `Defs`, `Planner`, `Configs`): CPU capacity, milli-CPU rounding, the host filter
  of cpusets, the memory defaults, with Go's integer conversions written out (`Ints`).
- **Wire format** (`Layout`, `Wire`, `Registration`): the create message against the daemon's `struct create_msg`,
  for any field sizes, and the way of every number and of the CPU text from the container's configuration to the daemon.
- **Replies** (`Socket`): the marker search over a chunked reply.
- **Memory protocol** (`Executor`, `Containers`): the executor's records against a ghost pedestal. Every command has an
  arbitrary outcome: carried out or not, acknowledged or not.
- **Exit notifier** (`Notifier`, `Containers`): channels made, handed out and closed, over every interleaving of
  critical sections.
- **Pinning and totals** (`Pinning`, `Sums`, `Ledger`, `Sandboxes`): the sandbox object, its containers and their
  configuration objects; the union cpuset, both pinning modes, the vCPU and memory totals, removal of a container.
- **Environment** (`Env`): the environment overlay of the helper process.

Objects that the program updates in place are classes whose methods are loops like the program's and are proved
against specification functions; lemmas about those functions are the results. A range over a Go map becomes a loop
that takes any key that is left, so every result holds for every iteration order. Configuration objects may be shared
between a container and the sandbox's table: a ghost table maps each object to its contents (`Pinning.Table`). No two
containers share one, because a container is listed under its configuration's id. A `CPUSet` is never
changed once it has been built, so its map is filled first and is then a constant of the object. Machine integers are explicit
where the program converts them. Sockets, the pedestal, the host's CPU count and the disk are parameters.

`dafny verify dfyconfig.toml` checks everything.

## What the proofs found

- Shared pinning reaches a fixed point in one step except for memory nodes: a configuration without CPUs is skipped
  before its `Mems` is parsed (pkg/micantainer/sandbox.go:977-998); once pinned it has CPUs, and unreadable `Mems`
  then make every later call fail. `Pinning.SharedFixedPoint` gives the exact condition.
- A range that ends at the largest int never finishes parsing: the loop variable wraps around
  (pkg/cpuset/cpuset.go:66-68). The outcome is modelled as `NeverReturns`/`Stuck`, and print-then-parse holds exactly
  for the sets that do not contain the two largest ints together (`CpuList.Rereadable`).
- The second printer keeps duplicates, so the two printers agree exactly on lists without duplicates; for the same
  reason the vCPU count of a filtered cpuset can exceed the size of the set.
- The answer to a reply that holds both markers depends on how it arrives, exactly when the success marker is complete
  fewer than 512 bytes before the failure marker is; one marker right after the other is such a reply.
- Over runs of set-ups, limit updates and registrations, what breaks the memory invariant is known exactly
  (`Executor.RunSafeIff`): a maximum beyond the pedestal's own that is acknowledged without being carried out, or a
  registration that sets the pedestal below what is recorded by then or records what the pedestal does not have. With limits up to twice the memory the same
  configuration can be registered again at any time; beyond that one repeated registration breaks the invariant with
  every reply arriving. A first registration whose reply gets lost leaves the pedestal with more memory than recorded.
- A lost reply lets the recorded memory and the pedestal's drift apart while later updates report success.
- Over undisturbed operations the notifier agrees with the state and a waiter is released exactly when the container
  has been stopped or down since. With overlapping callers notifier and state agree exactly when the last
  assignment and the last update are of the same kind; a waiter can be left with an open channel on a stopped container,
  or be released although the container never stopped.
- A plus sign and leading zeros are read, so "+1" and "01" are CPU 1; `CpuTexts.ReadIff` gives all texts the first parser
  reads.
- Independent pinning never ends exactly when some container's own list is never read to its end.
- The initial threshold covers the memory for every base but 2^32 - 1, and reaches the daemon as an int32 of twice
  the memory exactly below 2^30 MiB.

## Model

| member | source | states |
|---|---|---|
| Text.SplitJoin | pkg/cpuset/cpuset.go:34-38 | splitting a comma-joined text gives the parts back when no part holds a comma |
| Text.AtoiItoa | pkg/cpuset/cpuset.go:48-72 | a printed int reads back as itself for every Go int |
| Text.TrimIs | pkg/cpuset/cpuset.go:40-57 | trimming takes white space off both ends and nothing else |
| Text.AtoiNat | pkg/cpuset/cpuset.go:48-72 | a plus sign and leading zeros do not matter; the number must be an int |
| Text.AtoiSpelled | pkg/cpuset/cpuset.go:48-72 | no other text without a minus sign is read as a number |
| CpuTexts.ItemsMean | pkg/cpuset/cpuset.go:29-80 | a text of numbers, ranges and gaps with any white space is read exactly when no range is reversed or ends at the largest int, and then denotes the union of its numbers and ranges; gaps add nothing |
| CpuTexts.FirstFails | pkg/cpuset/cpuset.go:48-72 | otherwise the first bad range decides: reversed is an error, unending never returns |
| CpuTexts.ReadIff | pkg/cpuset/cpuset.go:29-80 | exactly these texts are read |
| CpuTexts.ItemsList | pkg/libmica/utils.go:153-228 | the second parser refuses gaps and reversed ranges, and else lists the CPUs in order unless a range ends at the largest int |
| CpuTexts.PlainMeansTheSame | pkg/libmica/utils.go:153-228 | taking all white space out of the items changes the meaning for neither parser |
| CpuTexts.TwoNumbers | pkg/libmica/client_test.go:140-150 | two numbers with any white space around them are these two CPUs, to both parsers |
| CpuTexts.OneRange | pkg/libmica/client_test.go:140-150 | a range with any white space in it is the interval, to both parsers |
| CpuList.CollectMeaning | pkg/cpuset/cpuset.go:29-80 | the parse loop succeeds exactly when every group is blank or readable, and then adds exactly the union of the groups |
| CpuList.MeaningNonNegative | pkg/cpuset/cpuset.go:46-77 | although the number reader takes signs, no accepted text ever denotes a negative CPU |
| CpuList.RunsCover | pkg/cpuset/cpuset.go:113-131 | the printed ranges of any list cover exactly its elements, with endpoints in the list |
| CpuList.RoundTrip | pkg/cpuset/cpuset.go:29-134 | parsing the printed text gives the set back, exactly when it does not hold the two largest ints together; for every set of non-negative ints |
| CpuList.CanonicalIs | pkg/cpuset/cpuset.go:103-134 | the text of a set, defined from its largest run of consecutive CPUs down, is what scanning the sorted list from the left prints |
| CpuList.CanonicalInjective | pkg/cpuset/cpuset.go:103-154 | two sets print alike exactly when they are equal |
| CpuList.RunsGapped | pkg/cpuset/cpuset.go:113-131 | the printed ranges of an increasing list are increasing and separated by gaps |
| CpuList.RunPerStart | pkg/cpuset/cpuset.go:113-131 | there is one printed range for each element whose predecessor is missing |
| CpuList.Shortest | pkg/cpuset/cpuset.go:103-134 | no accepted text with the same meaning has fewer non-blank groups than the printed one |
| CpuList.SortedUnique | pkg/cpuset/cpuset.go:93-100 | sorting has only one result, so the order in which the map is visited does not show |
| CpuSets.CPUSet.NewCPUSet | pkg/cpuset/cpuset.go:18-26 | the new set holds exactly the listed CPUs |
| CpuSets.CPUSet.Parse | pkg/cpuset/cpuset.go:29-80 | succeeds, fails or never returns as the text's meaning says, with exactly the denoted set |
| CpuSets.CPUSet.Contains | pkg/cpuset/cpuset.go:83-85 | membership |
| CpuSets.CPUSet.ToSlice | pkg/cpuset/cpuset.go:93-100 | the increasing list of the elements, whatever the map order |
| CpuSets.CPUSet.String | pkg/cpuset/cpuset.go:103-134 | the canonical text of the set |
| CpuSets.CPUSet.IsEmpty | pkg/cpuset/cpuset.go:137-139 | true exactly for the set without elements |
| CpuSets.CPUSet.Equals | pkg/cpuset/cpuset.go:142-154 | true exactly for equal sets |
| CpuSets.CPUSet.Union | pkg/cpuset/cpuset.go:157-166 | the union, in a new set |
| CpuSets.CPUSet.Intersection | pkg/cpuset/cpuset.go:169-177 | the intersection, in a new set |
| CpuSets.CPUSet.Difference | pkg/cpuset/cpuset.go:180-188 | the difference, in a new set |
| PedestalCpus.BubbleSort | pkg/pedestal/parser.go:20-27 | the in-place bubble sort leaves the sorted permutation of the array |
| PedestalCpus.ParseCPUArr | pkg/pedestal/parser.go:11-63 | prints the merged runs of the sorted input; empty for the empty list |
| PedestalCpus.CpuArrTextParses | pkg/pedestal/parser.go:11-63 | the text parses back to the set of the list, with or without duplicates, exactly when the list does not hold both largest ints; then parsing never returns |
| PedestalCpus.PrintersAgree | pkg/pedestal/parser.go:11-63 | both printers give the same text exactly when no CPU is listed twice |
| MicaCpus.IsValidCPUString | pkg/libmica/utils.go:153-191 | valid exactly when no group is blank or unreadable |
| MicaCpus.ParseCPUString | pkg/libmica/utils.go:194-228 | the listed CPUs in order, an error, or no return, as the text says |
| MicaCpus.ParsersAgree | pkg/libmica/utils.go:153-228 | the second parser accepts exactly what the first does less texts with blank groups; both then denote the same set, without negative CPUs |
| MicaCpus.CanonicalIsValid | pkg/libmica/utils.go:153-191 | every text the set class prints is valid for the second parser |
| Planner.LinuxResourceToEssential | pkg/pedestal/planner.go:48-126 | capacity, vCPUs, cpuset and memory of the plan as functions of the specification, with the branches and conversions of the program |
| Planner.ValidateCPUSet | pkg/pedestal/planner.go:128-135 | the text and the number of CPUs it denotes, or no text and no vCPUs when it cannot be parsed |
| Planner.PlannedIsTighter | pkg/pedestal/planner.go:59-94 | without overflow the planned capacity is the configured one clamped by 100 per listed CPU; the cpuset alone gives 100 per CPU; a quota below a hundredth of the period gives 0 |
| Planner.PlannedMemoryIs | pkg/pedestal/planner.go:116-123 | the planned memory is the limit in whole MiB, rounded down, or 16 without a positive limit |
| Planner.PlannedVcpusIs | pkg/pedestal/planner.go:59-94 | the planned vCPUs are the CPUs of a readable, non-empty cpuset, else one |
| Planner.MilliCpuBracket | pkg/utils/resource_utils.go:5-20 | floor(q/p) <= vCPUs <= ceil(q/p), and the ceiling exactly unless 0 < 1000·(q mod p) < p |
| Planner.MilliCpuMonotone | pkg/utils/resource_utils.go:5-20 | more quota never gives fewer vCPUs |
| Planner.NegativeQuota | pkg/utils/resource_utils.go:5-20 | a negative quota gives no vCPUs |
| Configs.CpusetRangeValid | pkg/micantainer/utils.go:189-206 | the CPUs beyond the host, and whether there are none |
| Configs.ContainerConfig.ParseOCIResources | pkg/micantainer/container_resources.go:208-290 | the configuration's CPU and memory part and vCPU count after the host filter, including the unreadable and the never-returning cpuset |
| Configs.HostFilter | pkg/micantainer/container_resources.go:215-258 | for every cpuset the second parser accepts, the filtered text denotes exactly the CPUs below the host's count and is the text itself when none is dropped; none left means no text and one vCPU |
| Configs.HostVcpuCount | pkg/micantainer/container_resources.go:215-258 | the vCPU count is the size of the filtered set exactly when nothing was dropped or no remaining CPU is listed twice |
| Configs.ContainerConfig.ApplyContainerRuntimeDefaults | pkg/oci/oci_configs.go:455-481 | limit unchanged, reservation defaulted and clamped to the limit, threshold twice the base |
| Configs.ReservationIs | pkg/oci/oci_configs.go:455-481 | a configured reservation is kept, a missing one is the runtime's minimum or 16; either is cut to the limit |
| Configs.ThresholdIs | pkg/oci/oci_configs.go:530-541 | the threshold is twice the base, at most the largest even uint32 |
| Configs.BytesToMiBIs | pkg/micantainer/container_resources.go:323-328 | bytes in whole MiB, rounded down; nothing for missing or negative ones |
| Configs.MemoryIs | pkg/micantainer/container_resources.go:114-137 | the memory of a message is the limit, else the reservation, else 16 |
| Layout.NoOverlap | pkg/libmica/client.go:69-77 | members of the struct never overlap and ints sit at multiples of 4, for any sizes |
| Layout.ReadMember | pkg/libmica/client.go:276-321 | reading the image at a member's offset gives that member's bytes |
| Layout.LittleEndianRoundTrip | pkg/libmica/client.go:304-316 | four bytes, the lowest first, read back as the uint32 |
| Wire.MicaClientConf.InitWithOpts | pkg/libmica/client.go:229-274 | every field of the new configuration, truncated or zero-padded to its size, each int the option of its name, with the default maxima |
| Wire.MicaClientConf.Pack | pkg/libmica/client.go:276-321 | the buffer is byte for byte the image of the C struct |
| Wire.CreateMicaClient | tests/mock_micad/socket_listener.c:447-458 | what the receiver holds after receiving and terminating its strings |
| Wire.IntsArrive | tests/mock_micad/socket_listener.c:54-72 | each of the six ints arrives as its low 32 bits, read as an int32 |
| Wire.OptionsArrive | pkg/libmica/client.go:229-321 | all six ints from the options to the receiver: each is the option of its name as an int32, with the defaults for a missing maximum and a missing threshold |
| Wire.MicaLayout | pkg/libmica/client.go:69-77 | with the sizes both sides use the ints start at byte 724 and the message has 1772 bytes |
| Wire.IntsUnchanged | tests/mock_micad/socket_listener.c:54-72 | all six ints arrive unchanged exactly when all six fit an int32 |
| Wire.StringsArrive | tests/mock_micad/socket_listener.c:447-458 | each terminated string arrives as its part before any NUL, clipped to the field size less one |
| Wire.NoNulString | tests/mock_micad/socket_listener.c:453-458 | a string without NUL bytes arrives whole up to that clip |
| Wire.SizesAgree | pkg/libmica/client.go:69-77 | the message is as long as the C struct exactly when the two last fields have an even size |
| Registration.CreateMicaClientConf | pkg/micantainer/utils.go:40-74 | nothing when the firmware check fails; otherwise the message's fields from the configuration: its CPU text, at least one vCPU, capacity, memory and threshold |
| Registration.NumbersArrive | pkg/micantainer/utils.go:40-74 | a configuration's numbers as the daemon reads them: at least one vCPU, the configured capacity, the weight, the memory and both maxima |
| Registration.TextsArrive | pkg/micantainer/utils.go:40-74 | name, firmware path, pedestal, pedestal configuration and CPU text arrive in the fields of their names, clipped |
| Registration.CapacitySent | pkg/micantainer/container_resources.go:74-91 | the capacity sent is 100 times quota over period, and 0 without a quota |
| Registration.ConfMaxArrives | pkg/micantainer/container.go:961-987 | memory and maximum that registration gives the pedestal in the protocol are those the daemon reads from the container's own message |
| Registration.CpusArrive | pkg/micantainer/container.go:1020-1025 | the printed cpuset of a configuration arrives at the daemon whole exactly when it is shorter than its field |
| Registration.MemoryArrives | pkg/oci/oci_configs.go:455-541 | from limits and defaults to the daemon: 0 < reservation <= memory and maximum = 2·memory exactly below 2^30 MiB |
| Registration.DefaultsAreSafe | pkg/micantainer/container.go:961-1018 | a client registered with the defaults below 2^30 MiB starts with the memory invariant and keeps it throughout a run exactly when no operation breaks it; that includes every run without a falsely acknowledged maximum that registers nothing again, or registers the same numbers again and sets limits up to twice the memory |
| Socket.Rx | pkg/libmica/socket.go:64-107 | the verdict of the loop on a reply that arrives in these chunks |
| Socket.RxDecides | pkg/libmica/socket.go:64-107 | success exactly when some received prefix holds the success marker and not the failure marker; otherwise failure exactly when the failure marker arrives |
| Socket.ContainsIff | pkg/libmica/socket.go:64-107 | a reply holds a marker exactly when it is the marker with something before and after it |
| Socket.EmptyReadEnds | pkg/libmica/socket.go:64-107 | nothing that comes after an empty read counts |
| Socket.OneMarker | pkg/libmica/socket.go:64-107 | with one kind of marker every split gives the same answer, even through the marker |
| Socket.SplitMattersIff | pkg/libmica/socket.go:64-107 | the answer depends on the split exactly for ambiguous replies: success complete, and failure complete fewer than 512 bytes later |
| Socket.BothMarkers | pkg/libmica/socket.go:64-107 | there are such replies: with one marker right after the other, the answer depends on the split |
| Executor.MicaExecutor.RecordMemoryState | pkg/libmica/resource_manager.go:37-46 | records the memory and raises the threshold, never lowers it |
| Executor.MicaExecutor.UpdateMemoryThreshold | pkg/libmica/resource_manager.go:144-163 | sends a maximum only above the threshold; raises the threshold only on an acknowledgement |
| Executor.MicaExecutor.UpdateMemory | pkg/libmica/resource_manager.go:166-181 | always sends the memory; records it, and raises the threshold to it, only on an acknowledgement |
| Executor.MicaExecutor.EnsureMemoryLimit | pkg/libmica/resource_manager.go:51-77 | the new records and pedestal for every outcome of both commands, including the bare assignment of the threshold |
| Executor.MicaExecutor.VcpuPin | pkg/libmica/resource_manager.go:217-224 | nothing is sent for an empty list; else the pedestal is sent the printed list |
| Executor.ClippedIs | pkg/libmica/resource_manager.go:217-224 | the record holds the printed list whole exactly when it has at most 128 characters |
| Executor.StepSafeIff | pkg/libmica/resource_manager.go:37-77 | one set-up, update or registration keeps pedestal memory and recorded memory <= threshold exactly unless it creates a client with more than the threshold and the reply is lost, and keeps threshold <= pedestal maximum too exactly unless it breaks it: a maximum acknowledged without effect beyond the pedestal's, or a registration that leaves the threshold uncovered |
| Executor.RunBoundedIff | pkg/libmica/resource_manager.go:37-77 | a run keeps pedestal memory and recorded memory <= threshold throughout, whatever becomes of its commands, exactly when none of its registrations overruns the threshold it meets |
| Executor.RunBounded | pkg/libmica/resource_manager.go:37-77 | every run that registers no more memory than the threshold it starts with ends with pedestal memory and recorded memory <= threshold, which has not fallen |
| Executor.RunSafeIff | pkg/libmica/resource_manager.go:37-77 | a run keeps the whole invariant throughout exactly when none of its operations breaks it |
| Executor.RunSafe | pkg/libmica/resource_manager.go:37-77 | with commands that are carried out, fail, or are carried out with the reply lost, and clients registered again at any time, every run whose limits stay within a cap that the registered maxima cover keeps pedestal memory <= threshold <= pedestal maximum and recorded memory <= threshold; without registrations the cap excludes nothing |
| Executor.ReRegisterBreaks | pkg/micantainer/container.go:934-987 | beyond the cap: a limit above twice the memory, then the same registration again, both carried out and acknowledged, leave the threshold above the pedestal's maximum |
| Executor.LostCreate | pkg/micantainer/container.go:961-987 | a first registration with a lost reply leaves the pedestal's memory above the threshold until the client is registered again |
| Executor.FalseAckBreaks | pkg/libmica/resource_manager.go:144-163 | a concrete update whose maximum is acknowledged without being carried out leaves the threshold above the pedestal's maximum |
| Executor.ThresholdRises | pkg/libmica/resource_manager.go:51-77 | no set-up or update lowers the threshold, from any state |
| Executor.RegisterSafeIff | pkg/micantainer/container.go:961-987 | an acknowledged registration establishes the bounds from any state, and the whole invariant exactly when the int32 maximum that arrives covers the base and the old threshold |
| Executor.FirstRegistrationSafe | pkg/micantainer/container.go:961-987 | the first registration with the defaults establishes it exactly below 2^30 MiB |
| Executor.ThresholdCovers | pkg/oci/oci_configs.go:530-541 | the uint32 threshold is at least the base, except for 2^32 - 1 |
| Executor.ChangeReaches | pkg/libmica/resource_manager.go:51-77 | a limit update succeeds exactly when the record shows the limit or every command sent is acknowledged; it then leaves the record at the limit, and the pedestal too exactly when it was there or the command was carried out |
| Executor.SetUpReaches | pkg/micantainer/container.go:989-1018 | the same for setting up, for which record and threshold must show the limit; a failed one leaves the recorded memory, and the threshold is raised exactly by an acknowledged maximum |
| Executor.LimitReaches | pkg/libmica/resource_manager.go:51-77 | ensuring a limit raises the threshold even when the limit is recorded already |
| Executor.RegisterReaches | pkg/micantainer/container.go:961-987 | what a registration records depends on its acknowledgement alone, what the pedestal gets on its being carried out |
| Executor.LostReplyDrifts | pkg/libmica/resource_manager.go:166-181 | a concrete run in which a lost reply leaves record and pedestal apart although later updates succeed |
| Notifier.RunSound | pkg/micantainer/container.go:888-903 | over every interleaving no channel is closed twice, the current channel is the only open one, and there is none exactly when the last update was for stopped or down |
| Notifier.HandedChannels | pkg/micantainer/container.go:905-910 | over every interleaving a channel handed to a waiter is the current one until it is closed, and it is closed exactly when an update for stopped or down has come after it was handed out |
| Notifier.ReleasedIff | pkg/micantainer/sandbox.go:476-503 | over every run of undisturbed operations a waiter is released exactly when the container's state has been stopped or down since it was handed its channel; until then that channel is the current one |
| Notifier.OpsInStep | pkg/micantainer/container.go:866-931 | over every run of undisturbed operations, beginning with any state restored from disk, the notifier is nil exactly when the state is stopped or down |
| Notifier.OpsApart | pkg/micantainer/container.go:934-952 | an operation made up of operations, such as looking for the client, continues the run that came before, so the results about runs of operations cover it |
| Notifier.AgreesIff | pkg/micantainer/container.go:866-931 | over every interleaving notifier and state agree exactly when the last assignment and the last update of the schedule are both for active or both for inactive states |
| Notifier.FinishedAgrees | pkg/micantainer/container.go:866-931 | overlapping callers do no harm when the one that assigns the state last is, in kind, also the last to update |
| Notifier.CrossedCallers | pkg/micantainer/container.go:866-886 | two overlapping callers after which the container runs without a channel |
| Notifier.EarlyRelease | pkg/micantainer/container.go:888-910 | an interleaving that releases a waiter although the container ran all the time it waited |
| Notifier.LateWaiter | pkg/micantainer/sandbox.go:476-503 | the interleaving that leaves a waiter with an open channel on a stopped container |
| Containers.Container.UpdateExitNotifier | pkg/micantainer/container.go:888-903 | closes and clears, or makes, the channel as the machine does; never a double close |
| Containers.Container.SetContainerState | pkg/micantainer/container.go:866-886 | the state and the notifier together, whether or not they can be saved; nil exactly for stopped and down |
| Containers.Container.constructor | pkg/micantainer/container.go:99-130 | a new container's machine has made the operations of restoring the state found on disk, if any, and of the first check; notifier and state agree |
| Containers.Container.CheckState | pkg/micantainer/container.go:912-931 | a missing socket turns the state to down, except for the infra container |
| Containers.Container.RegisterClient | pkg/micantainer/container.go:961-987 | pedestal, records and state for every outcome of the firmware check, the create command and the save; a failed save is reported after all of them have changed |
| Containers.Container.EnsureClientPresence | pkg/micantainer/container.go:934-952 | the state found, or ready after registering anew; fails exactly when the client stays down or registering does, whose effects are given even then; the notifier's machine makes exactly the check and, after a registration, the change to ready |
| Containers.Container.SetupMemory | pkg/micantainer/container.go:989-1018 | with a positive limit on Xen: when it succeeds, in the replies; success leaves the record at the limit and the threshold at least there, and the pedestal at the limit exactly when it was there or the command was carried out; nothing for infra containers or other pedestals |
| Containers.Container.UpdateMemoryLimit | pkg/micantainer/utils.go:231-238 | the memory part of an update: nothing when the limit is recorded already; else when it succeeds, in the replies, with the record at the limit and the pedestal there exactly when it was or the command was carried out |
| Containers.Container.SetVcpuAffinity | pkg/micantainer/container.go:1184-1200 | on success the configuration holds the set's canonical text and size, the executor's record that text clipped, and the pedestal, when it carried the command out, the very same text; an empty set fails |
| Containers.PinnedText | pkg/libmica/resource_manager.go:217-224 | the text sent for a set is its canonical text, empty exactly for the empty set |
| Containers.PinnedIs | pkg/micantainer/container.go:1184-1200 | pinning changes the CPU list and both vCPU numbers; quota, period, memory nodes and memory stay |
| Pinning.UnionIs | pkg/micantainer/sandbox.go:965-1004 | the unions are over the readable texts of all but the infra configurations; the memory nodes of a configuration without CPUs do not count |
| Pinning.ReadableIs | pkg/micantainer/sandbox.go:965-1004 | they can be computed exactly when each such configuration with CPUs has readable CPUs and no or readable memory nodes |
| Pinning.UnionKept | pkg/micantainer/sandbox.go:965-1004 | after pinning to the union the union is still the same set |
| Pinning.SharedFixedPoint | pkg/micantainer/sandbox.go:908-1004 | one shared pinning is a fixed point; the cpuset can be computed again exactly when the memory nodes of all pinned configurations can be read |
| Pinning.FixedPointLost | pkg/micantainer/sandbox.go:977-998 | two containers for which the first pinning succeeds and the cpuset cannot be computed afterwards |
| Pinning.LostTexts | pkg/micantainer/sandbox.go:977-998 | texts that make up such a case |
| Pinning.IndependentFixedPoint | pkg/micantainer/sandbox.go:1098-1134 | a pinned configuration holds its own set's text and size and reads back to that set exactly when the set is rereadable; pinning again changes nothing |
| Pinning.OwnFixedPoint | pkg/micantainer/sandbox.go:1098-1134 | the same for all pinned configuration objects at once: a second pinning changes none |
| Ledger.CountVcpus | pkg/micantainer/utils.go:117-143 | a configuration's vCPUs: its count when positive; else its quota's, between the quotient and its ceiling; else the size of its readable cpuset; else one |
| Ledger.TotalOfNumbers | pkg/micantainer/utils.go:100-146 | with positive counts everywhere the total is the minimum plus their sum, as a uint32 |
| Ledger.CountMemory | pkg/micantainer/utils.go:165-184 | a configuration's MiB: limit and huge pages, each rounded down |
| Ledger.MemShareIs | pkg/micantainer/utils.go:165-184 | what counts is the positive limit over 2^20, rounded down, and with huge pages each page limit likewise; nothing without a memory part |
| Ledger.PagesSnoc | pkg/micantainer/utils.go:165-184 | each huge page limit counts in whole MiB, rounded down |
| Ledger.MemoryShortfall | pkg/micantainer/utils.go:149-187 | the summed MiB fall short of the summed byte limits by less than one MiB per counted limit |
| Ledger.PoolShortfall | pkg/micantainer/sandbox_resource.go:58-68 | so does the pool of bytes that is stored, when the sum is below 2^64; otherwise it misses a positive multiple of 2^64 more |
| Ledger.RemoveOne | pkg/micantainer/sandbox.go:312-356 | taking one configuration out lowers both totals by exactly what it contributed |
| Sums.SumTake | pkg/micantainer/utils.go:106-146 | the sum over a map does not depend on which key is visited first |
| Sandboxes.Sandbox.CalculateSandboxVCPUs | pkg/micantainer/utils.go:100-146 | the uint32 sum over the live configurations that are not infra, in any order; states and configurations are kept |
| Sandboxes.Sandbox.CalculateSandboxMemory | pkg/micantainer/utils.go:149-187 | the uint64 sum in MiB over the live configurations that are not infra, in any order |
| Sandboxes.Sandbox.UpdateResources | pkg/micantainer/sandbox.go:1007-1045 | vCPUs are the minimum plus the sum, memory the sum in bytes; nothing changes for infra-only or static sandboxes |
| Sandboxes.SandboxResource.ResizeMemory | pkg/micantainer/sandbox_resource.go:58-68 | the pool in bytes before and after |
| Sandboxes.Sandbox.GetSandboxCpusetStr | pkg/micantainer/sandbox.go:965-1004 | the canonical texts of both unions, exactly when everything that is looked at can be read |
| Sandboxes.Sandbox.SetAffinity | pkg/micantainer/sandbox.go:1078-1083 | pinning one container rewrites its configuration object, which the sandbox's table may hold too, and no other |
| Sandboxes.Sandbox.PinShared | pkg/micantainer/sandbox.go:1073-1084 | whatever fails, exactly the configurations of the acknowledged containers are pinned and their set recorded; success is that these are all and the set is not empty |
| Sandboxes.Sandbox.ReadOwn | pkg/micantainer/sandbox.go:1100-1113 | nothing named, unreadable, or never read to its end, exactly when the list says so; else exactly the CPUs the container asks for |
| Sandboxes.Sandbox.PinOwn | pkg/micantainer/sandbox.go:1100-1121 | one container, exactly: left alone without CPUs, else pinned to its own set, recorded and added to the pool when its list can be read, is not empty and is acknowledged; stuck when the list is never read to its end; else failed without any change |
| Sandboxes.Sandbox.PinIndependent | pkg/micantainer/sandbox.go:1098-1122 | gets stuck exactly when some container's list is never read to its end, else visits all; of those visited exactly the ones that can be are pinned to their own sets, and the pool is the union of those sets; succeeds exactly when all can be |
| Sandboxes.Sandbox.PinVCPU | pkg/micantainer/sandbox.go:1070-1136 | both modes: exactly when it succeeds, with the configurations, the sorted pool and the vCPU sum then; which configurations have been rewritten after a failure, which leaves statistic and pool untouched |
| Sandboxes.Sandbox.Match | pkg/micantainer/sandbox.go:932-952 | a mismatch takes the pinned mark back, and that is all it does |
| Sandboxes.Sandbox.CheckVCPUsPinning | pkg/micantainer/sandbox.go:908-959 | with pinning off nothing happens; with it on, in both modes, exactly when it succeeds, and that every container's configuration is then pinned, with the pool, the sum and the mark; after a failure the mark is kept exactly when the union could not be computed or suits the host and the sandbox |
| Sandboxes.SucceedsIs | pkg/micantainer/sandbox.go:908-1136 | when it succeeds, in the texts and the replies: the union is rereadable; shared, not empty and acknowledged by every container; independent, each container that names CPUs has a readable, non-empty list and acknowledges |
| Sandboxes.Sandbox.SharedSettles | pkg/micantainer/sandbox.go:908-1096 | after a successful shared pinning the configuration object of every container, in the sandbox's table or not, holds the union's text, which denotes it, and its size; the union is unchanged and a second pinning changes nothing |
| Sandboxes.Sandbox.SharedTotal | pkg/micantainer/sandbox.go:1085-1096 | after a shared pinning the vCPU total is the number of live configurations that containers own, infra excluded, times the size of the union, plus what configurations without a container weigh, as a uint32 |
| Sandboxes.Sandbox.OwnSettles | pkg/micantainer/sandbox.go:1098-1134 | after a successful independent pinning the configuration of each container that asked for CPUs holds its own set's text and size, the pool is their sorted union, and a second pinning changes nothing |
| Sandboxes.Sandbox.DeleteClient | pkg/micantainer/container.go:552-582 | a running container or one being created is never removed; a ready, paused or stopped one exactly when the remove command succeeds or it is the infra container; a down one only after it has been created anew; a failed save comes after the container is gone; the notifier's machine makes the steps of looking for the client |
| Sandboxes.DeletableIs | pkg/micantainer/container.go:552-582 | the same condition, state by state |
| Sandboxes.Sandbox.DeleteContainer | pkg/micantainer/sandbox.go:312-356 | exactly when it succeeds, and state by state when the container goes; one that stays leaves configurations and totals alone; after success container and configuration are gone and the memory is the old sum less exactly the container's share, as are the vCPUs with pinning off; with pinning on these are counted anew from what pinning leaves |
| Sandboxes.Sandbox.WaitContainerExit | pkg/micantainer/sandbox.go:476-503 | the container's machine makes exactly the steps of the wait operation and no other container is touched; error for down, done for stopped, otherwise the open current channel |
| Env.OverlayLookup | pkg/micantainer/container.go:419-440 | for every key the last binding of the result is the last override, else the last base binding |
| Env.OverlayKeepsKeys | pkg/micantainer/container.go:419-440 | the base positions keep their keys, and what is added has a key bound nowhere else |
| Env.MergeEnv | pkg/micantainer/container.go:419-440 | the two loops with their index map compute the overlay |
| Env.AssembleHelperEnv | pkg/micantainer/container.go:396-407 | the helper's bindings: the process's own, else the inherited ones, and always a PATH |

## Left out

- CPU weight (`ShareToWeight`, `FromSpec`'s weight) and the upper bound of vCPUs from annotations: parameters or omitted; they would only add easy members.
- Annotations, runtime configuration files and their discovery: the one value that matters here, the minimal container memory, is a parameter.
- Shim RPC, start, stop, pause and resume, and any claim that a running container's guest is up.
- Live updates of CPU capacity and vCPU number: only memory limits are updated in the model.
- Process restart: the memory invariant is stated from registration on within one process.
- Disk, logging, exit codes and error texts: whether saving succeeds is a parameter, errors are kinds.
- The retry of `micaCtl` with a bare command, which drops the arguments of a `set` (pkg/libmica/client.go:369-391), appears only as an acknowledgement without effect.
- Short reads of the receiver: bytes that do not arrive read as zero.
- The receiver does not terminate `iomem`; it is kept as raw bytes.
- Texts are sequences of characters; invalid UTF-8 is not modelled, and the message's strings are bytes.
- Two configurations that share one `Resources` struct: resources are values of their configuration object. A configuration object that a container and the table share is one object.
- The per-container vCPU map of the resource manager, which the modelled operations only delete from.
- Nil checks of sandbox, configuration and container objects.
- `infraOnly` changes only while containers are created, which is not part of this model, so it is a constant.
- Timeouts and socket errors of rx are one verdict, NoVerdict, at the end of the chunks.
- What each pedestal is told is stated for one container's pinning (`SetAffinity`, `PinOne`, `PinNamed`), not for a whole pinning loop.
- Which containers independent pinning has visited before it gets stuck depends on the order of a Go map: the model returns some set of them.
