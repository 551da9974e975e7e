# enn-policy: a model of the controller and its proofs

enn-policy watches pods, namespaces and NetworkPolicy objects of a Kubernetes cluster. It compiles the policies into
chains of the kernel's filter table, written as one `iptables-restore --noflush` script, and keeps ipsets equal to the
pod addresses the chains match. This project models the controller and the part of the kernel it relies on, and proves
what the controller keeps true.

The files, from the ground up:

- `Octets`, `Flannel`: address arithmetic with carry, and the enumeration of flannel and docker addresses.
- `SaveRestore`: the reader and writer of the text of iptables-save.
- `StringOrder`, `Orders`, `Names`, `Naming`: sorted words, iteration orders of Go maps, the names of chains and sets.
- `PolicySpecs`, `Policies`: policies as reported, as kept, and the ways the loops can walk through them.
- `Netfilter`: rules, sets, packets, evaluation with jump and return, and the restore interpreter.
- `Compiler`, `Verdicts`, `Entries`, `Restoring`: what a walk emits, what the table decides, and why the script is valid.
- `Mirror`, `WalkOrder`: ingress against egress, and what the order of the walk can change.
- `Indexes`, `Joins`, `Coalescing`, `Pods`, `IndexMaps`: change maps, indexes, and the loops that patch them.
- `Reconciler`, `Syncs`, `RuleSync`, `Cluster`, `Runs`: the synchronisations as steps of a state machine, and whole runs.
- `EndToEnd`, `Forwarding`: from cluster objects to the kernel's verdict on a packet.
- `Rounds`: what a round of incremental visits forgets, destroys and leaves alone.
- `Reports`: the same read off the fields of reported pods, namespaces and policies and the text of the configuration.
- `Hashing`: when two generated names are the same, and when the names in use do not clash.
- `Counterexamples`: concrete runs in which the kernel does not do what the policies say, or not the same.
- `Kernel`, `SetSync`, `Visiting`, `Emitting`, `EnnPolicy`: the kernel and the controller as classes; every loop and
  method is proved against the specification functions above, and every handler is a step of a run.
- `Wakeup`: the handlers, the Synced callbacks and the ticker as interleaved threads.
- `Cleanup`: CleanupLeftovers.

How some Go notions are rendered. A Go map is a Dafny map, and ranging over one visits its keys in any order: methods
pick keys nondeterministically and hand out the order as a ghost result, specifications take the order as an argument.
A pod, namespace or policy that is missing is `None`; a nil map built for an absent pod is not the empty map
(`GoMap`). Chain and set names are constructors with a hash part; the hash is an arbitrary function, and that names in
use do not clash is a hypothesis where it is needed (`NoClash`, `AllMean`), never an axiom. CIDR membership is an
arbitrary predicate of the packet's world.

## Findings

What the code does not meet, with the condition under which it does:

- A pod selector with a pair no pod of the namespace has ever carried selects pods that do not carry it
  (`EndToEnd.SelectorMeaning`, exact; `Counterexamples.UnknownPairWidens`, a run in which the kernel accepts a packet
  to a pod the policy does not select).
- A namespace deleted under its policies loses its pod set until rules are made again: packets to its later pods pass
  FORWARD undecided (`Forwarding.TrackedExactly` and `Forwarding.ForwardDecides`, exact;
  `Counterexamples.ForgottenNamespacePasses`, a run).
- A batch in which one pod gives up an address and another takes it can lose the address, depending on map order
  (`Indexes.MoveLosesAddress`; `Indexes.BatchRebuild`, exact).
- The set of a one-pair selector is the label set of the swapped pair when the key sorts after the value
  (`Names.OnePairSelector`, exact); more generally two selectors share a set exactly when their sorted words run
  together to the same text (`Names.SelectorsShareSet`).
- Names are hashed from their parts joined without a separator, so different labels, clauses or blocks can share one
  chain or set; for every kind of name the condition is that the joined texts are equal (`Hashing.LabelSetsShare`,
  `Hashing.DispatchChainsShare` and the others, exact), and with a hash that separates the texts in use nothing else
  clashes (`Hashing.HashedNoClash`, exact).
- Two blocks with one CIDR and different except lists in one policy and direction share an except set; the last one
  walked wins (`Runs.ExceptsExactly`, `Runs.DistinctCidrsAgree`, exact).
- With except lists, the verdict depends on the order in which policies are walked exactly when one policy accepts the
  packet by itself and another rejects it (`WalkOrder.OrderMatters`, `WalkOrder.WalksMatter`, exact;
  `Counterexamples.WalkOrderDecides`, two runs with the same reports whose kernels disagree on a packet).
- The flannel enumeration loses addresses exactly when the last docker address would reach 2^32
  (`Flannel.AddressesComplete`; `Flannel.UnalignedLosesAddresses`, an input: the network 255.255.255.255/0).
- A last line without a newline is read cut short exactly when it is one character, or has a space among its last two
  (`SaveRestore.UnterminatedBuffer`).
- CleanupLeftovers deletes rules by numbers taken before earlier deletions: with two ENN jumps in one built-in chain
  the second survives, somebody else's rule can be deleted, and no ENN chain can be removed (`Cleanup.SweptClean`,
  `Cleanup.CleanupComplete`, exact; `Cleanup.SweepHitsAnother`, an input).
- A full and an incremental synchronisation treat a selector with no indexed pair differently
  (`Reconciler.FullAndIncremental`, exact), which no run can show (`Reconciler.FullAndIncrementalAgree`).

The documentation describes label selectors as conjunctions. A peer selector's pairs are alternatives in the code
(each gets a dispatch chain of its own), and so they are here.

## Model

| member | source | states |
|---|---|---|
| `Octets.PowerInt` | pkg/util/tool/tool.go:9-17 | the loop computes the power; a negative exponent counts as zero |
| `Octets.IpStringToInt` | pkg/util/tool/tool.go:19-38 | succeeds exactly on four integers between 0 and 255, which come out least significant first |
| `Octets.IpOperateAdd` | pkg/util/tool/tool.go:54-86 | the carry loop is the recursive ripple from the given octet; anything but four octets is refused |
| `Octets.RippleAdds` | pkg/util/tool/tool.go:54-86 | rippling adds step * 256^item to the address, and fails exactly when the sum reaches 2^32 |
| `Octets.DottedInjective` | pkg/util/tool/tool.go:40-52 | different octets are written differently |
| `Flannel.DottedReads` | pkg/util/tool/tool.go:19-52 | an address as written splits at the dots and reads back as its octets |
| `Flannel.NetReads` | pkg/policy/policy.go:600-633 | every network written as base/mask reads back as its octets and mask |
| `Flannel.Enumerate` | pkg/policy/policy.go:634-674 | the generation loop yields the .0 and .1 address of each of the 2^len subnets that lie below 2^32 |
| `Flannel.FlannelAddresses` | pkg/policy/policy.go:600-674 | the whole parse and enumeration, with every refusal of a malformed network or length |
| `Flannel.AlignedEnumeration` | pkg/policy/policy.go:634-674 | for an aligned network: exactly base + i*stride and that plus one, all inside the network, 2^(len+1) different strings |
| `Flannel.NothingLost` | pkg/policy/policy.go:640-674 | all 2n addresses come out if and only if the last of them is below 2^32 |
| `Flannel.AddressesComplete` | pkg/policy/policy.go:600-674 | the same on the parsed network: 2^(len+1) strings if and only if the last docker address is below 2^32 |
| `Flannel.AlignedComplete` | pkg/policy/policy.go:600-674 | alignment is enough for that |
| `Flannel.UnalignedLosesAddresses` | pkg/policy/policy.go:640-674 | the text 255.255.255.255/0 with one subnet yields the single address 255.255.255.255 |
| `SaveRestore.ReadLine` | pkg/util/k8siptables/save_restore.go:64-110 | the exact line and next index for every buffer, terminated or not |
| `SaveRestore.ReadAllTerminated` | pkg/util/k8siptables/save_restore.go:64-110 | on a newline-terminated buffer iterated reading yields exactly the space-trimmed lines |
| `SaveRestore.UnterminatedBuffer` | pkg/util/k8siptables/save_restore.go:64-110 | after any lines, an unterminated last line comes back trimmed if and only if it is blank or ends in two characters that are no spaces |
| `SaveRestore.GetChainLines` | pkg/util/k8siptables/save_restore.go:31-62 | the two loops are the recursive scan for the table's header and its chain lines; a chain line without a space is a panic |
| `SaveRestore.MadeChainLine` | pkg/util/k8siptables/save_restore.go:25-27 | a made chain line is one the reader recognises, for names without spaces or newlines |
| `SaveRestore.RoundTrip` | pkg/util/k8siptables/save_restore.go:25-62 | reading a printed table returns what its chain lines denote, the last line of a name winning, whatever stands around it |
| `SaveRestore.RoundTripDistinct` | pkg/util/k8siptables/save_restore.go:25-62 | with distinct names that is exactly the printed names, each with its own line |
| `SaveRestore.WriteLine` | pkg/policy/policy.go:3092-3102 | words separated by spaces, ended by a newline |
| `SaveRestore.WordsSplit` | pkg/policy/policy.go:3092-3102 | splitting a written line at its spaces gives the words back |
| `StringOrder.LeIs` | pkg/policy/policy.go:3068-3077 | the order sorted by is that of the first characters that differ, prefixes first |
| `StringOrder.SortCanonical` | pkg/policy/policy.go:3068-3077 | sorting makes permutations of the same words equal |
| `Naming.SelectorSetOrderFree` | pkg/policy/policy.go:3068-3077 | whatever order a selector map is ranged over in, its set gets the same name |
| `Naming.HashedOrderFree` | pkg/policy/policy.go:3003-3089 | the controller's own naming has that property for every hash |
| `Names.OnePairSelector` | pkg/policy/policy.go:3053-3077 | the set of a one-pair selector is the pair's own label set for every hash if and only if the pair is in order; else it is the swapped pair's |
| `Names.SelectorsShareSet` | pkg/policy/policy.go:3068-3077 | two selectors share a set for every hash if and only if their sorted words concatenate to the same text |
| `Names.RenderClassify` | pkg/policy/policy.go:1003-1028 | every chain name, classified and printed again, is itself |
| `Names.ClassifyRender` | pkg/policy/policy.go:1003-1028 | every generated chain, printed and classified, is itself: no two generated chains have one name |
| `Names.PrefixTests` | pkg/policy/policy.go:1003-1012 | a chain is dynamic exactly when its name has one of the six prefixes |
| `Names.EnnSetNames` | pkg/policy/policy.go:2720-2727 | the garbage collector's test is passed by exactly the set names that begin with E, N, N, all generated ones among them |
| `Names.RenderSetApart` | pkg/policy/policy.go:3041-3089 | no two generated sets have one name |
| `Hashing.NamespaceChainsShare` | pkg/policy/policy.go:3003-3027 | two namespaces share no chain |
| `Hashing.DispatchChainsShare` | pkg/policy/policy.go:3029-3034 | two clauses share a dispatch chain for every hash if and only if namespace, policy, direction, kind, CIDR, key and value run together to the same text |
| `Hashing.BlocksShare` | pkg/policy/policy.go:3035-3040 | likewise for the chains and the except sets of blocks |
| `Hashing.NamespaceSetsShare` | pkg/policy/policy.go:3041-3046 | two namespaces share no pod set |
| `Hashing.LabelSetsShare` | pkg/policy/policy.go:3053-3059 | two labels share a set if and only if namespace, kind, key and value run together to the same text |
| `Hashing.SelectorSetsShare` | pkg/policy/policy.go:3068-3077 | two selectors share a set if and only if namespace, kind and sorted words do |
| `Hashing.NamespaceLabelSetsShare` | pkg/policy/policy.go:3079-3084 | two namespace labels share a set if and only if key and value do |
| `Hashing.ConfigSetsShare` | pkg/policy/policy.go:3047-3066 | the two sets of the configuration are named after its texts |
| `Hashing.HashedNoClash` | pkg/policy/policy.go:3003-3089 | with a hash that separates the texts in use, names do not clash if and only if different dispatch groups and blocks have different texts; except sets are then shared within a group only |
| `PolicySpecs.BuildNetworkPolicyInfo` | pkg/policy/util/policyinfo.go:138-281 | the loops over types, rules, ports and peers build the described policy; no policy gives none |
| `PolicySpecs.TypesListed` | pkg/policy/util/policyinfo.go:154-160 | a direction is governed exactly when its type is listed |
| `PolicySpecs.PeersAreAlternatives` | pkg/policy/util/policyinfo.go:183-222 | a peer with several parts compiles to the same rule as several peers with one part each |
| `PolicySpecs.PodClauses` | pkg/policy/util/policyinfo.go:183-195 | the pairs a built rule has pod clauses for are those its peers' pod selectors ask for |
| `PolicySpecs.NamespaceClauses` | pkg/policy/util/policyinfo.go:196-206 | the same for namespace selectors |
| `PolicySpecs.BuiltMeans` | pkg/policy/util/policyinfo.go:138-281 | a built policy has a clause of a direction if and only if the direction's type is listed and a rule of the direction's own list reports it: pods, namespaces, blocks with their exceptions, or ports alone; name, namespace and selector are as reported |
| `Policies.WalkVisits` | pkg/policy/policy.go:861-968 | in whatever order, a walk visits exactly the clauses of the policies |
| `Netfilter.NeverStuck` | pkg/policy/policy.go:1039-2034 | in a table whose jumps descend, evaluation ends without getting stuck |
| `Netfilter.RunDeletes` | pkg/policy/policy.go:1009-1013 | empty chains nothing jumps to can all be deleted, one after the other |
| `Verdicts.PeerRulesMatch` | pkg/policy/policy.go:1387-1442 | the rules of a clause match exactly its packets: own pods, peer, and one of the ports if there are any |
| `Verdicts.DispatchVerdict` | pkg/policy/policy.go:1450-1804 | a dispatch chain decides what its group of clauses decides |
| `Verdicts.PlyVerdict` | pkg/policy/policy.go:970-994 | a policy chain accepts established connections, then the first group that matches decides in emitted order, then it rejects |
| `Entries.NamespaceContent` | pkg/policy/policy.go:1096-1135 | however often a namespace is entered, its chain gets its rules once |
| `Entries.NamespaceChainVerdict` | pkg/policy/policy.go:1057-1135 | every packet entering a namespace chain is accepted or rejected: flannel, ip range, then the policies |
| `Entries.EntryChainsVerdict` | pkg/policy/policy.go:1057-1081 | FORWARD and OUTPUT let the first namespace entry that matches decide; INPUT decides nothing |
| `Entries.CompilerCorrect` | pkg/policy/policy.go:861-994 | for a packet no matching block excepts, the table accepts exactly what flannel, the ip range, connection tracking or a rule of a governing policy allows |
| `Restoring.RestoreExact` | pkg/policy/policy.go:824-1033 | the script is accepted: every chain is declared first, every set exists, every deleted chain is empty and unreferenced; it leaves the compiled table |
| `Restoring.ResultExact` | pkg/policy/policy.go:996-1013 | afterwards the dynamic chains are exactly the active ones, and foreign chains are as they were |
| `Restoring.PlyShape` | pkg/policy/policy.go:970-994 | a policy chain is one ACCEPT of established connections, jumps to dispatch chains, one REJECT |
| `Restoring.ResultDescends` | pkg/policy/policy.go:1039-2034 | jumps strictly descend from entry over namespace, policy and dispatch chains to block chains |
| `Restoring.ReferencedSetsActive` | pkg/policy/policy.go:869-953 | every set a generated rule refers to is among the active sets |
| `Mirror.MirrorItems` | pkg/policy/policy.go:1039-1340 | compiling mirrored policies emits the mirrored items |
| `Mirror.MirrorTheorem` | pkg/policy/policy.go:1039-1340 | the mirrored walk is a walk over the mirrored policies, and its table gives the swapped packet the same verdict, through every kind of dispatch |
| `WalkOrder.OrderMatters` | pkg/policy/policy.go:861-968 | two orders of the policies can disagree on a packet if and only if one policy accepts it by itself and another rejects it |
| `WalkOrder.NoExceptsNoOrder` | pkg/policy/policy.go:861-968 | without except entries that match, no two policies disagree and all walks give the same verdict |
| `WalkOrder.ListingsAgree` | pkg/policy/policy.go:1450-1804 | in whatever order a policy's selectors are ranged over, the policy by itself decides the same, except lists or not |
| `WalkOrder.WalksMatter` | pkg/policy/policy.go:861-968 | two walks, of any order of policies and selectors, can disagree on a packet if and only if it is of a new connection, one policy accepts it by itself and another rejects it |
| `Pods.PodToPodMatchLabelMap` | pkg/policy/util/podinfo.go:118-177 | the loop over labels builds the label view; there is none exactly for an absent pod, one without an address, on the host network, or ended |
| `Pods.ViewsOfPod` | pkg/policy/util/podinfo.go:140-152 | for both views, that test on the pod's fields |
| `Pods.ViewsHold` | pkg/policy/util/podinfo.go:153-221 | the views hold the pod's address, under its namespace and under each of its labels |
| `Pods.PodChangeMap.Update` | pkg/policy/util/podinfo.go:63-112 | all three maps keep the first previous view and the latest current one, drop a key when they are equal; says whether anything is pending |
| `Pods.NamespaceChangeMap.Update` | pkg/policy/util/namespaceinfo.go:44-64 | the same for namespaces |
| `Pods.NetworkPolicyChangeMap.Update` | pkg/policy/util/policyinfo.go:117-136 | the same for policies, on the views built from them |
| `Coalescing.Conservation` | pkg/policy/util/podinfo.go:63-112 | over any events, a key is pending exactly when its view differs from the flushed one, and then leads from the flushed view to the present one |
| `Coalescing.NothingPending` | pkg/policy/util/podinfo.go:114-116 | nothing is pending exactly when every view is the flushed one |
| `Cluster.BuiltCoalesces` | pkg/policy/util/policyinfo.go:117-136 | pending policies coalesce on what is built of the reported policies |
| `Indexes.BatchRebuild` | pkg/policy/util/podinfo.go:223-390 | unmerging previous and merging current views, in every order, turns an index of the old pods into one of the new, if and only if no address moves between changed pods |
| `Indexes.MoveLosesAddress` | pkg/policy/util/podinfo.go:223-313 | for every move there is an order in which the result is wrong |
| `Indexes.FlushOrderFree` | pkg/policy/util/podinfo.go:223-390 | without moves all orders give the same index |
| `Indexes.FlushKeys` | pkg/policy/util/podinfo.go:231-313 | keys are never removed, and those of current views are added |
| `Joins.PodFlushJoins` | pkg/policy/util/podinfo.go:392-422 | patched by pods, the namespace-label index stays the join of the other two maps, pods without their namespace included |
| `Joins.NamespaceFlushJoins` | pkg/policy/util/namespaceinfo.go:83-181 | patched by namespaces it stays the join too |
| `IndexMaps.PodIndex.Merge` | pkg/policy/util/podinfo.go:231-274 | the nested loops add every entry and nothing else |
| `IndexMaps.PodIndex.Unmerge` | pkg/policy/util/podinfo.go:276-313 | the nested loops delete every entry and keep the keys |
| `IndexMaps.UpdatePodMatchLabelMap` | pkg/policy/util/podinfo.go:223-229 | ranging over the changes is a flush in the order taken |
| `IndexMaps.UpdateNamespacePodMap` | pkg/policy/util/podinfo.go:315-390 | the same for the namespace index |
| `IndexMaps.UpdateNamespaceMatchLabelMapByPod` | pkg/policy/util/podinfo.go:392-422 | the loops over previous and current views are a flush of the changes seen under the namespaces' labels |
| `IndexMaps.UpdateNamespaceMatchLabelMap` | pkg/policy/util/namespaceinfo.go:83-181 | the loops over changed namespaces are a flush of their label views |
| `IndexMaps.NamespaceInfoMap.Update` | pkg/policy/util/namespaceinfo.go:265-285 | the namespace map takes over every pending change |
| `IndexMaps.NetworkPolicyMap.Update` | pkg/policy/util/policyinfo.go:283-310 | the policy map takes over every pending change, and the change map is emptied |
| `IndexMaps.ReplacedIsStore` | pkg/policy/util/policyinfo.go:283-310 | taking over coalesced changes leaves the present store |
| `Reconciler.VisitsSettle` | pkg/policy/policy.go:2182-2337 | a round of visits makes every visited set right and spoils none, in any order |
| `Reconciler.FullAndIncremental` | pkg/policy/policy.go:2107-2172 | a full and an incremental synchronisation of an active set do the same, unless no pair of its selector is indexed and the set holds something |
| `Reconciler.FullAndIncrementalAgree` | pkg/policy/policy.go:2462-2558 | in the states of a run they always do the same |
| `Syncs.PodSyncConsistent` | pkg/policy/policy.go:2182-2271 | a pod synchronisation resyncs what its changes touch, and then every tracked set is right |
| `Syncs.NamespaceSyncConsistent` | pkg/policy/policy.go:2276-2337 | so does a namespace synchronisation |
| `Syncs.IncrementalRefinesFull` | pkg/policy/policy.go:2038-2177 | when every tracked set is right a full synchronisation changes nothing, and from emptied sets it ends in the same ones |
| `RuleSync.RuleSyncConsistent` | pkg/policy/policy.go:443-488 | making rules and filling all sets leaves every tracked set right and every active set in existence |
| `RuleSync.CollectionExact` | pkg/policy/policy.go:2717-2780 | collection destroys exactly the inactive generated sets, and of the others those whose names begin with ENN and that no rule refers to; every generated set a rule refers to is active |
| `Cluster.PodEventInv` | pkg/policy/policy.go:268-294 | a pod event keeps the invariant of runs |
| `Cluster.PodSyncInv` | pkg/policy/policy.go:489-501 | a pod synchronisation keeps it, in whatever order |
| `Cluster.NamespaceSyncInv` | pkg/policy/policy.go:502-512 | a namespace synchronisation keeps it |
| `Cluster.RulesStep` | pkg/policy/policy.go:814-1036 | making rules establishes what it says about sets and rules |
| `Runs.ExceptsExactly` | pkg/policy/policy.go:1985-2006 | after a walk every except set lists its block's exceptions if and only if blocks that share a set have the same |
| `Runs.DistinctCidrsAgree` | pkg/policy/policy.go:1985-2006 | for names that do not clash that is: one CIDR, one except list, within a policy and direction |
| `Runs.PolicySyncInv` | pkg/policy/policy.go:470-488 | a policy synchronisation establishes the invariant |
| `Runs.AllSyncInv` | pkg/policy/policy.go:443-469 | so does a full one, with the configured sets filled and garbage collected |
| `Runs.FirstFlushInv` | pkg/policy/policy.go:424-439 | the first synchronisation, which throws pending label items away, establishes the join all the same |
| `Runs.RunSound` | pkg/policy/policy.go:373-515 | in every state of every run of events and synchronisations, the whole invariant holds |
| `Runs.RunRefinesFull` | pkg/policy/policy.go:2038-2337 | at every moment of a run a full synchronisation would change no set, and would fill emptied sets to what they hold |
| `Runs.RunJoined` | pkg/policy/util/namespaceinfo.go:83-285 | at every moment the namespace-label index is the join of the other two maps |
| `Runs.RunGrows` | pkg/policy/util/podinfo.go:223-390 | over a run no index loses a key |
| `EndToEnd.SelectorMeaning` | pkg/policy/policy.go:2131-2146 | a selector's set holds exactly the pods that carry all its pairs if and only if every pair has been seen, or no pod carries those that have |
| `EndToEnd.RangeDecides` | pkg/policy/policy.go:1083-1135 | at every moment of a run flannel addresses and, unless the range is 0.0.0.0/0, addresses outside it are accepted, and everything else is left to the policies |
| `EndToEnd.RunRangeSet` | pkg/policy/policy.go:753-790 | the kernel set of the range holds the range once synchronised, and never 0.0.0.0/0 |
| `EndToEnd.KernelFollowsPolicies` | pkg/policy/policy.go:373-515 | at every moment of a run the chain of a governed namespace accepts exactly what flannel, the ip range, connection tracking or the flushed policies let through, judged on pods and namespaces |
| `EndToEnd.QuietKernelFollowsCluster` | pkg/policy/policy.go:373-515 | when nothing is pending, the same on the cluster's present objects |
| `EndToEnd.RunRestores` | pkg/policy/policy.go:996-1033 | every restore script of a run is accepted and leaves the next state's table |
| `EndToEnd.RunCollects` | pkg/policy/policy.go:2717-2780 | after every full synchronisation of a run exactly the active and the foreign sets remain, all referenced ones among them, and only active ones are tracked |
| `EndToEnd.RunNeverStuck` | pkg/policy/policy.go:1039-2034 | at no moment of a run does a packet get stuck in a generated chain |
| `Rounds.RunForgets` | pkg/policy/policy.go:2462-2714 | in a run, a pod synchronisation forgets exactly the visited tags whose sets are no longer active, and leaves sets that are not active as they are |
| `Rounds.RunDrops` | pkg/policy/policy.go:2701-2714 | in a run, the set of a namespace whose deletion is learnt of is forgotten, and destroyed if and only if no rule refers to it |
| `Reports.RunHoldsLivePods` | pkg/policy/util/podinfo.go:140-152 | in every state of a run an address in a tracked pod set is that of a flushed pod that has it for itself: not on the host network and not ended |
| `Reports.RunNamespaceSet` | pkg/policy/util/podinfo.go:315-390 | the set of a tracked namespace holds exactly the addresses of such pods of it |
| `Reports.AdmitsReports` | pkg/policy/util/policyinfo.go:138-281 | built policies admit exactly the packets that reported rules admit, read off ports, peers, pods and namespaces |
| `Reports.KernelFollowsReports` | pkg/policy/policy.go:373-515 | at every moment of a run the kernel accepts exactly the packets of flannel addresses, of addresses outside the configured range, of established connections, and those a reported rule admits |
| `Forwarding.ForwardDecides` | pkg/policy/policy.go:1057-1081 | at every moment of a run a packet passes FORWARD undecided exactly when no governed namespace's set shows it, and else the chain of one that does decides |
| `Forwarding.TrackedExactly` | pkg/policy/policy.go:2701-2714 | a governed namespace is tracked if and only if its deletion has not been learnt of since rules were last made |
| `Forwarding.ForwardPasses` | pkg/policy/policy.go:1057-1081 | while none is forgotten, exactly the packets of no governed pod pass undecided |
| `Forwarding.ForwardFollowsPolicies` | pkg/policy/policy.go:1057-1135 | then a packet is accepted when it may pass for every governed pod it concerns, rejected when for none |
| `Forwarding.ExceptedRejected` | pkg/policy/policy.go:1964-2034 | a packet that blocks alone admit, each with an exception for it, is rejected |
| `Counterexamples.ForgottenNamespacePasses` | pkg/policy/policy.go:2701-2714 | a run in which FORWARD lets a packet to a governed pod through undecided |
| `Counterexamples.UnknownPairWidens` | pkg/policy/policy.go:2131-2146 | a run in which the kernel accepts a packet to a pod the policy does not select |
| `Counterexamples.WalkOrderDecides` | pkg/policy/policy.go:863-968 | two runs with the same reports, differing in the order of one walk: one kernel rejects a packet the other accepts |
| `Kernels.Kernel.CreateIPSet` | pkg/util/ipset/ipset.go:67-88 | an existing set is kept with its members |
| `Kernels.Kernel.DestroyIPSet` | pkg/util/ipset/ipset.go:67-88 | refused while a rule refers to the set |
| `Kernels.Kernel.RestoreAll` | pkg/policy/policy.go:1024-1033 | all of a script or nothing |
| `SetSync.SyncMembers` | pkg/policy/policy.go:2339-2393 | the kernel set ends equal to the wanted one, stays between old*wanted and old+wanted, and the number of operations is that of the symmetric difference |
| `SetSync.SyncIPSetEntry` | pkg/policy/policy.go:2339-2393 | that, for the addresses of a pod map |
| `SetSync.SyncIPSetEntryForNet` | pkg/policy/policy.go:2395-2456 | that, for a list of nets |
| `Emitting.EmitIs` | pkg/policy/policy.go:814-1036 | emitting item by item gives the script and the sets of the walk |
| `EnnPolicies.EnnPolicy.DispatchOnlyPorts` | pkg/policy/policy.go:1344-1445 | writes one item: its chain, its jump, one rule per port |
| `EnnPolicies.EnnPolicy.DispatchPodSelector` | pkg/policy/policy.go:1450-1625 | one item per pair of the selector, each with its set, chain and rules |
| `EnnPolicies.EnnPolicy.DispatchNamespaceSelector` | pkg/policy/policy.go:1631-1804 | the same for a namespace selector |
| `EnnPolicies.EnnPolicy.DispatchIPBlock` | pkg/policy/policy.go:1809-1962 | the two chains and rules of a block |
| `EnnPolicies.EnnPolicy.HandleIPBlockChain` | pkg/policy/policy.go:1964-2034 | the except set is filled exactly; its addresses are rejected, others accepted |
| `EnnPolicies.EnnPolicy.SyncIngressRule` | pkg/policy/policy.go:1039-1189 | the items of the ingress section: entry, ip range, one per clause; a rule without peers and ports gives none |
| `EnnPolicies.EnnPolicy.SyncEgressRule` | pkg/policy/policy.go:1191-1340 | the same for egress |
| `EnnPolicies.EnnPolicy.CreatePolicySets` | pkg/policy/policy.go:865-953 | the sets of the namespace, of each pair and of the whole selector are created, noted and activated |
| `EnnPolicies.EnnPolicy.SyncPolicy` | pkg/policy/policy.go:861-968 | everything the walk does for one policy |
| `EnnPolicies.EnnPolicy.WriteFrames` | pkg/policy/policy.go:970-994 | every policy chain gets its first and its last rule |
| `EnnPolicies.EnnPolicy.WriteStale` | pkg/policy/policy.go:996-1013 | exactly the dynamic chains no longer active are flushed and deleted |
| `EnnPolicies.EnnPolicy.SyncPolicyRules` | pkg/policy/policy.go:814-1036 | the whole loop: the restore succeeds, the table is the compiled one, the sets and tracking maps are those of the walk |
| `EnnPolicies.EnnPolicy.IntersectPods` | pkg/policy/policy.go:2107-2172 | the copy-and-delete loop computes the intersection over indexed pairs, without changing the index |
| `EnnPolicies.EnnPolicy.SyncAllPodSets` | pkg/policy/policy.go:2038-2177 | every tracked set is synchronised in full |
| `EnnPolicies.EnnPolicy.SyncPodSets` | pkg/policy/policy.go:2182-2271 | exactly what the pod changes call for is visited |
| `EnnPolicies.EnnPolicy.SyncNamespaceSets` | pkg/policy/policy.go:2276-2337 | exactly what the namespace changes call for is visited |
| `EnnPolicies.EnnPolicy.TrySyncPodXLabelSet` | pkg/policy/policy.go:2462-2558 | the selector sets that involve a label are visited; inactive ones are forgotten |
| `EnnPolicies.EnnPolicy.TrySyncPodLabelSet` | pkg/policy/policy.go:2565-2602 | a label's set, when tracked and active, gets the index entry |
| `EnnPolicies.EnnPolicy.TrySyncNamespacePodLabelSet` | pkg/policy/policy.go:2608-2647 | the same for a namespace label |
| `EnnPolicies.EnnPolicy.TrySyncNamespacePodSet` | pkg/policy/policy.go:2673-2699 | the same for a namespace |
| `EnnPolicies.EnnPolicy.TryDeleteNamespacePodSet` | pkg/policy/policy.go:2701-2714 | the set is destroyed unless a rule refers to it, and forgotten in any case |
| `EnnPolicies.EnnPolicy.CheckUnusedIPSets` | pkg/policy/policy.go:2717-2780 | inactive generated sets that no rule refers to go, and inactive tracking entries |
| `EnnPolicies.EnnPolicy.EnsureIPRangeSetMember` | pkg/policy/policy.go:753-790 | the configured range becomes the only member; 0.0.0.0/0 is never added |
| `EnnPolicies.EnnPolicy.EnsureFlannelNetSetMember` | pkg/policy/policy.go:593-728 | the enumerated addresses become the members, when flannel is accepted and the network can be read |
| `EnnPolicies.EnnPolicy.EnsureConfigSets` | pkg/policy/policy.go:398-411 | the controller's two own sets exist at the beginning of every synchronisation |
| `EnnPolicies.EnnPolicy.SyncByPods` | pkg/policy/policy.go:489-501 | SYNCPOD is the pod step of a run |
| `EnnPolicies.EnnPolicy.SyncByNamespaces` | pkg/policy/policy.go:502-512 | SYNCNAMESPACE is the namespace step |
| `EnnPolicies.EnnPolicy.SyncByPolicies` | pkg/policy/policy.go:470-488 | SYNCNETWORKPOLICY is the policy step |
| `EnnPolicies.EnnPolicy.EnsureAll` | pkg/policy/policy.go:443-469 | SYNCALL: configured sets, rules, all sets, garbage |
| `EnnPolicies.EnnPolicy.FlushAll` | pkg/policy/policy.go:424-439 | the first synchronisation takes over everything pending |
| `EnnPolicies.EnnPolicy.SyncEnnPolicy` | pkg/policy/policy.go:373-515 | nothing before all sources have been received; then the first call does everything, a later one what it is asked for; each is a step of a run. A pod, namespace or policy synchronisation leaves nothing of its kind pending and everything of it applied; one of everything leaves no inactive generated set |
| `EnnPolicies.HandledFlushes` | pkg/policy/policy.go:230-332 | once everything has been received, nothing of a handler's kind is pending at its end |
| `EnnPolicies.EnnPolicy.OnPod` | pkg/policy/policy.go:268-294 | a pod handler is the event, and a synchronisation exactly when all is received and a pod change is pending; then the three maps of pending pods are empty |
| `EnnPolicies.EnnPolicy.OnNamespace` | pkg/policy/policy.go:306-332 | the same for namespaces |
| `EnnPolicies.EnnPolicy.OnNetworkPolicy` | pkg/policy/policy.go:230-256 | the same for policies as reported |
| `EnnPolicies.EnnPolicy.OnPodSynced` | pkg/policy/policy.go:296-304 | the callback sets its own flag and no other, and tries a synchronisation, which leaves nothing of its kind pending once everything has been received |
| `EnnPolicies.EnnPolicy.OnNamespaceSynced` | pkg/policy/policy.go:334-342 | the same for namespaces |
| `EnnPolicies.EnnPolicy.OnNetworkPolicySynced` | pkg/policy/policy.go:258-266 | the same for policies |
| `EnnPolicies.EnnPolicy.SyncPeriodically` | pkg/policy/policy.go:363-366 | the ticker's synchronisation of everything, which leaves no inactive generated set |
| `EnnPolicies.Launch` | pkg/policy/policy.go:114-201 | a new controller on a kernel that holds nothing of its own is ready, at the start of a run |
| `EnnPolicies.ReachesRun` | pkg/policy/policy.go:230-366 | whatever handlers do from the start on is a run, so the theorems about runs hold of it |
| `Wakeup.StepSound` | pkg/policy/policy.go:230-439 | every step of every thread keeps the invariant |
| `Wakeup.NoLostWakeup` | pkg/policy/policy.go:230-439 | once all sources have been received, for every pending kind some thread is still obliged to flush it |
| `Wakeup.QuiescenceIsClean` | pkg/policy/policy.go:230-439 | when all threads are done nothing is pending |
| `Wakeup.NoDeadlock` | pkg/policy/policy.go:373-515 | a thread that is not done, or the holder of the mutex, can go on |
| `Wakeup.EndsInTime` | pkg/policy/policy.go:373-515 | without arrivals, threads end after boundedly many steps |
| `Wakeup.StuckIsClean` | pkg/policy/policy.go:230-439 | so any way of going on reaches a state with nothing pending |
| `Cleanup.SweptClean` | pkg/policy/policy.go:2793-2841 | deleting by number sweeps out every mentioning rule if and only if there is at most one |
| `Cleanup.SweepHitsAnother` | pkg/policy/policy.go:2793-2841 | with two mentions in a row, the rule after them is deleted instead |
| `Cleanup.HeldBySecond` | pkg/policy/policy.go:2843-2872 | a generated chain is still jumped to if and only if some built-in chain mentioned the controller twice |
| `Cleanup.CleanupLeftovers` | pkg/policy/policy.go:2782-2872 | sweeping, flushing and deleting chains, destroying sets: the exact chains and sets left |
| `Cleanup.CleanupComplete` | pkg/policy/policy.go:2782-3001 | with at most one mention each, every chain named ENN-… and every set named ENN… goes and no other; with a second, no chain goes and every set their rules use stays |
| `Cleanup.BuiltInNames` | pkg/policy/policy.go:2793-2841 | the chains swept are those printed INPUT, OUTPUT and FORWARD |
| `Cleanup.BuiltInsKeepTheirRules` | pkg/policy/policy.go:2793-2841 | with at most one, the built-in chains lose that rule and nothing else |

## Left out

- Commands: exec, iptables, ipset, lock files, D-Bus and firewalld are the class `Kernel`; the text of commands and of
  rule comments is not modelled, and every call but a destroy or a restore is taken to succeed.
- Error paths of syncEnnPolicy and syncPolicyRules that only log and go on or return, and the throttle: with calls that
  succeed they are never taken.
- A listing of a built-in chain begins with a line for its policy; here a listing is its rules, so the line numbers of
  the code are rule numbers counted from one.
- Informers, configuration handlers, node lookup, flags, logging and the ticker itself.
- ensureEnnEntry: the jumps from the built-in chains to the entry chains are not in the table of a run; `Cleanup`
  treats them as rules of the built-in chains.
- sha256 and base32: the hash is an arbitrary function. That names in use do not clash, that each stands for one
  meaning, and that no address belongs to two pods across one flush are hypotheses of the run theorems.
- The four tracking maps are one map with four kinds of keys; nested Go maps are values inside one field, so aliasing
  between an index and the maps merged into it is not modelled.
- MatchLabels that are nil or empty are one selector here; reflect.DeepEqual tells them apart, which can leave a policy
  pending that is built the same.
- EnnPolicies.EnnPolicy.SyncEnnPolicy: sequential. What interleaves is in `Wakeup`, on pending kinds rather than on
  maps; there a flush of one kind is one step, as the code holds that kind's lock, and the mutex covers a whole
  synchronisation.
- EnnPolicies.EnnPolicy.OnPod: one method for add, update and delete, which pass a missing pod on one side; likewise
  for namespaces and policies.
- Forwarding.ForwardFollowsPolicies: packets for which two governed namespaces disagree are left to
  `Forwarding.ForwardDecides`, which gives the candidates; the walk order picks one.
- SaveRestore.GetChainLines: an index out of range on a chain line without a space is a `None`, not a crash.
- An ipset of kind hash:net cannot hold 0.0.0.0/0; that range is never added, and a stored one is kept, as in the code.
- pkg/util/version/version.go, EntryToString and StringToEntry, the parsing in GetIPSet and ListEntry, the fake ipset,
  the pressure programs and manifests: not part of this model.
