# accelrd, modelled in Dafny

accelrd watches the accelerators of a Kubernetes cluster. A daemon on every node discovers the
topology (xGMI fabric domains, the rack as LLDP shows it), runs preflight checks and publishes both as
labels and annotations of the Node object. A prober, one for the cluster, repeatedly picks two nodes
per rack, measures the fabric between them with a pair of pods and writes its verdict on both nodes.
An admin reader decodes what the two have written.

This project models that system between its edges and proves what it relies on. Where the program
updates things in place there are classes, arrays and loops proved against specification functions;
protocols are step relations over every interleaving; API answers, clock readings, process outcomes
and sysfs readings are arbitrary inputs. Check it with `dafny verify dfyconfig.toml`.

## How the modules fit

| modules | subject |
|---|---|
| `Text`, `Sorting`, `Counts` | strings as Rust compares and prints them, sorting, count maps |
| `Calendar`, `Schedule` | civil dates and RFC 3339 printing; the prober's schedule in real time |
| `Pairing`, `Coverage`, `Rotation`, `PairCoverage` | which nodes a pass probes, and what that means over many passes |
| `ReconcilePass`, `Probe`, `Polling`, `ClientRetry` | one pass as a protocol, one probe as a sequence of effects, its waits, the client's retries |
| `MergePatch`, `NodeObject`, `Annotations`, `Labeler`, `NodeWriters` | RFC 7396, the Node object and its concurrent writers |
| `Sensors`, `Lldp`, `Slug`, `Fabric`, `Discover`, `Labels`, `PublishedLabels`, `Preflight` | from sysfs and wire bytes to the published label set, and what each label says |
| `Admin`, `EndToEnd` | what the readers see while all writers are at work |

The results compose. `Calendar` shows that comparing printed instants is comparing time, and
`Schedule` lifts the runs of `Coverage` to real time with it. `Discover` and `Labels.Build` yield
labels that `Preflight.RunCycle` extends to a set of managed keys only, which is what `NodeWriters`
asks of the daemon. `EndToEnd` then concludes, for every interleaving, that a node shows the last
cycle's labels once its reconcile is confirmed, that the admin decodes them to the exact counts
(`EndToEnd.AdminReadsCounts`) and reports the prober's own latest verdict, that the prober's next pass
sees the rack the daemon published and the stamp its own latest report left, and that a pass whose two
patches land changes the prober's view of a rack by exactly the step `Coverage` iterates
(`EndToEnd.PassIsStep`).

## Where the code and its documentation disagree

The model follows the code.

- src/prober/pair.rs:12-14 promises that every pair of a rack is eventually probed. Least recently
  used with ties broken by name does not give that. What holds is that every *node* is probed
  (`Coverage.EveryNodeProbed`, `Coverage.OverdueNodeIsReached`). Pair coverage is decided for every
  history of stamps by `PairCoverage.PairCoverageExactly`: a rack of two, and a rack of three whose
  least name stands last in the queue, reach every pair within three picks; in any other rack some pair is
  probed in no run, however long. In racks of even size that is because one fixed pairing repeats
  for ever (`PairCoverage.PairingFreezes`), in larger racks of odd size because the largest name
  meets at most one of the second and the third (`Rotation.FirstAndThirdNeverMeet`).
- src/topology/mod.rs:31 says two domains share an id if and only if they have the same members. The
  id is 32 bits of a hash: the same members give the same id (`Discover.DomainIdIgnoresOrder`), but
  ids agree exactly when the truncated hashes do (`Discover.SameIdIffSameShortHash`), and for every
  hasher there are different cards that share one (`Discover.DifferentMembersSameId`).
- The comment at src/topology/discover.rs:96-98 expects groups of at least two cards. A card that
  lists its own address as its only peer forms a group of one (`Fabric.SelfListingCard`). All groups
  have two members or more exactly when no card is linked to itself and to no other
  (`Fabric.GroupsOfTwoByCards`, `Fabric.OnlySelfLinkedByAddress`).
- The labeler's comments promise that stale managed keys disappear with the next reconcile
  (src/k8s/labeler.rs:153-158). A PATCH it gave up on may still land between the GET and the PATCH of
  a later reconcile and leave a key behind (`NodeWriters.LateLandingLeavesKey`).
  `NodeWriters.ConfirmedPatchConverges` gives the exact condition, and the reconcile after that
  recovers (`NodeWriters.NextReconcileRecovers`).
- An `ok` report does not remove figures of an earlier report that its own record lacks. The stale
  figures stay exactly when the record is missing them (`Annotations.StaleFigures`,
  `Annotations.StaleFigureShows`); records made by the probe itself miss none
  (`Annotations.OkShowsExactlyTheLatestRecord`).
- String order stops being time order at the year 10000 and not before
  (`Calendar.OrderHoldsUntilYearTenThousand`).
- With `max_concurrent_pairs` 0 a pass that has anything to do never ends
  (`ReconcilePass.PassCanEnd`).

## Model

| member | source | states |
|---|---|---|
| `Calendar.CivilRoundTrip` | src/time.rs:35-47 | for every day number the computed date is valid, leap rules included, and counting its days gives the number back |
| `Calendar.DayRoundTrip` | src/time.rs:35-47 | the other way round: every valid date is computed from its own day count |
| `Calendar.RangesHold` | src/time.rs:35-47 | day of era, year of era, day of year and month index stay in their ranges, so no unsigned step underflows |
| `Calendar.FollowsTheCalendar` | src/time.rs:35-47 | consecutive day numbers give consecutive calendar dates |
| `Calendar.EpochIsDayZero` | src/time.rs:35-47 | day 0 is 1970-01-01 |
| `Calendar.DayNumberMonotone` | src/time.rs:35-47 | the day count orders valid dates as the calendar does, without ties |
| `Calendar.Rfc3339ReadsBack` | src/time.rs:17-23 | every instant's text reads back: `-`, `-`, `T`, `:`, `:` and `Z` in their places, between them a year and two-digit fields that name a valid date and time of day and count up to the very second; 20 characters in the years 0000 to 9999 |
| `Calendar.PrintedOrderIsTimeOrder` | src/time.rs:17-23 | in the years 0000 to 9999 printed instants compare as strings exactly as the instants in time; what is printed is `Calendar.Rfc3339ReadsBack` |
| `Calendar.YearTenThousandSortsFirst` | src/time.rs:17-23 | the first second of year 10000 prints a smaller string than the second before |
| `Calendar.OrderHoldsUntilYearTenThousand` | src/time.rs:17-23 | the order holds up to a limit if and only if the limit lies before year 10000 |
| `Pairing.EligibleNodes` | src/prober/pair.rs:42-48 | a view is listed exactly when some node takes part under it: named, `Ready` is `True`, a rack label, `rdma` is `present`, and the two stamps as annotated; unique nodes give unique views |
| `Pairing.TakesPartMeaning` | src/prober/pair.rs:106-142 | the readiness test and the reading of a node are together exactly that condition |
| `Pairing.GroupByRack` | src/prober/pair.rs:50-59 | the map filled and sorted in place is the grouping function |
| `Pairing.GroupsPartition` | src/prober/pair.rs:50-59 | every view is in its own rack's group and no other; groups are non-empty and their names ascend |
| `Pairing.PickPairMeaning` | src/prober/pair.rs:81-104 | nothing is picked if and only if there are fewer than two members or all are within cadence; otherwise the two least of the missing-first, stamp, name order |
| `Pairing.QueueIsStrict` | src/prober/pair.rs:81-104 | with unique names the queue is a permutation of the members in strict order, without ties |
| `Pairing.PickIgnoresOrder` | src/prober/pair.rs:81-104 | the pick depends on who is in the rack, not on the order listed |
| `Pairing.PickIsExclusive` | src/prober/pair.rs:61-76 | a rack never gets both a pair and a loopback probe |
| `Pairing.PickLoopbackMeaning` | src/prober/pair.rs:65-76 | a node is picked for a loopback if and only if it is alone in its rack and its own loopback stamp is missing or before the cutoff |
| `Pairing.PairIsDue` | src/prober/pair.rs:81-104 | a pair is picked if and only if the rack has two members and one of them has no stamp or one before the cutoff; it is led by a least recently probed member, unique names or not |
| `Coverage.CoverageInvariant` | src/prober/pair.rs:81-104 | over any run, nodes already picked sort after all others, and each pick adds two new nodes until none is left |
| `Coverage.EveryNodeProbed` | src/prober/pair.rs:81-104 | fairness: half as many picks as nodes, rounded up, touch every node, from any stamps and cutoffs |
| `Coverage.OverdueNodeIsReached` | src/prober/pair.rs:81-104 | liveness: a node that is overdue at every cutoff is picked within half as many passes as the rack has nodes, rounded up |
| `PairCoverage.PickRotatesQueue` | src/prober/pair.rs:81-104 | a pick moves the front pair to the back of the queue, ordered by name |
| `PairCoverage.PairingFreezes` | src/prober/pair.rs:81-104 | in racks of even size the picks cycle for ever through the same half as many pairs, from any stamps |
| `PairCoverage.TopTwoNeverMeet` | src/prober/pair.rs:81-104 | in every rack of three or more, from any stamps, the two largest names are never picked together unless they are neighbours in the starting queue taken in twos |
| `PairCoverage.PicksAreTurns` | src/prober/pair.rs:81-104 | the starting queue settles every pick: pick k is the same pair in every run |
| `Rotation.TopTwoMeetEarly` | src/prober/pair.rs:81-104 | in racks of odd size the two largest names meet in the first round of the queue or never |
| `Rotation.FirstAndThirdNeverMeet` | src/prober/pair.rs:81-104 | in racks of odd size from five on, if the two largest names meet, the largest and the third never do |
| `PairCoverage.PairCoverageExactly` | src/prober/pair.rs:12-14 | for each stamp history: every pair is reached (in any run of three picks) if and only if the rack has two nodes, or three with the least name last in the queue; otherwise some pair is in no run |
| `PairCoverage.PairCoverageExactlyForTwo` | src/prober/pair.rs:12-14 | over all stamp histories, pair coverage holds exactly for racks of two; a rack of three or more has a history that misses a pair |
| `Schedule.Rfc3339KeepsOrder` | src/time.rs:17-23 | the RFC 3339 printer is an order-keeping clock |
| `Schedule.DueMeansOverdue` | src/prober/pair.rs:86-102 | comparing strings, a pass probes a rack exactly when some node was last stamped before the cutoff or never |
| `Schedule.LoopbackDueMeansOverdue` | src/prober/pair.rs:65-76 | by the clock: a lone node is probed exactly when it has no loopback stamp or was stamped before the cutoff |
| `Schedule.PairNotProbedWithinCadence` | src/prober/reconcile.rs:38-46 | over any run with a forward clock, a pair probed at t is not probed by a pass whose cutoff is at or before t |
| `Schedule.EveryNodeProbedInTime` | src/prober/pair.rs:81-104 | fairness by the clock, for stamps in distinct seconds: as many picks as that touch every node |
| `Schedule.OverdueNodeProbedInTime` | src/prober/pair.rs:81-104 | liveness by the clock: a node last stamped before the first cutoff, or never, is probed by one of the first half as many passes as nodes, rounded up |
| `ReconcilePass.PassIsSafe` | src/prober/reconcile.rs:41-78 | in every state of every interleaving permits are conserved, live probes never exceed them, and no node is in two probes |
| `ReconcilePass.EndedPassIsComplete` | src/prober/reconcile.rs:38-78 | an ended pass started exactly one task for each rack with two or more members one of whom was overdue, and for each lone node overdue by its loopback stamp, and none for any other rack; the task is that pair or that node; no task is live and all permits are back |
| `ReconcilePass.TargetMeaning` | src/prober/reconcile.rs:47-74 | a rack has a target exactly when it is due in that sense, and the target fits the rack |
| `ReconcilePass.TasksShareNoNode` | src/prober/reconcile.rs:41-75 | different tasks of a pass involve different nodes |
| `ReconcilePass.RunsAreBounded` | src/prober/reconcile.rs:41-78 | a pass takes at most six steps per rack and two more |
| `ReconcilePass.NeverStuck` | src/prober/reconcile.rs:41-78 | with a permit every state short of the end has a next step |
| `ReconcilePass.RunOn` | src/prober/reconcile.rs:41-78 | every partial run can be continued to the end of the pass |
| `ReconcilePass.PassCanEnd` | src/prober/reconcile.rs:42-43 | a pass can end if and only if it has a permit or nothing to do |
| `Probe.Cluster.ProbePair` | src/prober/reconcile.rs:87-239 | for all answers: the pods asked for (`Probe.ProbeAlone` says on which nodes and with which address), one attempt metric equal to the verdict, one patch per node, deletion requested for every reported pod |
| `Probe.Cluster.ProbeLoopback` | src/prober/reconcile.rs:253-378 | the same on a single node |
| `Probe.Cluster.PatchPair` | src/prober/annotations.rs:63-69 | both nodes get the verdict under one stamp, each naming the other |
| `Probe.Cluster.PatchLoopback` | src/prober/annotations.rs:71-75 | the node gets the loopback verdict |
| `Probe.Cluster.Cleanup` | src/prober/reconcile.rs:241-244 | both deletions are requested |
| `Probe.VerdictMeaning` | src/prober/reconcile.rs:87-239 | `ok` if and only if both pods came up, the client succeeded and its record says ok; `timeout` if and only if the client outlived its deadline; otherwise `fail`, with the text of the first step that did not succeed |
| `Probe.RecordDecides` | src/probe/mod.rs:289-319 | what the client measured reaches the verdict: average, peak and rate unchanged and in their places, an error's text as the reason |
| `Probe.ConcurrentProbesCleanUp` | src/prober/reconcile.rs:41-78 | in every interleaving of any number of probes each reported pod's deletion is requested later, and no effect is lost or repeated |
| `Probe.ProbeAlone` | src/prober/reconcile.rs:87-378 | a probe makes at most two pods: a server pod on the first node, then a client pod on the other node (a loopback: the same one) given exactly the address answered for the server; an `ok` verdict means both were made; it leaves no reported pod undeleted, books one attempt and the patches, and leaves behind exactly the pods whose creation reported an error |
| `Polling.AwaitPodIp` | src/prober/pods.rs:187-217 | the result is decided by the first reply that settles it, each question asked before the deadline, or is the timeout error |
| `Polling.AwaitTerminal` | src/prober/pods.rs:219-245 | likewise for the pod's final phase |
| `Polling.IpWaitMeaning` | src/prober/pods.rs:187-217 | in terms of the replies: an address if and only if the last pod seen has a non-empty one, after replies without one only; otherwise the error of a pod gone, of one that ended, or of the deadline |
| `Polling.PhaseWaitMeaning` | src/prober/pods.rs:219-245 | `Succeeded` and `Failed` if and only if that is the last phase seen, an error if and only if the pod is gone, a timeout only at the deadline and after nothing settled it |
| `Polling.IpAnswerMeaning` | src/prober/pods.rs:195-215 | which replies settle the first wait and how, case by case |
| `Polling.PhaseAnswerMeaning` | src/prober/pods.rs:227-243 | which replies settle the second wait and how, case by case |
| `Polling.WaitIsBounded` | src/prober/pods.rs:187-245 | at most one question per period of the timeout, rounded up: half a second for the address, two seconds for the phase |
| `Polling.WaitIsDetermined` | src/prober/pods.rs:187-245 | replies and clock determine result and number of questions |
| `Polling.LongerWaitSameAnswer` | src/prober/pods.rs:187-245 | a longer timeout never changes an answer that came in time |
| `Polling.CleanupOrphans` | src/prober/pods.rs:271-305 | the deletions requested are those of the stale named pods, in order; a failed list deletes nothing |
| `Polling.StaleInOrder` | src/prober/pods.rs:287-304 | pods are deleted in the order of the list, each by its own age alone |
| `Polling.OrphansAreTheOld` | src/prober/pods.rs:287-299 | judged by strings, exactly the named pods older than the limit |
| `ClientRetry.RunClient` | src/probe/mod.rs:249-287 | only a refused connection is retried; attempts are bounded by how many pauses fit the timeout, plus one, and that many occur in the worst case; with exact sleeps the call outlives the timeout by at most its last attempt |
| `ClientRetry.NotListeningMeaning` | src/probe/mod.rs:273-278 | another try is made exactly where the benchmark ran, failed, and its output or error text contains one of three messages |
| `ClientRetry.SleptMeaning` | src/probe/mod.rs:257-286 | the pauses add up to 500, 1500, 3500 ms and then 3000 ms more each |
| `ClientRetry.RunClientByDefault` | src/probe/mod.rs:134-137 | with the default minute at most 23 attempts, and 23 in the worst case |
| `MergePatch.MergeIdempotent` | src/k8s/labeler.rs:119-151 | a merge patch (RFC 7396, section 2) applied twice is applied once, on all JSON: retries are harmless |
| `MergePatch.MergeMember` | src/k8s/labeler.rs:119-151 | member by member what a merge patch does (RFC 7396, section 2): removed, patched recursively, or kept |
| `MergePatch.IndependentCommute` | src/k8s/labeler.rs:159-170 | patches that set no place in common commute on every target |
| `NodeObject.PatchSection` | src/k8s/labeler.rs:159-170 | a metadata patch overlays the sections it names and leaves the others |
| `NodeObject.MetadataShape` | src/k8s/labeler.rs:159-170 | the sections are the objects `labels` and `annotations` under `metadata`, in a Node and in a patch body |
| `Annotations.FamiliesAreApart` | src/prober/annotations.rs:35-55 | the pair and loopback keys are distinct, disjoint and all under the prober's prefix |
| `Annotations.FamilyKeyNames` | src/prober/annotations.rs:35-55 | all keys of the two families, spelled out |
| `Annotations.BuildBody` | src/prober/annotations.rs:77-117 | the map filled step by step is the body of the report's entries |
| `Annotations.EntriesMeaning` | src/prober/annotations.rs:77-117 | key by key: an ok report sets the figures it has and removes the reason, any other sets a reason and removes all figures |
| `Annotations.HistoryIsCoherent` | src/prober/annotations.rs:77-117 | after any history of reports `ok` comes with no reason, `fail` and `timeout` with a reason and without figures |
| `Annotations.HistoryShowsLatest` | src/prober/annotations.rs:77-117 | each family shows what its own latest report wrote |
| `Annotations.StaleFigures` | src/prober/annotations.rs:84-103 | after an ok report a node shows its figures exactly if each one missing from the record was missing before |
| `Annotations.StaleFigureShows` | src/prober/annotations.rs:84-103 | two ok reports, the second without a figure the first had: the first figure stays beside the second verdict |
| `Annotations.OkShowsExactlyTheLatestRecord` | src/probe/mod.rs:289-319 | with records the probe makes, a node at `ok` shows exactly the latest measurement: average, peak and rate each under its own key |
| `Labeler.TestKeysAreUnmanaged` | src/k8s/labeler.rs:25-30 | no key of the prober has a managed prefix |
| `Labeler.ManagedAreOurs` | src/k8s/labeler.rs:25-30 | a key is managed exactly when it starts with one of the four prefixes, spelled out |
| `Labeler.MergedSection` | src/k8s/labeler.rs:172-188 | desired keys set; every other key mentioned is removed, was there before and starts with one of the four prefixes; and all such keys are mentioned |
| `Labeler.MergedConverges` | src/k8s/labeler.rs:172-188 | a patch from an earlier snapshot still makes the managed part the desired map and leaves the rest |
| `Labeler.SecondReconcileIsIdle` | src/k8s/labeler.rs:159-188 | a second reconcile changes nothing |
| `Labeler.PatchLeavesForeign` | src/k8s/labeler.rs:159-192 | the patch changes nothing under any key that has none of the four prefixes and is not desired |
| `Labeler.MadeMeaning` | src/k8s/labeler.rs:119-151 | one to three attempts, each but the last failed, the last one successful unless it is the third; when any of them landed |
| `Labeler.NodeLabeler.Reconcile` | src/k8s/labeler.rs:73-116 | a failed GET changes nothing; otherwise the node takes the patch once if any attempt landed, confirmed or not; foreign keys stay as they are |
| `Labeler.NodeLabeler.Apply` | src/k8s/labeler.rs:119-151 | up to three attempts, stopping at the first success; landing more than once is landing once |
| `NodeWriters.WriteKeepsManaged` | src/k8s/labeler.rs:25-30 | the other writers never touch a managed key |
| `NodeWriters.ConfirmedPatchConverges` | src/k8s/labeler.rs:99-151 | in every interleaving, patches landing late included: after a confirmed patch the managed keys are the desired ones if and only if each one present had been seen by the GET or is wanted, which holds unless a patch given up on landed since; all other keys are as their writers left them |
| `NodeWriters.NextReconcileRecovers` | src/k8s/labeler.rs:99-151 | a reconcile during which nothing lands late reaches the desired state, whatever landed before it |
| `NodeWriters.LateLandingLeavesKey` | src/k8s/labeler.rs:119-151 | the run in which a late landing leaves a key that the confirmed reconcile did not want, for every such key |
| `NodeWriters.ProberKeysUndisturbed` | src/prober/annotations.rs:119-129 | in every interleaving each prober key reads as the prober's own reports left it |
| `NodeWriters.ForeignKeysUndisturbed` | src/k8s/labeler.rs:23-30 | in every interleaving each label and annotation with none of the four prefixes reads as the other writers left it |
| `Lldp.TlvRoundTrip` | src/topology/lldp.rs:267-306 | encoding per clause 8.4 of IEEE 802.1AB-2009 plus End and any trailing bytes decodes to the TLVs before the first End |
| `Lldp.SplitHeaderMeaning` | src/topology/lldp.rs:274-276 | seven bits of type, nine of length, most significant byte first |
| `Lldp.ParseLldpdu` | src/topology/lldp.rs:267-306 | on arbitrary bytes the parser ends, reads inside the buffer and reports the decoded TLVs, the last of each kind, malformed or not |
| `Lldp.FrameGivesNeighbor` | src/topology/lldp.rs:267-306 | an encoded frame gives a neighbour exactly when its last TLVs of types 1 and 2 are there and parse; the name is the last of type 5 |
| `Lldp.LastOfMeaning` | src/topology/lldp.rs:283-296 | the last TLV of a type is the one no other of that type follows |
| `Lldp.ChassisIdMeaning` | src/topology/lldp.rs:308-318 | chassis ids for every subtype and length: MAC, non-empty text, or hexadecimal |
| `Lldp.PortIdMeaning` | src/topology/lldp.rs:320-327 | port ids for every subtype and length: MAC, text, or hexadecimal |
| `Lldp.HexEncode` | src/topology/lldp.rs:336-342 | the appending loop computes the hex text |
| `Lldp.HexInjective` | src/topology/lldp.rs:336-342 | distinct bytes have distinct hex texts |
| `Lldp.HexReadsBack` | src/topology/lldp.rs:336-342 | hex text reads back byte by byte, two lower-case digits each |
| `Lldp.MacReadsBack` | src/topology/lldp.rs:329-334 | a printed MAC is its six bytes in order, two digits each, with colons between |
| `Lldp.MacSlugIsHex` | src/topology/lldp.rs:62-67 | a MAC's slug is the hex text of its bytes, twelve digits |
| `Lldp.MacFrameGivesRack` | src/topology/lldp.rs:267-334 | a frame announcing a MAC chassis gives the rack slug of that MAC |
| `Lldp.FrameGivesRack` | src/topology/lldp.rs:62-67 | the rack of any frame by its last chassis TLV: a name's slug, otherwise exactly its bytes in hexadecimal, since hex text is its own slug |
| `Lldp.MacRacksDiffer` | src/topology/lldp.rs:62-67 | different MACs give different racks |
| `Lldp.InferRack` | src/topology/discover.rs:85-94 | the rack is the slug of a chassis seen most often, by its first neighbour; any winner of a tie is allowed |
| `Slug.Slugify` | src/topology/lldp.rs:344-358 | the flag-driven scan computes: lower-case, split at disallowed characters, join the non-empty pieces with single dashes |
| `Slug.SlugifyLabel` | src/topology/labels.rs:219-238 | the same, or `unknown` where nothing is left |
| `Slug.ScannedIsFramedSlug` | src/topology/lldp.rs:344-358 | the raw scan is the slug, possibly with one dash before and one after it |
| `Slug.SlugIsWellFormed` | src/topology/labels.rs:219-238 | only `a`-`z`, `0`-`9`, `.`, `_` and `-`; no leading, trailing or doubled dash |
| `Slug.SlugKeepsLetters` | src/topology/labels.rs:219-238 | no letter, digit, dot or underscore is lost, added or moved, only lower-cased |
| `Slug.SlugTwice` | src/topology/labels.rs:219-238 | a slug's slug is itself |
| `Slug.UnknownIsASlug` | src/topology/labels.rs:233-237 | `unknown` is its own slug, so slugifying twice is once there too |
| `Fabric.BuildAdjacency` | src/topology/discover.rs:104-116 | the map holds exactly the links of the peer lists, both ways, and every card |
| `Fabric.ListsByAddress` | src/topology/discover.rs:108-113 | with distinct addresses a card lists another exactly when the other's address is in its list |
| `Fabric.Collect` | src/topology/discover.rs:121-131 | the stack search ends, although cards are pushed again, and collects one component |
| `Fabric.Components` | src/topology/discover.rs:117-135 | whatever the key order, the groups are the components with at least one link, each once |
| `Fabric.BuildAmdXgmiGroups` | src/topology/discover.rs:99-136 | the same of the graph of a node's AMD cards |
| `Fabric.GroupsIgnoreKeyOrder` | src/topology/discover.rs:117-135 | any two runs over any key orders find the same groups |
| `Fabric.NodeGroupsIgnoreKeyOrder` | src/topology/discover.rs:99-136 | the same for a node with distinct cards |
| `Fabric.GroupsOfTwoExactly` | src/topology/discover.rs:96-98 | all groups have two members or more if and only if no node of the graph is its own only neighbour |
| `Fabric.GroupsOfTwoByCards` | src/topology/discover.rs:96-98 | the same of the cards: if and only if no AMD card is linked to itself and to no other |
| `Fabric.OnlySelfLinkedByAddress` | src/topology/discover.rs:104-116 | in addresses: such a card lists its own address, no other card of the node, and is listed by none |
| `Fabric.SelfListingCard` | src/topology/discover.rs:99-136 | a single AMD card that lists its own address yields the one group of itself |
| `Fabric.GroupsMeaning` | src/topology/discover.rs:99-136 | two cards share a group if and only if a chain of links joins them and there is a link at all |
| `Fabric.GroupInOrder` | src/topology/discover.rs:132-133 | the members of a group ascend by address, without repetition |
| `Discover.AssignFabric` | src/topology/discover.rs:138-144 | exactly the group's members get the id, in place |
| `Discover.DiscoverDomains` | src/topology/discover.rs:33-61 | one xGMI domain per component, then a PCIe domain for each card left; every accelerator gets its own domain's id |
| `Discover.EachInExactlyOneDomain` | src/topology/discover.rs:33-61 | every accelerator is in exactly one domain and carries its id; no member is lost or repeated |
| `Discover.SharedDomainIffJoined` | src/topology/discover.rs:33-61 | two accelerators end up in one domain if and only if a chain of xGMI links joins them |
| `Discover.KindMeaning` | src/topology/discover.rs:33-61 | a domain is an xGMI domain exactly when its members are linked; any other is a PCIe domain of one card |
| `Discover.DomainIdIgnoresOrder` | src/topology/discover.rs:170-178 | the id does not depend on the order of members |
| `Discover.DomainIdReads` | src/topology/discover.rs:170-178 | the id spells, in lower-case hexadecimal without leading zeros after `fab-`, the low 32 bits of the hash of the sorted addresses |
| `Discover.SameIdIffSameShortHash` | src/topology/discover.rs:170-178 | ids agree exactly when the 32-bit hashes do |
| `Discover.DifferentMembersSameId` | src/topology/mod.rs:29-33 | for every hasher there are lists without a common address that share an id |
| `Counts.TallyConserves` | src/topology/labels.rs:171-177 | a tally gives each key its amount and loses nothing, even when keys coincide |
| `Labels.CountBy` | src/topology/labels.rs:171-177 | the loop counts each accelerator once, under its key |
| `Labels.CountDomains` | src/topology/labels.rs:54-58 | domain sizes added up under their ids |
| `Labels.CountPhysical` | src/topology/labels.rs:77-87 | per vendor the number of distinct parent devices |
| `Labels.EmitCounts` | src/topology/labels.rs:179-183 | one label per count; no other family's labels are touched |
| `Labels.PutSriov` | src/topology/labels.rs:97-118 | the largest capacity and the sum configured, only if some card tells |
| `Labels.PutRdma` | src/topology/labels.rs:136-144 | RDMA presence and the number of devices |
| `Labels.PutLldp` | src/topology/labels.rs:152-162 | one label per chassis, by its first neighbour, and the number of chassis |
| `Labels.Build` | src/topology/labels.rs:43-169 | the label set says exactly the counts per vendor, model, memory kind, physical card and domain and exactly the other labels; all keys are managed and none is a readiness key |
| `Labels.FamiliesApart` | src/topology/labels.rs:59-92 | labels of two counting families never coincide, for every key; physical counts are never read as counts |
| `Labels.SinglesMeaning` | src/topology/labels.rs:43-169 | what the labels say of rack, block, RDMA, totals and chassis |
| `Labels.CountsSumToTotal` | src/topology/labels.rs:54-76 | vendor, model, memory and domain counts each sum to the number of accelerators, even if two domain ids collide |
| `Labels.ParseCountLabels` | src/admin/k8s.rs:293-304 | a key is decoded exactly when its label is present and parses |
| `Text.ParseU64Meaning` | src/admin/k8s.rs:293-304 | a count is read exactly from decimal digits, perhaps after one plus sign, with a value below 2^64 |
| `Labels.CarriedCountsReadBack` | src/admin/k8s.rs:293-304 | decoding labels that carry some counts gives exactly those counts, for every key |
| `Labels.ReadBack` | src/admin/k8s.rs:293-304 | decoding the built labels gives back the vendor, model and domain counts |
| `Labels.TablesAre` | src/topology/labels.rs:54-94 | the counts a built label set publishes are those per vendor, model, memory kind, physical card and domain |
| `PublishedLabels.CountLabels` | src/topology/labels.rs:54-94 | every count label by its full name and key: the number of accelerators of that vendor, model or memory kind, of distinct parent devices, of members of that domain id; absent where there is none |
| `PublishedLabels.PlaceLabels` | src/topology/labels.rs:46-94 | rack, block, RDMA presence, total and domain count, by their full names |
| `PublishedLabels.CapacityLabels` | src/topology/labels.rs:97-141 | the largest virtual-function capacity any card tells, the sum configured, and the RDMA devices, by their full names; absent where nothing tells |
| `PublishedLabels.ChassisLabels` | src/topology/labels.rs:149-165 | one label per chassis, by the slug of the first neighbour that reported it, and the number of chassis |
| `PublishedLabels.AnnotationsMeaning` | src/topology/labels.rs:120-165 | the four JSON annotations by name, each exactly where it serialized and applies |
| `Labels.CountsAreReadable` | src/admin/k8s.rs:293-304 | with fewer than 2^64 accelerators every count published fits the reader |
| `Preflight.AggregateMeaning` | src/preflight/mod.rs:146-154 | degraded if and only if something failed or warned, unknown if and only if all was skipped |
| `Preflight.SkippedNeverMatters` | src/preflight/mod.rs:146-154 | skipped outcomes and the order of outcomes never change readiness |
| `Preflight.RunCycle` | src/telemetry/preflight.rs:146-235 | the nested loops run the checks in order, fold all outcomes and publish the cycle's label set: both readiness labels `true` if and only if something passed and nothing failed or warned, `degraded` if and only if something did, `unknown` if and only if all was skipped, with the time beside them |
| `Preflight.CycleLabelsSayReadiness` | src/preflight/mod.rs:146-173 | the words a cycle publishes, in terms of the outcomes alone |
| `Preflight.OneCheck` | src/telemetry/preflight.rs:150-194 | which outcomes one check has: one under its own name, or one per accelerator it applies to, in order, under its name and that card's index; other scopes have none |
| `Preflight.ChecksInOrder` | src/telemetry/preflight.rs:150-194 | the outcomes of a registry are those of its checks, one after the other |
| `Preflight.FailedIffDegraded` | src/telemetry/preflight.rs:167-169 | something is named as failed if and only if the node is degraded, and exactly what failed or warned is named |
| `Preflight.FailedConcat` | src/telemetry/preflight.rs:167-184 | names of what failed or warned stand in the order of the outcomes |
| `Text.JoinSnoc` | src/telemetry/preflight.rs:212-216 | joining names puts the separator between any two and nowhere else |
| `Preflight.CycleLabelsMeaning` | src/telemetry/preflight.rs:196-216 | the `failed` annotation is there if and only if the inference label is `degraded`; keys stay managed |
| `Admin.FamilyReadsBack` | src/admin/k8s.rs:238-271 | a family's annotations read back as what the report said: time, verdict, reason, partner, and the bandwidth an ok report has |
| `Admin.ReadFamilyMeaning` | src/admin/k8s.rs:238-266 | field by field what is read of a family, empty strings counting as missing; nothing is read exactly when time, figure, partner and verdict are all missing |
| `Admin.ReadPreflightMeaning` | src/admin/k8s.rs:273-291 | the readiness record: there exactly with its label, `true` read as ok, `false` as fail, any other word as itself, with time and reason beside it |
| `Admin.StrongestSourceSpeaks` | src/admin/k8s.rs:228-250 | the verdict is the latest rack report's, else the pair verdict shown before, else a loopback's, else readiness |
| `Admin.Summarize` | src/admin/k8s.rs:117-145 | per-rack summaries are right, vendor totals add up to all accelerators and verdict counts to all nodes that have one |
| `Admin.OfRackMeaning` | src/admin/k8s.rs:127-134 | a rack's summary counts as healthy exactly its nodes at `ok` or `pass`, as failed exactly those at any other verdict |
| `Admin.OfRackInOrder` | src/admin/k8s.rs:127-129 | a rack's nodes are listed in order |
| `Admin.CountersMeaning` | src/admin/k8s.rs:117-139 | ready nodes, nodes with a verdict and nodes per verdict, as counts of nodes |
| `Admin.VendorSumMeaning` | src/admin/k8s.rs:140-142 | each vendor's total is the sum over the nodes |
| `EndToEnd.CycleIsManaged` | src/telemetry/preflight.rs:193-217 | what a cycle publishes on top of a built label set is managed throughout |
| `EndToEnd.NodeShowsLastCycle` | src/telemetry/preflight.rs:193-217 | after any interleaving that ends in a confirmed reconcile, nothing having landed late since its GET, the node carries the topology's labels, both readiness labels say whether the last cycle passed, failed or skipped, and it names what failed if and only if it is degraded |
| `EndToEnd.AdminReadsCounts` | src/admin/k8s.rs:293-304 | decoding the labels of a reconciled node, whatever else is on it, gives exactly the vendor, model and domain counts last published |
| `EndToEnd.AdminReadsReadiness` | src/admin/k8s.rs:273-291 | the admin reads a reconciled node's readiness as ok if and only if the last cycle had a pass and nothing bad, degraded if and only if something failed or warned, with what failed as the reason |
| `EndToEnd.VerdictIsTheProbers` | src/admin/k8s.rs:228-250 | in every interleaving the admin's verdict is the prober's latest; daemon reconciles never change a pair verdict |
| `EndToEnd.ProberSeesTopology` | src/prober/pair.rs:107-129 | the prober includes a node exactly when its last reconcile published a rack and active RDMA, under that rack |
| `EndToEnd.ProberSeesLatestStamp` | src/prober/pair.rs:107-129 | the stamps the next pass compares are those of the latest rack and loopback reports, or the ones there were, in every interleaving |
| `EndToEnd.PatchesAreReports` | src/prober/annotations.rs:63-75 | the two patches of a pair probe are one pair report on each node, each naming the other; a loopback's patch is one loopback report |
| `EndToEnd.PassIsStep` | src/prober/reconcile.rs:38-75 | a pass whose two patches land changes the prober's view of a rack by exactly one step of the coverage runs, whatever else happens to the nodes |

## Left out

- Sockets, sysfs and process spawning: frames, peer lists, virtual-function counts, parent directories
  and the output of `ib_send_bw` are inputs. Node names, accelerator ids and PCI addresses are unique
  where the program assumes it.
- UTF-8 decoding, the hash behind domain ids and the parsing of bandwidth figures are arbitrary
  functions; figures are kept as the strings they are printed to; serialized JSON is given.
- The internals of tokio, kube and the tracing and metrics exporters. A task that panics, a cancelled
  task and a closed semaphore do not occur.
- A labeler without a cluster client, which only logs what it would have written, and the pauses between
  PATCH attempts.
- Iteration over hash maps, and in places over sorted maps, is modelled in any order.
- Coverage, Schedule: runs assume that both patches of a probe reach their nodes. A report that is
  lost leaves the old stamp, and the pair is picked again.
- Probe.Cluster.ProbePair: a pod whose creation reported an error may exist all the same; the probe
  never deletes it and the model lists it as an orphan. `Polling.CleanupOrphans` says which pods a
  later pass attempts to delete. Recovery after a crash of the prober is not modelled further.
- Polling.CleanupOrphans: the unsigned difference of clock and age is read as the signed number it is
  cast to; a build with overflow checks would stop there when the clock is earlier than the age.
- Labels.PutSriov: sums are unbounded, where the program adds 64-bit numbers.
- Calendar.CivilRoundTrip: instants are unbounded, where the program has 64-bit ones.
- Labeler.NodeLabeler.Apply: within one call an attempt lands before the next one or not at all;
  patches that land later are part of `NodeWriters`.
- NodeWriters.ConfirmedPatchConverges: other writers are assumed not to write the daemon's or the
  prober's keys, and only one daemon writes a node.
- The parsing of perftest output and probe logs, the pod template, `pair_tag`, command line and
  environment, individual sensors and checks, the admin's remaining node fields, its routes and fleet
  rollups, the mutel client and the web pages: readings, templates and pass-through without the
  properties above.
