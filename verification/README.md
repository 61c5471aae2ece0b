# Verified model of the eBPF IP reputation firewall

A Dafny 4.11 model of the hard parts of the firewall, with proofs over all inputs and all
runs: the address-set algebra of the feeds, the context indexes and their lookups, the
parallel import, the spool, the reconciliation of the shared kernel maps and the publication
of new rules, the packet path from frame to verdict, the packet builder, the Top-N tracker
and the attribution of dropped packets. `dafny verify dfyconfig.toml` checks the whole
project.

Modules, bottom up:

- `Bits`, `Lists`, `Outcomes`: shifts, masks and big-endian byte strings over unbounded
  integers; generic sequence, map and cursor facts; `Option` and `Result`.
- `Cidr`, `Targets`, `ParseV4`, `LineReader`: blocks as sets of addresses, punching ignored
  addresses out of a line, the one-pass IPv4 parser against its grammar, and the chunked file
  reader. Block notation is that of section 3.1 of RFC 4632.
- `Keys`, `IpIndex`: tagged index keys, and the two lookups of an address.
- `Contexts`, `OrderedContexts`, `Spool`: three ways to build the index, and replay of the
  spooled entries. RocksDB is a map whose cursor visits keys in lexicographic byte order.
- `Import`, `ImportOrder`: workers, bounded channel and coordinator as a step relation, and
  where every imported entry comes from.
- `Reconcile`, `Publish`: the map shared by static rules and feed rules, and the jobs that
  publish under the sync lock and the map lock.
- `Rules`, `Prepare`, `Loader`: rule tables and longest-prefix lookup (section 5.1 of
  RFC 4632), preparation of feed rules, and the loader of static rules.
- `Frames`, `Checksum`, `Packets`, `Xdp`, `Wire`: the two frame parsers, the Internet checksum
  (section 1 of RFC 1071), the packet builder (headers of section 3.1 of RFC 791), the XDP
  program with its statistics, and its verdict by the bytes of a frame (IPv6 headers of
  section 3 of RFC 8200).
- `TopN`, `TopNExport`, `TopNExact`: ranking, pruning and delta export, and which exported
  series are exact.
- `RuleBlocks`, `Attribution`: from a dropped packet to the feeds it is put down to.
- `Pipeline`: import, preparation, loader, publication and packet path put together.

Where code and comments disagree the model follows the code:

- The IPv6 mask leaves octet `prefix/8` as it is when the prefix is a multiple of 8, so the
  cached IPv6 lookup is sound but not complete; `IpIndex.ProbeAgainstScan` gives the exact
  set of blocks it misses, `Attribution.AttributeCached` the exact set of feeds named.
- The guard against removing static keys in a feed sync never blocks a removal;
  `Reconcile.FeedSyncKeepsStaticRules` says exactly when static rules survive, and
  `Reconcile.StaticRuleOverwritten` that the insertions may replace one as well.
- A reload whose entries were all allowlisted is reported as up to date although registry
  and maps were replaced; see `Publish.UpToDateAfterReload`.
- The block allowlist compares four blocks for equality, its comment speaks of enclosing
  blocks; see `Prepare.InfrastructureCoveredIff`.
- The XDP program strips one VLAN tag and ignores the version nibble, the library strips two
  and checks it; see `Frames.ParsersAgree`.
- Pruning can drop the statistics of an address that is still exported, so a counter can stay
  ahead of its statistic; `TopNExact.AlwaysExactIff` says which series cannot, and
  `TopNExact.AheadIffFoundMore` when one is.

## Model

| member | source | states |
|---|---|---|
| `Bits.MaskClearsLowBits` | src/firehol/metadata.rs:182-191 | the shifted all-ones mask clears exactly the bits below the prefix, for any width, prefix 0 included |
| `Cidr.ContainsIsInterval` | src/firehol/entry.rs:45-60 | agreeing on the first prefix bits means lying in the interval of 2^(width-prefix) addresses from the network address |
| `Cidr.HalvesPartition` | src/firehol/parser.rs:268-284 | the two halves of a block are canonical, disjoint and together the block |
| `Cidr.Exclude` | src/firehol/parser.rs:259-319 | punching one address out gives pairwise disjoint blocks covering exactly the block without the address, exactly width-prefix of them and all canonical if it was inside, the block itself otherwise; for both families |
| `Cidr.ExclusionIsMinimal` | src/firehol/parser.rs:259-319 | no list of blocks with the same cover is shorter: single-bit neighbours of the address need a block each |
| `Cidr.NeighboursSpanCentre` | src/firehol/parser.rs:259-319 | a block holding two different single-bit neighbours of an address holds the address |
| `Cidr.ExcludeFromAll` | src/firehol/parser.rs:1084-1090 | one ignored address is removed from every block of a disjoint list, and nothing else |
| `Cidr.ExcludeEach` | src/firehol/parser.rs:1074-1113 | the loop over all ignored addresses leaves disjoint blocks covering exactly the block minus the ignored addresses |
| `Targets.ContainsIpDenotes` | src/firehol/entry.rs:45-60 | masking and comparing decides membership in the set of addresses, for every canonical target |
| `Targets.TargetOfNetDenotes` | src/firehol/parser.rs:1026-1047 | a parsed network becomes a canonical target with the same addresses, full-length prefixes becoming hosts |
| `Targets.TargetsWithIgnore` | src/firehol/parser.rs:1048-1197 | the targets of a line under an ignore list are canonical, pairwise disjoint and cover exactly the line minus the ignored addresses |
| `Targets.LineTargets` | src/firehol/parser.rs:981-1013 | the shortcut for lines that hit no ignored address gives the same cover |
| `Keys.KeyPrefixFree` | src/cache_rocksdb.rs:53-90 | no tagged context key is a prefix of the key of another target, so keys are injective too |
| `IpIndex.MaskV6InPlace` | src/firehol/metadata.rs:194-206 | the in-place octet loop computes the octets the lookup probes with |
| `IpIndex.MaskV6IsNetwork` | src/firehol/metadata.rs:194-206 | the IPv6 mask is the network address if and only if the prefix is 128, no multiple of 8, or the octet at prefix/8 is 0 |
| `IpIndex.PrefixContainsV6` | src/firehol/metadata.rs:164-179 | whole octets and one masked octet decide containment as the first prefix bits do |
| `IpIndex.InsideNet` | src/firehol/metadata.rs:152-179 | both containment tests decide membership in the block |
| `IpIndex.CachedLookup` | src/firehol/metadata.rs:956-1017 | the cache branch returns the contexts of the exact hit and of every probed prefix length |
| `IpIndex.RamLookup` | src/firehol/metadata.rs:956-1017 | the RAM branch returns the contexts of the exact hit and of every block that contains the address |
| `IpIndex.ProbeFindsTarget` | src/firehol/metadata.rs:966-1012 | a stored block is probed if and only if it contains the address and is not one of the missed IPv6 blocks |
| `IpIndex.ProbeAgainstScan` | src/firehol/metadata.rs:956-1017 | probing is sound, finds each containing target once, and misses exactly the IPv6 blocks with a prefix below 128 divisible by 8 whose next octet in the address is not 0 |
| `IpIndex.CachedLookupIsScanV4` | src/firehol/metadata.rs:956-985 | for IPv4 the two lookups return the same multiset of contexts |
| `IpIndex.BlockMissed` | src/firehol/metadata.rs:194-206 | every IPv6 address and prefix below 128 divisible by 8 whose next octet is not 0 has a block that scanning finds and probing misses |
| `IpIndex.DocumentationBlockMissed` | src/firehol/metadata.rs:986-1012 | a stored 2001:db8::/32 is missed for 2001:db8:100::1 |
| `IpIndex.Distribute` | src/firehol/metadata.rs:787-809 | every context of the index goes to the exact map or the block list of its family, once, and nothing else does |
| `Contexts.BuildIpIndex` | src/firehol/metadata.rs:748-810 | hash grouping gives every mentioned target its files, lines and categories in entry order, without repetition |
| `Contexts.ContextInOrder` | src/firehol/metadata.rs:762-796 | a context lists exactly the positions and categories that the entries of its target contribute, each once, in the order in which they first occur |
| `Contexts.ListsOnly` | src/firehol/metadata.rs:762-796 | only one context does |
| `Contexts.ListsOnce` | src/firehol/metadata.rs:762-796 | in it no position and no category is repeated |
| `Contexts.CacheEntryContexts` | src/firehol/metadata.rs:892-941 | merging one batch read-modify-write keeps the store equal to the specification of all entries so far |
| `Contexts.BuildChunkedIndex` | src/firehol/metadata.rs:748-760 | for every division into chunks the batched index is the one of the whole entry sequence |
| `OrderedContexts.ContiguousKeys` | src/cache_rocksdb.rs:647-669 | between two contribution keys of one target in byte order lies no key of another target |
| `OrderedContexts.SequenceOrder` | src/cache_rocksdb.rs:647-669 | contribution keys of one target are ordered by sequence number |
| `OrderedContexts.SortedRowsAreGrouped` | src/firehol/metadata.rs:831-889 | rows in byte order are grouped by target, each group in entry order |
| `OrderedContexts.ChosenIsPositions` | src/firehol/metadata.rs:831-889 | what a cursor meets of a target is every entry of the target, in entry order |
| `OrderedContexts.BuildOrderedContexts` | src/firehol/metadata.rs:831-889 | the streaming group-by succeeds if and only if all metadata is registered, and then writes exactly the contexts of hash grouping |
| `Spool.DecodeEncode` | src/firehol/entry.rs:143-193 | decoding the 30-byte record gives the entry back |
| `Spool.DecodesIff` | src/firehol/entry.rs:167-193 | exactly the 30-byte records with a known tag and a prefix of its family are accepted, and give an entry that encodes |
| `Spool.RecordAt` | src/firehol/entry.rs:143-193 | record c of a packed block decodes to entry c |
| `Spool.BulkWriter.Commit` | src/cache_rocksdb.rs:618-635 | a successful commit empties the batch and changes nothing a reader of committed and pending rows sees |
| `Spool.BulkWriter.Queue` | src/cache_rocksdb.rs:637-682 | queueing rows and a block puts exactly them, whatever the commit limit |
| `Spool.WriteEntries` | src/cache_rocksdb.rs:647-682 | one call adds the contribution rows and, when spooling, one block of packed records under the big-endian start sequence |
| `Spool.SpoolBatches` | src/firehol/parser.rs:574-603 | after all batches the database holds exactly the blocks and contributions of the batches, for every commit limit and write outcome that succeeds |
| `Spool.CursorInArrivalOrder` | src/cache_rocksdb.rs:350-367 | byte order of the block keys is arrival order |
| `Spool.VisitEntries` | src/firehol/parser.rs:108-130 | replaying the spool yields exactly the concatenation of the batches |
| `Import.RunInv` | src/firehol/parser.rs:504-635 | in every reachable state files are conserved between imported, channel, workers and unclaimed |
| `Import.ClaimsAndIds` | src/firehol/parser.rs:504-635 | in every interleaving no file is claimed twice and rule ids are 1..N without gap or repetition |
| `ImportOrder.ImportedInFileOrder` | src/firehol/parser.rs:504-635 | in every interleaving each imported entry has its place in a claimed file; of one file, an entry is imported after all entries above it and none is left out; after success every place of every file is there |
| `ImportOrder.FileImportedInOrder` | src/firehol/parser.rs:574-600 | the imported entries of a file stand at ascending positions in the order of its lines, so rule ids ascend along the file; after success they are all of it |
| `Import.ChannelIsBounded` | src/firehol/parser.rs:504-506 | the channel never holds more batches than there are workers |
| `Import.SuccessImportsEverything` | src/firehol/parser.rs:504-635 | a successful import holds exactly the multiset of the entries of all files, every file was claimed, and no file had an invalid line |
| `Import.FailureHasCause` | src/firehol/parser.rs:504-635 | an import fails only for a fault or an invalid line |
| `Import.OutcomeDecided` | src/firehol/parser.rs:504-635 | without faults the import succeeds if and only if no file has an invalid line, whatever the interleaving |
| `Import.NeverStuck` | src/firehol/parser.rs:504-635 | every reachable unfinished state has an enabled step |
| `Import.RunsAreBounded` | src/firehol/parser.rs:504-635 | every run ends: each step uses up a measure fixed by the files and workers |
| `Reconcile.SharedMap.InsertAll` | src/maps.rs:217-237 | exactly the rules in front of the first failure are inserted, the last one of a key winning; other keys keep their values and no key is missing on the way |
| `Reconcile.SharedMap.RemoveAll` | src/maps.rs:238-243 | exactly the stale keys are removed, and no other key is missing on the way |
| `Reconcile.SharedMap.SyncRules` | src/maps.rs:214-331 | after a static sync the map holds the rules in front of the first failure and the feed-owned keys with their values; the counts it reports; no step drops a key present before and after |
| `Reconcile.SharedMap.SyncFeedRules` | src/maps.rs:365-486 | after a feed sync it holds the rules in front of the first failure and what the feed did not own; the new feed-owned set is exactly the keys written |
| `Reconcile.SyncWrote` | src/maps.rs:214-486 | the same of the syncs that runs are made of, in terms of the rules and the first failure alone |
| `Reconcile.FeedOwnedStaysInside` | src/maps.rs:86-119 | over every run of syncs with any failures the feed-owned set stays inside the map |
| `Reconcile.StaticSyncKeys` | src/maps.rs:214-331 | a static sync leaves the keys installed now and the feed-owned ones |
| `Reconcile.FeedSyncKeys` | src/maps.rs:365-486 | a feed sync leaves the keys that were not feed-owned and the ones installed now |
| `Reconcile.FeedSyncKeepsStaticKeys` | src/maps.rs:389-394 | a feed sync keeps a set of static keys if and only if none of them is feed-owned without being installed again |
| `Reconcile.FeedSyncKeepsStaticRules` | src/maps.rs:365-486 | static rules survive with their values if and only if each one whose key the feed installs gets the same rule and no other one is feed-owned |
| `Reconcile.SeparateStaticRulesKept` | src/maps.rs:365-486 | static rules whose keys are neither feed-owned nor in the new feed survive, wherever the insertions stop |
| `Reconcile.SeparateIsNeeded` | src/maps.rs:365-486 | where the feed has other rules for the same keys, they survive every outcome only if the keys are separate |
| `Reconcile.StaticRuleLost` | src/maps.rs:389-394 | a run in which a static rule whose key a feed also had is lost |
| `Reconcile.StaticRuleOverwritten` | src/maps.rs:365-394 | a run in which a static rule that was never feed-owned is replaced by the rule of the feed |
| `Reconcile.UnionOfLatest` | src/maps.rs:214-486 | with separate keys and no failures the map is always the union of the latest static and the latest feed rules |
| `Publish.PublishedIdsResolve` | src/firehol/blocklist.rs:185-460 | whenever the map lock is free every stored rule id resolves in the active registry or is a static id, and the loaded commit is the one the rules came from |
| `Publish.EndedUntouched` | src/firehol/scheduler.rs:46-191 | a job that ends by an error or a skip changed nothing shared |
| `Publish.FetchDecides` | src/firehol/blocklist.rs:284-325 | in every run a fetch fails the job if and only if git fails, and ends it as up to date if and only if git reports no change, the job is not the startup one, the fetched commit is the one loaded last and the registry is not empty; the rules then came from that commit; otherwise the job goes on with the fetched commit |
| `Publish.StartupLoads` | src/firehol/blocklist.rs:300-315 | the startup job never ends at a successful fetch |
| `Publish.PublishedAsFetched` | src/firehol/blocklist.rs:185-460 | what a job has published is what it fetched and prepared: the recorded commit is the fetched one, the registry has the entries of the prepared feed, and the map is the one found at the fetch with the rules of that feed written up to the first failure |
| `Publish.StaticWrittenAsRead` | src/maps.rs:214-331 | a static sync in a run writes the rules its job read and leaves registry, commit and feed-owned keys alone |
| `Publish.UpToDateAfterReload` | src/firehol/scheduler.rs:110-130 | after a reload the outcome is reported as up to date if and only if no rule was prepared |
| `Publish.ReloadReportedUpToDate` | src/firehol/scheduler.rs:110-130 | a run in which rules and registry are replaced and the job still reports up to date |
| `TopN.RankingIsStrictTotal` | src/top_n.rs:399-418 | the ranking is irreflexive, transitive and total on different addresses |
| `TopN.OutranksFirst` | src/top_n.rs:399-418 | the comparator puts first what has more of the ranked quantity, then more of the other one, then the lower address |
| `TopN.TopIsUnique` | src/top_n.rs:249-254 | there is one Top-N list only, whatever the iteration order of the table |
| `TopN.TopStats` | src/top_n.rs:249-254 | sorting and truncating gives the Top-N: nothing left out outranks anything listed, and the list goes by the ranked quantity, then the other one, then the lower address |
| `TopN.PruningKeepsTop` | src/top_n.rs:421-429 | pruning to the best `keep` leaves the Top-n list as it was if and only if n <= keep |
| `TopNExport.RecordPacketBalanced` | src/top_n.rs:120-145 | recording keeps the per-protocol counts summing to the totals and lowers nothing |
| `TopNExport.StepOk` | src/top_n.rs:228-396 | every call keeps the table under its cap, the series equal to the last exported record, and every counter of an address not pruned since at most its statistic |
| `TopNExport.SyncExportsTop` | src/top_n.rs:286-396 | after a sync in any run exactly the Top-N addresses are exported, each with all its series, and no counter went down |
| `TopNExport.BlockedIpTopN.RecordEvent` | src/top_n.rs:231-241 | the record step of the tracker, pruning included |
| `TopNExport.BlockedIpTopN.SyncToMetrics` | src/top_n.rs:286-396 | the export loops raise, add and remove exactly the series of the specified sync |
| `TopNExport.BlockedIpTopN.PruneLowVolumeEntries` | src/top_n.rs:421-429 | pruning keeps exactly the best half of the cap |
| `TopNExact.RankedTotalExact` | src/top_n.rs:231-429 | with one criterion and a capacity of at most half the cap, after every run and sync the exported total of the ranked quantity is exactly the statistic, for every exported address |
| `TopNExact.CounterAhead` | src/top_n.rs:231-429 | for every cap and capacity, the real 10000 and 100 included, every other series has a run with one criterion in which pruning leaves the counter ahead of its statistic |
| `TopNExact.AlwaysExactIff` | src/top_n.rs:231-429 | a series is exact in all runs with one criterion if and only if it is the ranked total and the capacity is at most half the cap |
| `TopNExact.AheadAfterChange` | src/top_n.rs:231-429 | if the criterion may change, every series has a run that leaves it ahead, the ranked total included |
| `TopNExact.AheadIffFoundMore` | src/top_n.rs:286-396 | in any run of any calls a counter is never behind, and it is ahead if and only if a sync since the address was last absent from the Top-N found a higher statistic; then the address was pruned while exported |
| `TopNExact.CountsSince` | src/top_n.rs:231-241 | in every run a statistic counts, in each of its twelve series, exactly the packets of its address recorded since a moment at which the address was not in the table |
| `LineReader.SplitJoins` | src/firehol/parser.rs:243-246 | the lines, each ended by a newline, give the text back |
| `LineReader.LinesHoldNoNewline` | src/firehol/parser.rs:243-246 | no line holds a newline |
| `LineReader.SplitConcat` | src/firehol/parser.rs:234-241 | splitting after a newline splits the list of lines |
| `LineReader.VisitFileLines` | src/firehol/parser.rs:209-256 | for every file, short, interrupted or failed reads and any line lengths the reader terminates and visits the lines of the whole file numbered from 1: all of them if it completes, a prefix otherwise; it fails only for a failed read, a line that is no text or a refused line |
| `LineReader.VisitsNumbered` | src/firehol/parser.rs:209-256 | line i of the file comes as number i + 1 |
| `ParseV4.ParseIpv4Target` | src/firehol/parser.rs:338-392 | the one-pass scan computes the parsing function |
| `ParseV4.ParsesTheGrammar` | src/firehol/parser.rs:336-392 | a text parses to a target if and only if the grammar gives it that meaning: 1-3 digit octets up to 255, padding only before a slash, 1-2 digit prefix up to 32, network masked |
| `ParseV4.ParsedIsCanonical` | src/firehol/parser.rs:379-391 | every parsed target is canonical and /32 is a host |
| `ParseV4.PrintParses` | src/firehol/entry.rs:95-102 | parsing undoes printing on every target the parser can produce |
| `Prepare.PrepareRules` | src/firehol/sync.rs:101-189 | entries = kept + deduplicated + allowlisted, the counts are those of the rule set, and the rules are the first ones of their slots |
| `Prepare.FirstRulesAreFirst` | src/firehol/sync.rs:114-181 | a slot has a rule if and only if some entry asks for it, and the rule id is that of the first such entry |
| `Prepare.PreparedCovers` | src/firehol/sync.rs:101-189 | the prepared rules cover exactly the union of the targets that are not allowlisted |
| `Prepare.PreparedIsRouted` | src/firehol/sync.rs:141-175 | hosts are in the hash map and no full-length prefix is in a trie; all rules drop |
| `Prepare.IgnoredNeverCovered` | src/firehol/parser.rs:981-1013 | no prepared rule covers an ignored address |
| `Prepare.HostsAreBlocks` | src/firehol/sync.rs:36-65 | the octet ranges of the host allowlist are exactly the published blocks |
| `Prepare.AllowlistedIff` | src/firehol/sync.rs:36-91 | a target is allowlisted if and only if it is a host of the published blocks or one of four blocks |
| `Prepare.EnclosingBlockIsKept` | src/firehol/sync.rs:67-91 | whenever 140.82.0.0/16 is among the entries the prepared rules cover an allowlisted host, although the comment says enclosing blocks are allowlisted |
| `Prepare.InfrastructureCoveredIff` | src/firehol/sync.rs:67-91 | an infrastructure host is covered if and only if some entry is a block, other than four named ones, that holds it |
| `Loader.LoadFile` | src/loader.rs:179-246 | added to what is loaded: every rule comes from the line its metadata names, every parsed line has a rule, ids are consecutive from the static base, and rules + skipped + blank lines = lines |
| `Loader.LoadPaths` | src/loader.rs:137-160 | the same over all configured paths, missing ones skipped; it fails if and only if a path cannot be read |
| `Loader.LoadedIsRouted` | src/loader.rs:260-318 | the loader routes full-length prefixes to the hash map |
| `Loader.LoadedCovers` | src/loader.rs:179-318 | the loaded rules cover exactly what the lines denote |
| `Loader.LastLineWins` | src/loader.rs:179-318 | of several lines with one target the last one wins: a lookup finds its rule |
| `Rules.TrieGetIsLongest` | firewall-ebpf/src/main.rs:288-296 | the trie answers with the longest block that holds the address |
| `Rules.LongestMatchUnique` | firewall-ebpf/src/main.rs:288-296 | among canonical blocks there is only one longest match |
| `Rules.TwoTierIsLongestMatch` | firewall-ebpf/src/main.rs:279-296 | exact map then trie gives the longest-prefix match over one table with hosts as full-length prefixes |
| `Rules.DropIffCovered` | firewall-ebpf/src/main.rs:299-338 | with drop rules the lookup says drop if and only if some rule covers the address |
| `Xdp.CodeHostingIsInfrastructure` | firewall-ebpf/src/main.rs:211-236 | the packet path bypasses the same hosts rule preparation allowlists, the loopback block aside |
| `Xdp.DroppedIff` | firewall-ebpf/src/main.rs:176-414 | a frame is dropped if and only if it is an IP packet, not bypassed, whose source some rule covers |
| `Xdp.DroppedIffCovered` | firewall-ebpf/src/main.rs:176-414 | with drop rules, hosts and tries routed, a frame is dropped if and only if its judged source is covered |
| `Xdp.DroppedIffLongestDrops` | firewall-ebpf/src/main.rs:176-414 | with any actions a frame is dropped if and only if it is not bypassed and the longest match of its source says drop |
| `Xdp.EventIsLongestMatch` | firewall-ebpf/src/main.rs:299-338 | the event of a dropped frame carries its packet and the rule id of the longest match, and says whether that was an exact one |
| `Wire.Ipv6Fields` | firewall-ebpf/src/main.rs:346-360 | whatever an IPv6 frame with at most one tag holds, both parsers read its source, destination, protocol and the ports of its segment; the library wants version 6 |
| `Wire.Ipv4Fields` | firewall-ebpf/src/main.rs:239-262 | the same of an IPv4 frame, options included |
| `Wire.Ipv6Judged` | firewall-ebpf/src/main.rs:346-385 | an IPv6 frame is judged by its source octets, nothing is bypassed |
| `Wire.Ipv4Judged` | firewall-ebpf/src/main.rs:239-277 | an IPv4 frame is judged by its source octets unless its segment comes from port 53, or from port 443 of the code hosting service by TCP |
| `Wire.Ipv6Dropped` | firewall-ebpf/src/main.rs:346-414 | an IPv6 frame is dropped if and only if a rule covers its source octets |
| `Wire.Ipv4Dropped` | firewall-ebpf/src/main.rs:239-342 | an IPv4 frame is dropped if and only if a rule covers its source octets and it is no such answer |
| `Wire.DroppedIsWritten` | firewall-ebpf/src/main.rs:176-202 | every dropped frame is one of these two kinds |
| `Xdp.FeedVerdict` | src/firehol/sync.rs:101-189 | from feed entries to the wire: dropped if and only if some entry that is not allowlisted holds the source |
| `Xdp.StaticVerdict` | src/loader.rs:179-318 | from the rule files to the wire: dropped if and only if some line denotes the source |
| `Xdp.Program.Process` | firewall-ebpf/src/main.rs:239-414 | bypass, two-tier lookup, verdict, counters and the event with the winning rule |
| `Xdp.Program.Firewall` | firewall-ebpf/src/main.rs:165-202 | verdict, counters and event of any frame; malformed frames pass uncounted |
| `Xdp.CountersWrapTotals` | firewall-ebpf/src/main.rs:138-158 | over every run the counters are the true totals modulo 2^64 |
| `Xdp.Conservation` | firewall-ebpf/src/main.rs:138-158 | over every run received = accepted + dropped in packets and bytes, and events never exceed drops |
| `Xdp.TotalsAreCounts` | firewall-ebpf/src/main.rs:138-158 | over every run the totals are the numbers of dropped, passed and reported frames and the sums of their lengths |
| `Xdp.CountersConserve` | firewall-ebpf/src/main.rs:138-158 | the same of the wrapping counters, modulo 2^64 |
| `Frames.ParseEthernet` | firewall-ebpf/src/lib.rs:101-125 | the tag loop finds the network header behind at most two tags |
| `Frames.Ethernet` | firewall-ebpf/src/lib.rs:101-125 | the header lies behind the longest run of tags up to the limit, or the frame is truncated inside it |
| `Frames.StopsOnce` | firewall-ebpf/src/lib.rs:101-125 | only one place can be found |
| `Frames.ParsersAgree` | firewall-ebpf/src/main.rs:176-202 | library and XDP program read alike every packet both accept; they part exactly on a second tag and on a wrong version nibble |
| `Frames.BehindTwoTags` | firewall-ebpf/src/main.rs:176-202 | every frame with two tags and an IPv4 header is a packet to the library and no IP to the XDP program |
| `Frames.DoubleTagSeenByLibraryOnly` | firewall-ebpf/src/main.rs:176-202 | such a frame |
| `Frames.BehindWrongVersion` | firewall-ebpf/src/lib.rs:127-158 | every header behind the IPv4 type whose version is not 4 is read by the XDP program and refused by the library |
| `Frames.WrongVersionSeenByXdpOnly` | firewall-ebpf/src/lib.rs:127-158 | such a frame |
| `Checksum.AddWords` | scripts/common/src/packet.rs:66-81 | the two loops add the big-endian words, the odd byte padded, within 32 bits |
| `Checksum.WordSumOfBytes` | scripts/common/src/packet.rs:66-81 | the words are big-endian and an odd last byte counts as if a zero followed it |
| `Checksum.Fold` | scripts/common/src/packet.rs:82-84 | folding the carries ends with the ones-complement value of the sum |
| `Checksum.InternetChecksum` | scripts/common/src/packet.rs:66-87 | the checksum is the complement of that value whenever the 32-bit sum does not overflow |
| `Checksum.SumFits` | scripts/common/src/packet.rs:66-81 | no input of at most 131074 bytes overflows the 32-bit sum |
| `Checksum.SumCanOverflow` | scripts/common/src/packet.rs:66-81 | every greater length has an input that does |
| `Checksum.FilledInVerifies` | scripts/common/src/packet.rs:86-86 | data with its checksum filled in sums to all ones, the zero sum and the replaced zero checksum included |
| `Checksum.L4Checksum` | scripts/common/src/packet.rs:90-128 | the transport checksum with the pseudo header, whenever the 32-bit sum does not overflow; UDP never sends 0 |
| `Packets.HeaderVerifies` | scripts/common/src/packet.rs:132-156 | a finished IPv4 header has checksum 0 |
| `Packets.SegmentVerifies` | scripts/common/src/packet.rs:103-128 | a finished segment verifies with its pseudo header, whatever its length |
| `Packets.PseudoHeader` | scripts/common/src/packet.rs:90-102 | the pseudo header sum is that of the bytes of the addresses, a zero, the protocol and the 16-bit length |
| `Packets.VerifiesAsBytes` | scripts/common/src/packet.rs:90-128 | a segment verifies if and only if pseudo header and segment as one string of bytes do |
| `Packets.TcpFits` | scripts/common/src/packet.rs:90-128 | no TCP SYN with a payload of at most 131054 bytes overflows the 32-bit sum |
| `Packets.UdpFits` | scripts/common/src/packet.rs:90-128 | no UDP datagram does |
| `Packets.WriteIpv4Header` | scripts/common/src/packet.rs:132-156 | the header bytes, checksum last, and nothing else in the buffer changes |
| `Packets.BuildIpv4TcpSyn` | scripts/common/src/packet.rs:160-203 | the buffer holds the packet and is unchanged behind it |
| `Packets.BuildIpv4Udp` | scripts/common/src/packet.rs:206-240 | the buffer holds the packet and is unchanged behind it |
| `Packets.TcpRoundTrip` | firewall-ebpf/src/lib.rs:201-224 | behind an Ethernet header both parsers read back addresses, ports and protocol of a built TCP packet |
| `Packets.UdpRoundTrip` | firewall-ebpf/src/lib.rs:201-224 | and of a built UDP packet |
| `Packets.TcpFields` | scripts/common/src/packet.rs:160-203 | length, id, sequence number, flags, window and payload of a built TCP packet |
| `Packets.UdpFields` | scripts/common/src/packet.rs:206-240 | lengths, id and payload of a built UDP packet |
| `RuleBlocks.BuildContext` | src/firehol/metadata.rs:688-712 | the context built from a list of rule ids lists their positions and categories, each once, in the order in which they first occur; a rule without metadata gives its category only |
| `RuleBlocks.SharedContext` | src/firehol/metadata.rs:668-726 | the shared context of a target is the one hash grouping gives it |
| `RuleBlocks.Registry.BuildRuleBlockIndex` | src/firehol/metadata.rs:668-726 | every rule of a target with several rules holds that context, in any group order; nothing else changes |
| `RuleBlocks.RamResolves` | src/firehol/metadata.rs:629-659 | in RAM every registered rule id resolves to the whole context of its target |
| `Attribution.Block.MergeInto` | src/ringbuf.rs:222-240 | what is new is appended in its order, nothing twice: union of positions and of categories, with what was there in front |
| `Attribution.ContextHolds` | src/firehol/metadata.rs:748-810 | a context holds exactly the positions and categories of the entries of its target |
| `Attribution.BuildRamIndex` | src/firehol/metadata.rs:748-810 | grouping and distribution together give what the RAM lookup works on |
| `Attribution.MergeAll` | src/ringbuf.rs:183-195 | winner and lookup results merge to their union, in the order in which positions and categories first occur |
| `Attribution.AttributeInRam` | src/ringbuf.rs:166-195 | in RAM, for both families, the attribution of a drop by a rule whose target holds the source is exactly all positions and categories of entries whose target holds it |
| `Attribution.AttributeCached` | src/ringbuf.rs:166-195 | with a cache it is exactly the position of the winner and those of the entries that hold the source and are not missed by probing; for IPv4 that is the same as in RAM |
| `Pipeline.ImportNumbers` | src/firehol/parser.rs:504-635 | in every interleaving the imported entries carry the rule ids 1..N in import order |
| `Pipeline.PreparedIsValidFeed` | src/firehol/sync.rs:101-189 | rules prepared from such entries are, for each of the four maps, a feed whose ids lie in the registry, below 2^28 entries |
| `Pipeline.LoadedHasStaticIds` | src/loader.rs:179-246 | loaded rules have ids from the static base on |
| `Pipeline.IdResolvesInRam` | src/firehol/metadata.rs:629-659 | in RAM every id from 1 to the number of entries resolves to the context of its target |
| `Pipeline.IdResolvesCached` | src/firehol/metadata.rs:629-659 | with a cache it resolves to the position of its entry |
| `Pipeline.PublishedRulesResolve` | src/firehol/blocklist.rs:185-460 | in every publication run, whenever the map lock is free, every stored id is static or resolves in RAM and from the cache |
| `Pipeline.SystemVerdict` | firewall-ebpf/src/main.rs:176-414 | after any syncs of the four maps without failed insertions and with separate keys of the owners, a frame is dropped if and only if its judged source is on a line of the static files or in a wanted entry of the feed |
| `Pipeline.Ipv6SystemVerdict` | firewall-ebpf/src/main.rs:346-414 | the same by the bytes of an IPv6 frame |
| `Pipeline.Ipv4SystemVerdict` | firewall-ebpf/src/main.rs:239-342 | and of an IPv4 frame, options included |

## Left out

- Git clone, fetch and reset, retry sleeps: an oracle that returns a status and a commit or an error.
- RocksDB tuning, flush and compression, and the archive format of metadata and contexts: a byte-ordered map and a lossless value codec.
- Kernel hash maps and tries, program loading and attachment: maps, with insertion failing from an arbitrary point on; the trie answers as `Rules.TrieGet` does.
- Multi-CPU races on the statistics and ring-buffer delivery: frames are processed one after the other, and whether an event fits is an input.
- Prometheus registration, HTTP server, console and log text, CLI configuration, clocks and timing fields.
- IPv6 text, and the library parsers of networks and addresses: `Targets` and `Loader` start from the parsed network or address.
- Metadata header lines of feed files, dates and category names, allocation of metadata ids, and recycling of batch buffers in the import.
- ICMP and generic packet builders, traffic generation and raw sockets: they would add no new kind of property.
- UTF-8 decoding: a line is text or not by a predicate given to the reader, a chunk is text if its lines are.
- The eight collections of the two address families, exact and block, are four: the family is part of the key. The four kernel maps are reconciled alike, so `Reconcile` is about one.
- Encoders that fill byte arrays in place (`encode`, `context_key`) are functions that give the bytes; what is lost is only the update in place.
- The in-place sort of the Top-N list is an insertion sort on values; uniqueness of the ranked list makes the result independent of the algorithm.
- The four metric vectors and the total are one labelled series map.
- TopNExport.StepOk: the 64-bit counters do not wrap in this model, because a wrap would need 2^64 packets of one address; the cap on tracked addresses is a parameter.
- Checksum.InternetChecksum: inputs are excluded exactly when the 32-bit sum overflows, which is where the source panics or wraps; by `Checksum.SumFits` none up to 131074 bytes does.
- Checksum.L4Checksum: inputs are excluded exactly when the 32-bit sum of pseudo header and data overflows.
- Packets.BuildIpv4TcpSyn: payloads are excluded exactly when that sum overflows; `Packets.TcpFits` shows that none up to 131054 bytes does.
- Packets.BuildIpv4Udp: payloads over 65527 bytes are excluded, because the source panics when it copies them.
- Reconcile.SharedMap.RemoveAll: a removal that the kernel refuses is not modelled; the source ignores that error and leaves the stale key.
- Pipeline.SystemVerdict: stated for syncs without failed insertions and with separate keys of the two owners; what happens otherwise is in `Reconcile.SharedMap.SyncFeedRules`, `Reconcile.FeedSyncKeepsStaticRules` and `Reconcile.StaticRuleLost`.
- Loader.LoadPaths: rule ids are unbounded numbers from the static base on; the source panics or wraps after 2^32 - 2^28 rules.
- Import.SuccessImportsEverything: entries are counted as a multiset, because the order between files depends on the interleaving; the order within a file is in `ImportOrder.ImportedInFileOrder`.
