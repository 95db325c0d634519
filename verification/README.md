# Tayga: a verified model

Tayga is a stateless NAT64/SIIT translator for the TUN device. This project models the
stateful and arithmetic parts behind its packet path and proves what they keep.

- **Address mapping** (`AddressTables` to `AddressMapper`). An ordered IPv4 table, a disjoint
  IPv6 table, a pool of leases over free runs, and a two-way hashed cache. `MapState` says
  what a state must satisfy; `CacheSteps`, `PoolSteps`, `Maintenance`, `Loading`, `Reload` and
  `Lookups` say what each step does and keeps; `MapRuns` speaks of whole runs, in which the
  cache probe and the table lookup of one packet are separate steps, so that other workers
  may act in between; `Conflicts` says what goes wrong after the reloads that runs exclude,
  and `Examples` has concrete states. `AddressMapper` is the imperative form: hash chains,
  lists and loops, one method for each lock region, proved against the steps. `LeaseHosts`
  says how long a host keeps its address; `Answers` and `MapRules` say from the outside what is
  translated, assigned, cached and accepted.
- **Address codecs** (`Rfc6052`, `Translate`, `AddressWords`, `AddressBytes`, `AddressForms`,
  `Pref64`, `DnsNames`, `DnsReply`, `DnsBytes`). One embedding in four notations, explicit mappings by
  shifted words, prefix discovery, and the two ends of a DNS64 exchange.
- **Translation** (`Checksum`, `Transport`, `Fragments`, `Segments`, `SegmentChecksums`,
  `IdentCounter`).
  One's-complement sums with deferred carries, header translation that preserves checksum
  validity in both directions, fragmentation, segmentation offload against the software
  loop, and the shared identification counter.
- **Bounded dispatch** (`FrameLifetime`, `FramePool`, `Flow`, `DispatchState` to
  `DispatchTable`, `FlowBytes`, `DispatchShares`, `DispatchOutcomes`, `DispatchExample`,
  `DispatchPackets`). Frames owned through tokens, the flow classifier, and 512 slots that move
  between a stack, rings, linked chains and workers.

Addresses and counters are natural numbers with their width written out; operations that
wrap do so explicitly. A map is told from another by its prefix, which is unique in its list,
where the program compares pointers. `hide` statements in proofs only keep definitions away
from the solver.

## Findings

Where the code does not do what its comments suggest, the code was followed, the exact
condition is proved, and a lemma exhibits a case.

- Range maps validate the IPv4 address only from IPv6 to IPv4 (`src/addrmap.c:729-734`), so
  some pairs are translated in one direction only; `Coherence.Lookup4AgreesUnlessOneWay`
  names them all and `Examples.OneWayExample` exhibits one.
- A dormant lease is in no table (`src/dynamic.c:73-74`), so a reload cannot see it as a
  conflict. A reloaded row inside the pool can cover a leased address. A row that is wider on
  its IPv6 side does no harm; a row of equal widths ends in a stale cached pair, and a row for the single address
  in a host entry that the IPv4 table refuses (`Reload.ReloadKeepsInv`, `Conflicts`,
  `Examples.ReloadExample`, which begins in the state after start-up with a file of one row).
- A comment at `src/addrmap.c:928` says that conflicts with fixed mappings reject the whole
  file; the code skips the conflicting rows and commits the rest (`Examples.ConflictExample`).
- Rows of `dynamic.map` are not compared with each other by IPv6 address
  (`src/dynamic.c:222-245`); `Loading.LoadDynamicKeeps` gives the condition,
  `Loading.SecondLeaseIsOneWay` what follows, and `Examples.TwoRowsExample` a file.
- `ip_checksum` starts from negative zero (`src/nat64.c:145`), so all-zero data gives 0 rather
  than 0xffff (`Checksum.ZerosExample`).
- A missing UDP checksum is filled in on a first fragment from that fragment alone
  (`src/nat64.c:414-421`), and is then wrong for the datagram unless the rest cancels out
  (`Transport.ComputedOnFragment`, `Transport.ComputedOnFragmentExample`).
- Rolling back a frame submitted straight from translation leaves it waiting to be sent, not
  translating (`src/packet_io_lifetime.h:103-111`, `FrameLifetime.RollbackExample`).
- A fragment-table entry of the dispatcher is used once (`src/experimental_io.c:94-99`): it is
  never returned, so from then on every other datagram whose hash falls to it is dropped, and
  so is the same datagram after 30 seconds (`DispatchTraces.EntryIsNeverReused`).
  `DispatchPackets.OtherExample` and `DispatchPackets.TwiceExample` give UDP packets.
- An entry can be bound while it still holds packets, if its first fragment found no free
  frame (`src/experimental_io.c:98-116`). A second leading fragment for another worker then
  refuses the entry, the sweep skips refused entries, and the held frames are lost until
  shutdown (`DispatchTraces.StuckExactly`). `DispatchExample.StuckIsReached` is a run from the
  start, of received packets, that ends so; `DispatchPackets.StuckExample` has the packets.
- Prefix discovery does not check the reserved octet or the bits behind the address
  (`src/helpers/pref64-discover.c:83-100`, `Pref64.ReservedOctetExample`).

## Model

| member | source | states |
|---|---|---|
| `AddressTables.FirstIsLongest` | src/addrmap.c:307-318 | in a list kept in order, the first covering entry is the covering entry with the longest prefix, and the only one of that length (both directions) |
| `AddressTables.InsertMap4` | src/addrmap.c:345-366 | refuses exactly a prefix that is already present and hands it back; otherwise the order survives and nothing else changes |
| `AddressTables.InsertKeepsOrder4` | src/addrmap.c:351-364 | an entry put before the first shorter one leaves the list ordered and free of repeated prefixes |
| `AddressTables.ConflictIsOverlap` | src/addrmap.c:380-396 | the one-sided containment test detects exactly the overlap of the two address ranges |
| `AddressTables.MatchIsUnique6` | src/addrmap.c:325-336 | at most one IPv6 entry covers an address, so the match does not depend on list order |
| `AddressTables.InsertMap6` | src/addrmap.c:375-399 | refuses exactly the prefixes that overlap an entry; otherwise the entries stay pairwise disjoint |
| `AddressTables.InsertKeepsDisjoint6` | src/addrmap.c:381-397 | insertion by prefix length keeps the list sorted and disjoint |
| `AddressTables.FilterKeepsOrder4` | src/addrmap.c:973-981 | deleting entries keeps the IPv4 list ordered |
| `Rfc6052.Extract` | src/addrmap.c:611-659 | nothing is extracted exactly if the length is not 96 and the reserved octet or a suffix bit is set |
| `Rfc6052.ExtractIffEmbedded` | src/addrmap.c:611-659 | within a prefix, extraction yields a exactly on the address that embeds a: extract undoes append, and append undoes a successful extract |
| `Rfc6052.OffsetBound` | src/addrmap.c:424-480 | an embedded address never reaches into the prefix bits |
| `Translate.Embed` | src/addrmap.c:526-546 | the result lies under the IPv6 side of the map |
| `Translate.ExtractStatic` | src/addrmap.c:711-725 | the result lies under the IPv4 side of the map and carries the suffix read |
| `Translate.ExtractUndoesEmbed` | src/addrmap.c:526-546 | for every pair of lengths with enough IPv6 room, the suffix that was embedded is read back, section 3.3 of RFC 7757 |
| `Translate.EmbedUndoesExtract` | src/addrmap.c:711-725 | with equal widths the IPv6 address is restored too |
| `Translate.Append` | src/addrmap.c:409-480 | the appended address lies under the prefix |
| `AddressWords.EmbedSuffix` | src/addrmap.c:526-546 | the four-word code with its 64-bit window, and its equal-width fast path, both compute the mathematical embedding |
| `AddressWords.ExtractSuffix` | src/addrmap.c:711-725 | the two-word read-back, its fast path, and the case that stays inside one word all compute the mathematical suffix |
| `AddressWords.WindowHasSuffix` | src/addrmap.c:715-724 | the shifted and masked window holds exactly the bits after the prefix, also when the second word is not loaded |
| `AddressForms.FormsAgree` | src/addrmap.c:424-480 | the big-endian and the little-endian expressions store the same sixteen bytes, the bytes of section 2.2 of RFC 6052, for all six lengths |
| `AddressForms.ExtractFormsAgree` | src/addrmap.c:611-659 | both byte orders accept the same addresses and read the same four bytes |
| `AddressForms.AppendThenExtract` | src/addrmap.c:424-480 | under a clean prefix, on either byte order: stored bytes, spelled number and extracted address all agree |
| `AddressForms.ExtractThenAppend` | src/addrmap.c:611-659 | whatever is extracted appends to the identical sixteen bytes again |
| `AddressBytes.SynthesizeIsAppend` | src/helpers/pref64-discover.c:140-200 | the helper's bytes spell the prefix plus the embedded address, as a number |
| `AddressBytes.ExtractIffSynthesized` | src/helpers/pref64-discover.c:140-200 | reading bytes yields a exactly on the bytes synthesized for a |
| `AddressBytes.ExtractsAgree` | src/addrmap.c:611-659 | byte-wise and word-wise extraction accept the same addresses with the same result |
| `Coherence.Lookup6Agrees` | src/addrmap.c:705-798 | whatever an uncached 6→4 lookup may publish, the uncached 4→6 lookup of the result returns |
| `Coherence.Lookup4AgreesUnlessOneWay` | src/addrmap.c:518-609 | whatever an uncached 4→6 lookup may publish, the 6→4 lookup confirms if and only if the pair is not one-way (range map onto an invalid IPv4 address, or the own map with generated IPv6 address); one-way pairs are never translated back |
| `Coherence.SelfIsDropped` | src/conffile.c:1087-1111 | a generated own IPv6 address, which is in no IPv6 table, is never translated back |
| `Coherence.Lookup4Injective` | src/addrmap.c:518-609 | two IPv4 addresses never share a cacheable IPv6 address |
| `Answers.PrefixAnswer4` | src/addrmap.c:409-428 | an address whose longest match is an RFC 6052 prefix is answered with prefix plus embedded address exactly if it lies outside five address intervals, and under the strict policy outside ten more; otherwise it is dropped or rejected as stated |
| `Answers.StaticAnswer4` | src/addrmap.c:529-563 | a static map answers the address at the same place of its IPv6 side, and drops exactly the results of a range that lie in unusable IPv6 intervals |
| `Answers.OtherAnswers4` | src/addrmap.c:520-590 | a lease answers with its host, the pool and an uncovered address are rejected |
| `Answers.PrefixAnswer6` | src/addrmap.c:743-766 | under an RFC 6052 prefix the embedded address is answered exactly outside the same intervals and if the prefix is its longest match; an address that embeds nothing is dropped |
| `Answers.StaticAnswer6` | src/addrmap.c:709-742 | a static map answers the address numbered as the block of the IPv6 address, and a range drops exactly what lies in the five intervals or has another longest match |
| `Answers.OtherAnswers6` | src/addrmap.c:694-775 | a lease answers with its address, an uncovered address is rejected |
| `Answers.BlocksOf4` | src/addrmap.c:30-146 | the mask tests are the intervals |
| `Answers.BlocksOf6` | src/addrmap.c:65-85 | so are those for IPv6 |
| `Examples.OneWayExample` | src/conffile.c:496-505 | a concrete one-way pair in sound tables: a link-local range map that the configuration admits with a warning forwards packets whose answers are dropped |
| `FreeRuns.FreeXorLeased` | src/dynamic.c:52-56 | every pool address but the base is in exactly one free run or leased, never both, never neither |
| `FreeRuns.FreePlusLeased` | src/dynamic.c:441-465 | the free counts that are reported and the leases together are 2^(32-len)-1 |
| `FreeRuns.SplitLeases` | src/dynamic.c:52-56 | splitting a run around a lease keeps the tiling with exactly that lease added |
| `FreeRuns.MergeLeases` | src/dynamic.c:392-396 | giving a lease's run back to its predecessor keeps the tiling with exactly that lease gone |
| `FreeRuns.MergeUndoesSplit` | src/dynamic.c:392-394 | allocating and releasing restores the runs |
| `FreeRuns.ScanMeaning` | src/dynamic.c:140-168 | the naive circular scan returns the first eligible address, free and with the pool as its longest match, going round from the starting point, and fails exactly if there is none |
| `FreeRuns.SkipIsSafe` | src/dynamic.c:163-165 | jumping behind a more specific entry passes over no address whose longest match is the pool |
| `FreeRuns.SearchRuns` | src/dynamic.c:143-168 | the two-pass search that skips whole entries returns exactly what the naive circular scan returns |
| `FreeRuns.ComputeHashPoint` | src/dynamic.c:130-143 | the folding loops end, and the starting point lies in the pool |
| `FreeRuns.FindHolder` | src/dynamic.c:229-236 | the scan of load_map for the first run that ends at the address or later accepts exactly the free addresses, in the run that holds them |
| `MapState.HitMatchesLookup` | src/addrmap.c:505-513 | in a coherent state a cached pair is what the full lookup gives in both directions, save that one-way pairs are not translated back |
| `MapState.PoolConserved` | src/dynamic.c:441-465 | free addresses, mapped and dormant leases and the base make up the pool in every state |
| `MapState.DormantMatchesPool` | src/dynamic.c:73-74 | a dormant lease is in no table: the longest match of its address is the pool, or a map from the file whose pairs are never cached |
| `CacheSteps.ServeStaticKeepsInv` | src/addrmap.c:589-604 | publishing a static or prefix pair keeps every invariant |
| `CacheSteps.ServeLeaseKeepsInv` | src/addrmap.c:578-604 | using a lease keeps the link between lease, entry and flag, both ways |
| `CacheSteps.FlushKeeps` | src/addrmap.c:988-995 | a flush empties the cache, returns every slot, and leaves no lease pointing into it |
| `CacheSteps.AgeListLeavesFresh` | src/addrmap.c:830-839 | exactly the entries idle for more than CACHE_MAX_AGE are gone after maintenance |
| `CacheSteps.SamePacket` | src/addrmap.c:578-582 | a hit and a full lookup record the same packet for the same lease |
| `PoolSteps.LastIsOldest` | src/dynamic.c:175 | the lease at the end of the dormant list is the least recently used |
| `PoolSteps.DormantInsertSorted` | src/dynamic.c:68-93 | a lease is put among the dormant ones by its last use, so the list stays sorted |
| `Maintenance.AssignKeeps` | src/dynamic.c:108-185 | the assigned lease is mapped, belongs to the asking host, and nothing else is disturbed |
| `Maintenance.SleepListKeeps` | src/dynamic.c:378-386 | exactly the idle leases become dormant, and each of them has carried no packet, cached or not, for longer than the minimum lease |
| `Maintenance.FreeOldKeeps` | src/dynamic.c:387-397 | exactly the dormant leases without packet for longer than the maximum lease are freed |
| `Maintenance.MaintainKeepsInv` | src/dynamic.c:369-397 | a lease leaves the mapped list if and only if no cache entry serves it and its last packet is older than the minimum lease |
| `Loading.LoadRowKeepsInv` | src/dynamic.c:187-246 | loading an accepted row keeps the pool sound if and only if no lease has its IPv6 address yet: rows are not compared with each other |
| `Loading.AcceptsIff` | src/dynamic.c:222-245 | of several rows for one address the first is accepted, if it would be by itself |
| `Loading.LoadAllKeepsInv` | src/dynamic.c:266-305 | the state after the whole file is sound if and only if the accepted rows have distinct IPv6 hosts; then no table entry covers the host of a dormant lease |
| `Loading.LoadDynamicKeeps` | src/dynamic.c:248-337 | so is the state after start-up; then each accepted row is a lease of its host, mapped exactly if used within the minimum lease, and if some row is dated in the future all stay dormant and count as used one minimum lease ago |
| `Loading.SecondLeaseIsOneWay` | src/dynamic.c:61-66 | what two leases for one host lead to: the second IPv6 entry is refused unnoticed, packets to its address reach the host, and answers leave from the other address |
| `Loading.WakeKeeps` | src/dynamic.c:329-335 | exactly the leases used within the minimum lease are mapped after start-up |
| `Loading.RedateKeepsInv` | src/dynamic.c:321-327 | dating future leases back keeps every invariant |
| `Reload.LastEntryWins` | src/addrmap.c:925-937 | a row is staged exactly if it stands somewhere in the file with no clashing row after it |
| `Reload.CommitNeverFails` | src/addrmap.c:982-987 | the inserts whose results are ignored all succeed, and the tables hold exactly the old entries and all staged rows |
| `Reload.CommitTablesOk` | src/addrmap.c:941-987 | the tables after a reload satisfy every table invariant, and the file's old rows are gone |
| `Reload.ReloadKeepsInv` | src/addrmap.c:895-1006 | a rejected file changes nothing; an accepted one keeps all invariants if and only if on each leased address the most specific new row is no more specific than the pool, or neither a single address nor of equal widths |
| `Conflicts.ReloadGrafts` | src/addrmap.c:939-997 | whatever the rows are, a reload flushes the cache of the state it found and exchanges the tables, and nothing else |
| `Conflicts.CacheableMisleads` | src/addrmap.c:589-604 | an equal-width row over a dormant lease: a packet publishes the pair of the row, the host returns to its lease, and a cached pair is left that the tables deny |
| `Conflicts.SingleAddressRefuses` | src/dynamic.c:61-66 | a row for the very address of a dormant lease: the returning host is given the address, the IPv4 table refuses its entry unnoticed, and packets to the address go elsewhere |
| `Conflicts.ReloadOverDormantLease` | src/addrmap.c:939-987 | every row that the condition refuses over a dormant lease leads to one of the two, if the new tables leave room for the host and, for a range, there is a cache |
| `Conflicts.ReloadOverMappedLease` | src/dynamic.c:378-386 | every row that it refuses over a mapped lease that is not overdue leads to the stale pair too, once the lease has gone dormant, if there is a cache and the minimum lease is below the maximum, as in the program |
| `Examples.StartUpGives` | src/dynamic.c:248-337 | the state in which the reload example begins is the one after start-up with a file of one row, at any time past the minimum lease of that row |
| `Examples.ReloadExample` | src/addrmap.c:895-1006 | both happen: concrete rows that the reader accepts, a dormant lease, and the states that follow |
| `Examples.ConflictExample` | src/addrmap.c:941-981 | a file with a row in conflict with the configuration is not rejected: the other row is committed |
| `Examples.TwoRowsExample` | src/dynamic.c:222-245 | a file with two rows for one host is accepted, and the state after it is not sound |
| `Lookups.Resolve4Keeps` | src/addrmap.c:518-609 | a 4→6 miss answers as the uncached lookup did before it, and keeps all invariants |
| `Lookups.Resolve6Keeps` | src/addrmap.c:694-798 | a 6→4 miss answers as the uncached lookup, with or without allocation, and keeps all invariants |
| `MapRuns.RunKeepsInv` | src/addrmap.c:490-842 | every state of every interleaving of packets, ticks, maintenance and reloads satisfies all invariants; reloads that ReloadKeepsInv shows to break them are excluded |
| `MapRuns.ProgramRunIsRun` | src/dynamic.c:248-337 | a run of the program, from empty tables of leases through the saved file, is such a run if and only if the accepted rows have distinct IPv6 addresses |
| `MapRuns.RunHitsAreCoherent` | src/addrmap.c:504-515 | in every state of every run, the same reloads excluded, a cache hit is the answer of the tables |
| `MapRuns.RunKeepsLease` | src/dynamic.c:378-386 | over any run, the same reloads excluded, a lease that carried a packet, even one served from the cache alone, is still mapped for the same host in every state within the minimum lease of that packet |
| `MapRuns.StepKeepsServing` | src/dynamic.c:378-386 | no step taken within the minimum lease of a packet ends the lease, the same reloads excluded |
| `MapRuns.StepFrees` | src/dynamic.c:387-397 | an address is without lease again only by pool maintenance, and only when its last packet is older than the maximum lease, the same reloads excluded |
| `MapRuns.PacketStamps` | src/addrmap.c:578-582 | a packet of a lease, from the tables or from the cache, counts for its lifetime |
| `LeaseHosts.StepEndsLease` | src/dynamic.c:119-185 | a step takes an address from its host if and only if it is maintenance that finds the lease overdue, or a packet of a new host while no address of the pool is eligible and the lease is the last dormant one, the same reloads excluded |
| `LeaseHosts.RunKeepsHost` | src/dynamic.c:119-185 | over any run, the same reloads excluded, a host keeps its address exactly as long as no step is one of these two |
| `LeaseHosts.NoneEligible` | src/dynamic.c:119-168 | the search selects no address exactly when none of the pool is eligible |
| `LeaseHosts.ReturnGivesOld` | src/dynamic.c:119-128 | a host with a lease, mapped or dormant, is given the same address again, unless another entry covers it by then |
| `MapRules.AssignChooses` | src/dynamic.c:119-185 | a new host is given its own dormant address, else the first eligible address going round the pool from its starting point, else the address unused for longest, else none |
| `MapRules.HashStep` | src/dynamic.c:130-139 | each word of the host's address is added in 32 bits and the sum kept modulo 2^k - 1, where the pool has 2^k addresses |
| `MapRules.FoldKeeps` | src/dynamic.c:134-138 | the folding loop keeps the number modulo 2^k - 1 |
| `MapRules.WordsAre` | src/dynamic.c:133-134 | the words hashed are those of the address, byte-swapped on a little-endian host |
| `MapRules.AnswerIsServed4` | src/addrmap.c:591-604 | after an answer that may be cached both probes find the pair; without room, and after other answers, the cache is as it was |
| `MapRules.AnswerIsServed6` | src/addrmap.c:780-793 | the same for the lookup from IPv6 |
| `MapRules.HitServes` | src/addrmap.c:504-515 | a cached pair is served by both probes, and nothing but its time stamp changes |
| `MapRules.AgeingRule` | src/addrmap.c:825-842 | cache maintenance removes exactly the pairs unused for more than 120 seconds |
| `MapRules.RowRule` | src/addrmap.c:862-868 | the file reader accepts a row exactly if neither prefix has host bits, the IPv6 side has room, and neither begins in a forbidden interval |
| `MapRules.ClashRule` | src/addrmap.c:929-936 | rows of the file displace each other exactly if they have one IPv4 prefix or share an IPv6 address |
| `MapRules.FixedRule` | src/addrmap.c:941-970 | a row is left out exactly if an entry not from the file has its IPv4 prefix or shares an IPv6 address with it |
| `MapRules.AcceptRule` | src/dynamic.c:199-239 | a saved lease is accepted exactly if its address is the pool's by longest match, not its first and not leased, and its host is usable and nobody's |
| `AddressMapper.AddressMapper.constructor` | src/addrmap.c:228-270 | the program starts in a state satisfying all invariants, with cache_size spare entries |
| `AddressMapper.AddressMapper.Probe4` | src/addrmap.c:501-515 | the bucket walk finds the cached pair if there is one, and answers as the tables would |
| `AddressMapper.AddressMapper.Probe6` | src/addrmap.c:679-693 | the same by IPv6 address, one-way pairs excepted |
| `AddressMapper.AddressMapper.CacheInsert` | src/addrmap.c:273-300 | searches the bucket, else takes a spare slot into both hash chains; the whole new state is given |
| `AddressMapper.AddressMapper.UseLease` | src/addrmap.c:578-604 | stamp, publish, link and flag, in the program's order, is one lease-serving step |
| `AddressMapper.AddressMapper.Miss4` | src/addrmap.c:518-609 | the locked part of a 4→6 lookup takes the specified step and returns the uncached answer |
| `AddressMapper.AddressMapper.Miss6` | src/addrmap.c:694-798 | the locked part of a 6→4 lookup takes the specified step, allocation included |
| `AddressMapper.AddressMapper.ReportAgeout` | src/addrmap.c:800-813 | only the lease that waits for this very entry takes over its stamp |
| `AddressMapper.AddressMapper.MaintainCache` | src/addrmap.c:819-842 | every entry is kept or retired by its age alone, and the state is that of the specified step |
| `AddressMapper.AddressMapper.MoveToDormant` | src/dynamic.c:68-93 | the shortcut for the end of the list and the walk give the same sorted place |
| `AddressMapper.AddressMapper.MoveToMapped` | src/dynamic.c:61-66 | two inserts, each made exactly if its table has no conflicting entry, and the lease counts as mapped whatever they did |
| `AddressMapper.AddressMapper.MaintainPool` | src/dynamic.c:369-397 | both loops together are the specified maintenance step |
| `AddressMapper.AddressMapper.FreeOldest` | src/dynamic.c:388-396 | the run before the oldest lease absorbs its addresses |
| `AddressMapper.AddressMapper.FindFree` | src/dynamic.c:130-168 | the search started at the host's own point finds what the specification says |
| `AddressMapper.AddressMapper.CreateLease` | src/dynamic.c:26-59 | the run splits around the new lease |
| `AddressMapper.AddressMapper.Reactivate` | src/dynamic.c:122-128 | the dormant lease of the host is mapped again |
| `AddressMapper.AddressMapper.Allocate` | src/dynamic.c:154-161 | a free address is leased and mapped, the run split around it |
| `AddressMapper.AddressMapper.AssignDynamic` | src/dynamic.c:108-185 | reactivation, first free address, then least recently used lease, in that order of preference; the whole new state is given |
| `AddressMapper.AddressMapper.LoadMap` | src/dynamic.c:187-246 | the tests of one row, in order, and the insertion by time, are the specified step, for any row |
| `AddressMapper.AddressMapper.LoadRows` | src/dynamic.c:266-305 | the reading loop is the fold of that step over the rows |
| `AddressMapper.AddressMapper.RedateLeases` | src/dynamic.c:321-327 | the loop over the dormant list redates every lease |
| `AddressMapper.AddressMapper.WakeLeases` | src/dynamic.c:328-336 | the loop maps leases from the most recent on until one is too old |
| `AddressMapper.AddressMapper.LoadDynamic` | src/dynamic.c:248-337 | start-up from a saved file is the specified step whatever the rows are; the state is sound exactly if the accepted rows have distinct hosts |
| `AddressMapper.AddressMapper.StageRows` | src/addrmap.c:912-938 | the nested staging loops are the last-entry-wins function |
| `AddressMapper.AddressMapper.CommitRows` | src/addrmap.c:982-987 | the commit loop is the specified insertion of all rows |
| `AddressMapper.AddressMapper.ReloadMaps` | src/addrmap.c:895-1006 | a reload is the specified step whatever the rows are, and the state stays sound exactly under the stated condition; a failed one leaves it untouched |
| `Checksum.IpChecksum` | src/nat64.c:143-184 | for every byte string the 64-bit accumulation with deferred carries gives the 16-bit result; no carry is lost |
| `Checksum.ChecksumIsRfc1071` | src/nat64.c:143-184 | the result is the complement of the one's-complement sum of RFC 1071 section 2 if and only if the data is not all zero (the program counts from negative zero) |
| `Checksum.ZerosExample` | src/nat64.c:145 | on zeros, whatever their number, the program gives 0 where RFC 1071 gives 0xffff |
| `Checksum.OnesSumIsNorm` | src/nat64.c:143-184 | the sum with end-around carry depends only on the plain sum modulo 65,535 |
| `Checksum.ChecksumOfParts` | src/nat64.c:186-191 | ones_add of the checksums of an even-length prefix and the rest is the checksum of the whole |
| `Checksum.Ip4HeaderChecksum` | src/tayga.h:168-177 | five words and three fixed folds equal ip_checksum on every nonzero 20-byte header |
| `Checksum.ThreeFolds` | src/tayga.h:173-175 | three folds always suffice for five 32-bit words |
| `Transport.ConvertCksum` | src/nat64.c:230-251 | the fixed folds never lose a carry: the result is congruent to the difference of the address sums |
| `Transport.PseudoChecksum` | src/nat64.c:194-228 | the word loop is the checksum of the pseudo-header |
| `Transport.AdjustedVerifies` | src/nat64.c:481-487 | the incremental update of RFC 1624 section 3 keeps validity in both directions |
| `Transport.AdjustedKeepsVerdict` | src/nat64.c:481-487 | also for a receiver that sums only a prefix of the bytes at hand, or further bytes that are elsewhere, with any length in the pseudo-header |
| `Transport.XlatePayload4to6` | src/nat64.c:339-488 | the adjusted field differs from the old one by what the addresses differ, so that TCP, nonzero UDP, UDP-Lite and DCCP verify over the IPv6 pseudo-header if and only if they did over the IPv4 one, in whole packets, first fragments, under partial coverage and in truncated quotes; a payload is dropped exactly in the listed cases, TCP changes in bytes 16 and 17 only and UDP, UDP-Lite and DCCP in bytes 6 and 7 only, by the address difference modulo 65,535, a zero UDP field is filled in exactly when it is to be computed, and everything else stays as it was |
| `Transport.XlatePayload6to4` | src/nat64.c:1114-1263 | the same in the other direction |
| `Transport.XlateEcho4to6` | src/nat64.c:356-367 | an echo message, also one that goes on beyond the bytes at hand, is valid with its pseudo-header exactly if it was valid without, a message of zeros apart |
| `Transport.XlateEcho6to4` | src/nat64.c:1131-1142 | the converse for ICMPv6 echo |
| `Transport.ComputedOnFragment` | src/nat64.c:414-421 | a checksum filled in on a first fragment covers that fragment: the whole datagram verifies if and only if the rest and the longer length cancel out |
| `Transport.ComputedOnFragmentExample` | src/nat64.c:414-421 | it does not for eight bytes followed by eight zeros |
| `Transport.ChecksumExample` | src/nat64.c:185-230 | a concrete UDP datagram and its checksum pass the receiver's test |
| `Fragments.Send` | src/nat64.c:499-638 | a packet is refused, sent whole or sent in pieces, each exactly under the stated condition on DF, MF, offset and size; every packet written fits the MTU in force |
| `Fragments.SendPieces` | src/nat64.c:612-636 | the loop writes consecutive pieces at the original offset, MF clear only on the last piece of a last fragment |
| `Fragments.ReassemblyRestores` | src/nat64.c:612-636 | in whatever order and however often the pieces arrive, reassembly by section 4.5 of RFC 8200 restores the payload at its place |
| `Fragments.MiddleStaysAligned` | src/nat64.c:693-697 | every piece that is not final is a multiple of eight bytes |
| `Segments.SegmentInSoftware` | src/gso.c:783-831 | the software loop emits the specified datagrams: sequence numbers, payload slices, flags, DF and IDs |
| `Segments.SoftwareCarriesPayload` | src/gso.c:783-831 | the payloads of the datagrams, in order, are the original payload |
| `Segments.SoftwareIsWellFlagged` | src/gso.c:803-810 | FIN and PSH appear only on the last datagram and CWR only on the first |
| `Segments.SegmentAt` | src/gso.c:783-831 | datagram i carries the i-th block, the sequence number of its place modulo 2^32, DF exactly above 1260 bytes, and otherwise the next identification modulo 2^16 |
| `Segments.ReservedEqualsUsed` | src/gso.c:703-712 | the IDs reserved in advance are as many as the loop uses, for every payload and segment size |
| `Segments.AgreeIff` | src/gso.c:425-428 | one DF value fits all datagrams exactly by the test on the longest one, unless a short tail disagrees |
| `Segments.NormalizedSame` | src/gso.c:362-368 | not submitting a single segment for segmentation changes nothing on the wire |
| `Segments.TranslateTcp6to4` | src/gso.c:425-595 | head/tail split and uniform aggregate put on the wire exactly the datagrams of the software loop, IDs included, and use as many IDs |
| `Segments.TranslateUdp6to4` | src/gso.c:1316-1404 | the UDP aggregate puts on the wire exactly the datagrams of the software loop and reserves as many IDs, or the software loop is taken, exactly when it must be |
| `SegmentChecksums.SegmentChecksum` | src/gso.c:840-845 | header, payload and pseudo-header summed apart and joined give a checksum with which the emitted segment verifies, for TCP and for UDP |
| `SegmentChecksums.FlagBits` | src/gso.c:803-810 | the flag byte is read without loss; clearing FIN and PSH, or CWR, clears those bits and no others |
| `SegmentChecksums.SendSegments` | src/gso.c:783-866 | the loop as it leaves the program, TCP or UDP: refused exactly if a segment would exceed 65,535 bytes, otherwise the specified datagrams with their headers, each with a checksum that verifies |
| `SegmentChecksums.SegmentBytes` | src/gso.c:802-845 | every segment that leaves, byte by byte: sequence number in bytes 4 to 7, FIN and PSH on the last only and CWR on the first only, other header bytes as in the aggregate; for UDP its own length; its block of the payload; and a checksum that verifies |
| `IdentCounter.Counter.Reserve` | src/nat64.c:1079-1082 | an atomic addition hands out the next block of the counter, across its wrap |
| `IdentCounter.Counter.RepeatsExactlyAfter65536` | src/nat64.c:1060-1067 | two IDs taken by any workers are equal exactly if a multiple of 65,536 lie between them |
| `IdentCounter.SegmentsUseTheBlock` | src/gso.c:783-831 | segmenting uses exactly the reserved block, each ID once and in order |
| `IdentCounter.AggregatesDoNotCollide` | src/nat64.c:1060-1067 | aggregates segmented by any workers share no ID while their blocks lie within 65,536 allocations |
| `FramePool.Frames.constructor` | src/packet_io_lifetime.h:35-46 | a new pool has every frame free and satisfies the frame invariants |
| `FramePool.Frames.Acquire` | src/packet_io_lifetime.h:56-66 | each refusal, and the new generation with its token |
| `FramePool.Frames.Transition` | src/packet_io_lifetime.h:67-90 | exactly the allowed moves; refused moves change nothing |
| `FramePool.Frames.Prepend` | src/packet_io_lifetime.h:93-101 | the end of the data stays where it is; failure leaves the geometry intact |
| `FramePool.Frames.UnpublishedRollback` | src/packet_io_lifetime.h:103-111 | undoes a posting or a submission |
| `FramePool.Frames.BackendClosed` | src/packet_io_lifetime.h:115-123 | every frame the kernel held comes back completed, no other changes |
| `FramePool.Frames.MayUnmap` | src/packet_io_lifetime.h:124-129 | true exactly when the backend is closed and every frame is free |
| `FrameLifetime.DeadTokenIsInert` | src/packet_io_lifetime.h:47-54 | the calls made with a dead token can be struck from any run without changing any frame |
| `FrameLifetime.FreedTokenIsInert` | src/packet_io_lifetime.h:67-90 | freeing a frame makes its token such a one, for good |
| `FrameLifetime.TokensAreFresh` | src/packet_io_lifetime.h:56-66 | no run hands out a token twice |
| `FrameLifetime.OneOwner` | src/packet_io_lifetime.h:47-66 | after any run a slot is in use exactly if one issued token is live for it, and then only that one is |
| `FrameLifetime.MovesAlongEdges` | src/packet_io_lifetime.h:67-92 | a frame moves along exactly the twelve listed edges, posted only empty and submitted only with data |
| `FrameLifetime.AcquireRule` | src/packet_io_lifetime.h:56-66 | a frame is handed out exactly if it is free, the pool runs and its generations are not used up; then it is empty and its generation one higher |
| `FrameLifetime.PrependRule` | src/packet_io_lifetime.h:93-101 | room is taken from in front of the data, which end where they did |
| `FrameLifetime.StepKeepsSound` | src/packet_io_lifetime.h:67-123 | frames stay inside their storage; the kernel holds only empty posted and nonempty submitted frames, and none once the backend is closed |
| `FrameLifetime.UnmapIsFinalOverRun` | src/packet_io_lifetime.h:124-129 | once the storage may be unmapped no run changes a frame or issues a token |
| `FrameLifetime.RollbackUndoes` | src/packet_io_lifetime.h:103-111 | rollback restores the pool if and only if the frame was not submitted straight from translation |
| `FrameLifetime.RollbackExample` | src/packet_io_lifetime.h:103-111 | a run that ends in the other case |
| `FrameLifetime.DrainAllowsUnmap` | src/packet_io_lifetime.h:112-129 | a stopped pool can always be drained to the point where it may be unmapped |
| `Flow.FlowParse` | src/flow_dispatch.h:20-96 | the cursor-driven parser, its bounded recursion included, computes the specified classification or refuses |
| `Flow.WalkLoop` | src/flow_dispatch.h:44-66 | the extension header loop is the specified walk |
| `Flow.HashBytes` | src/flow_dispatch.h:14-19 | the loop is the byte-wise hash |
| `Flow.FlowKeySymmetric` | src/flow_dispatch.h:90-92 | the key does not tell which end sent the packet |
| `Flow.ReversedSharesFlow` | src/flow_dispatch.h:75-93 | both directions of a flow, ports or echo identifier, IPv4 or IPv6 behind any extension headers, get one hash |
| `Flow.QuoteSharesFlow` | src/flow_dispatch.h:20-66 | a truncated quote that keeps the ports is classified as the whole packet is |
| `Flow.ErrorFollowsFlow` | src/flow_dispatch.h:78-85 | an ICMP error gets the hash of the flow it quotes |
| `FlowBytes.Ip4Accepted` | src/flow_dispatch.h:27-41 | an IPv4 packet is accepted exactly if its lengths fit, the reserved bit is clear, and it is whole or a fragment without DF that is a multiple of eight if more follow |
| `FlowBytes.Ip4Read` | src/flow_dispatch.h:27-41 | what is read from it: addresses, protocol, header length; fragmented exactly with offset or MF, first exactly without offset |
| `FlowBytes.Ip6Accepted` | src/flow_dispatch.h:42-66 | an IPv6 packet is accepted exactly if its length is right and a route of at most eight extension headers leads through its first 296 bytes |
| `FlowBytes.PathIsWalked` | src/flow_dispatch.h:48-66 | every such route is walked to its end, and read as its fragment header says |
| `FlowBytes.WalkIsPath` | src/flow_dispatch.h:48-66 | every walk follows such a route |
| `FlowBytes.ParseAccepts` | src/flow_dispatch.h:74-76 | beyond that a packet is refused exactly if its ports are missing |
| `FlowBytes.ParseInBytes` | src/flow_dispatch.h:67-93 | the classification of every accepted packet: by its ports, its echo identifier, the packet an ICMP error quotes, or its addresses alone; the flow hash is that of family, protocol and the two ends, the lesser first |
| `FlowBytes.Fragmented6` | src/flow_dispatch.h:55-57 | an IPv6 packet is a fragment exactly if its fragment header has an offset or the M flag, and behind the first exactly if it has an offset |
| `FlowBytes.OneDatagram4` | src/flow_dispatch.h:37-41 | two IPv4 fragments have one key exactly if addresses, protocol and identification are equal |
| `FlowBytes.OneDatagram6` | src/flow_dispatch.h:55-70 | two IPv6 fragments have one key exactly if addresses are equal, and next header and identification of their fragment headers |
| `FlowBytes.OneDatagramMixed` | src/flow_dispatch.h:67-70 | fragments of different families never have |
| `FlowBytes.OrderOfBytes` | src/flow_dispatch.h:90-92 | the comparison that orders the ends is the lexicographic one |
| `DispatchRuns.StartInv` | src/experimental_io.c:44-64 | the dispatcher starts with every slot free and all invariants true |
| `DispatchRuns.StepKeepsInv` | src/experimental_io.c:80-161 | submission, taking, releasing, the sweep and stopping all keep every invariant |
| `DispatchRuns.RunKeepsInv` | src/experimental_io.c:80-161 | so does every run of them |
| `DispatchRuns.SlotsPartitioned` | src/experimental_io.c:29-43 | each slot is in exactly one place (stack, one ring or chain position, a worker), and its frame is in the state that place requires |
| `DispatchRuns.PacketsAccounted` | src/experimental_io.c:80-125 | each submitted packet was dropped or stands at exactly one position; submitted = dropped + taken + queued + held, and the four kinds of slot add up to 512 |
| `DispatchRuns.BoundsHold` | src/experimental_io.c:71-79 | no ring ever holds more than its 512 cells, no entry more than eight packets, and held packets never touch the last 32 slots |
| `DispatchRuns.FlowKeepsWorkerAndOrder` | src/experimental_io.c:86-90 | whole packets of one bucket go to one worker, in the order in which they were submitted |
| `DispatchRuns.DatagramKeepsWorker` | src/experimental_io.c:91-121 | all queued fragments of one entry belong to one datagram and go to one worker, the worker of its flow |
| `DispatchRuns.MirrorSharesWorker` | src/experimental_io.c:86-90 | a packet and its mirror image, as the classifier reads them, go to one worker |
| `DispatchRuns.ErrorSharesWorker` | src/experimental_io.c:86-90 | an ICMP error goes to the worker of the packets it quotes |
| `DispatchTraces.RunGrows` | src/experimental_io.c:86-104 | over any run a bound bucket keeps its worker, an entry its datagram, deadline and worker, and queue histories only grow at the end |
| `DispatchTraces.DeliveryIsTheQueue` | src/experimental_io.c:126-136 | a worker is handed exactly its queue history, from the front, nothing skipped |
| `DispatchTraces.FlowTakenInOrder` | src/experimental_io.c:86-136 | of any two whole packets of one flow taken in a run, the one taken first was submitted first, and both were taken by one worker |
| `DispatchTraces.EntryIsNeverReused` | src/experimental_io.c:94-99 | a fragment entry serves one datagram only: in every later state of every run other datagrams, and anything past the deadline, are dropped |
| `DispatchTraces.SweepClears` | src/experimental_io.c:147-160 | a sweep at or after the deadline empties an entry if and only if it is not stuck |
| `DispatchTraces.StuckExactly` | src/experimental_io.c:98-102 | held packets become stuck in a refused entry in exactly one way, and no later step frees them |
| `DispatchTraces.StuckForGood` | src/experimental_io.c:147-160 | nor does any run, until the dispatcher is destroyed |
| `DispatchShares.RunSharesOut` | src/experimental_io.c:86-90 | in every run from the start a bucket has a worker exactly if a packet has met it, and the k-th bucket to be met has worker k modulo the number of workers |
| `DispatchShares.SharesAreFair` | src/experimental_io.c:86-90 | so the numbers of buckets of any two workers differ by at most one |
| `DispatchShares.QueuedByTurn` | src/experimental_io.c:86-90 | packets of a bucket are queued for that worker, and packets without ports or echo identifier for the first |
| `DispatchOutcomes.SubmitFate` | src/experimental_io.c:80-125 | the exact fate of every packet: which worker's queue, which chain, or dropped, by worker table, entry, eight places, thirty seconds and thirty-two slots |
| `DispatchOutcomes.RefusedFate` | src/experimental_io.c:84 | what the classifier refuses, or is empty, is dropped and changes no table |
| `DispatchOutcomes.SubmitEntry` | src/experimental_io.c:92-104 | the exact entry of a fragment's datagram afterwards |
| `DispatchOutcomes.KeptInSlot` | src/experimental_io.c:105-111 | a kept packet lies in the top slot with the stated length behind the headroom |
| `DispatchOutcomes.ChainFollows` | src/experimental_io.c:116-121 | the waiting chain follows the first fragment into its queue, in order |
| `DispatchOutcomes.StartIsEmpty` | src/experimental_io.c:44-64 | the sizes of the tables and frames, and that all are empty at the start |
| `DispatchExample.StuckIsReached` | src/experimental_io.c:91-116 | for every later fragment, whole packet and two first fragments, as received bytes, whose classifications fit, a run from the start of 514 submissions ends with the later fragment stuck |
| `DispatchExample.SecondCopyIsDropped` | src/experimental_io.c:94-99 | for every datagram in two fragments: it is forwarded, and dropped when it comes again 30 seconds later or more |
| `DispatchExample.OtherIsDropped` | src/experimental_io.c:94-99 | for every other datagram that falls to the entry: it is dropped at any time, though the first has been forwarded and 510 slots are free |
| `DispatchPackets.KeyHashes` | src/flow_dispatch.h:14-19 | the exact buckets of two UDP flows, and the one entry of two datagrams |
| `DispatchPackets.StuckExample` | src/experimental_io.c:91-116 | such packets: UDP over IPv4 from ports 4097 and 4098 to one destination |
| `DispatchPackets.TwiceExample` | src/experimental_io.c:94-99 | a UDP datagram in two fragments, dropped when it is sent again |
| `DispatchPackets.OtherExample` | src/experimental_io.c:94-99 | datagrams 1 and 448 between the same hosts share an entry, and the second is dropped |
| `DispatchRings.Rings.Push` | src/experimental_io.c:71-79 | the cell written never holds a slot that is still queued, however far the 32-bit cursors have wrapped |
| `DispatchRings.Rings.Pop` | src/experimental_io.c:130-131 | the slot read is the oldest not yet taken |
| `DispatchLinks.Links.JudgeFragment` | src/experimental_io.c:93-104 | opening, refusing, binding and holding, as the specification decides |
| `DispatchLinks.Links.Append` | src/experimental_io.c:112-114 | the slot joins the end of the chain; every other chain is intact |
| `DispatchTable.Dispatch.Init` | src/experimental_io.c:44-64 | refused exactly for no workers or more than eight; otherwise the start state |
| `DispatchTable.Dispatch.BindQueue` | src/experimental_io.c:86-90 | a bucket gets the next worker in turn the first time, and its own ever after |
| `DispatchTable.Dispatch.ClaimSlot` | src/experimental_io.c:106-111 | a slot is popped and its frame filled, or nothing has happened |
| `DispatchTable.Dispatch.FlushEntry` | src/experimental_io.c:117-120 | the walk along the links queues the whole chain in order |
| `DispatchTable.Dispatch.Submit` | src/experimental_io.c:80-125 | the locked region is the specified submission |
| `DispatchTable.Dispatch.Take` | src/experimental_io.c:126-136 | the locked region is the specified take; the returned slot and length are the packet's |
| `DispatchTable.Dispatch.ReleaseSlot` | src/experimental_io.c:146 | a taken slot goes back on the stack with its frame freed |
| `DispatchTable.Dispatch.ExpireHeld` | src/experimental_io.c:147-160 | the nested loops are the specified sweep, at most once per clock reading |
| `DispatchTable.Dispatch.Stop` | src/experimental_io.c:161 | no packet is accepted and no frame acquired afterwards |
| `DispatchTable.Dispatch.Destroy` | src/experimental_io.c:162-176 | every frame in use is dropped and freed, the storage may be unmapped, and, if no worker kept a slot, submitted = dropped + taken |
| `Pref64.DiscoveryFindsPrefix` | src/helpers/pref64-discover.c:58-133 | on the address synthesized for a well-known IPv4 address discovery returns exactly the prefix and length if the prefix is usable, and nothing otherwise |
| `Pref64.LongerDoNotMatch` | src/helpers/pref64-discover.c:73-130 | no longer length, though tried first, ever matches such an address |
| `Pref64.DiscoveryInRanges` | src/helpers/pref64-discover.c:40-135 | exactly the prefixes outside ::/96, ::ffff:0:0/96, ff00::/8 and fe80::/10 are discovered, zero apart |
| `Pref64.LongestDecides` | src/helpers/pref64-discover.c:40-135 | any address is decided by the longest length at which one of the two addresses stands |
| `Pref64.SpecialRanges` | src/helpers/pref64-discover.c:40-70 | the excluded addresses are those ranges |
| `Pref64.FoundIsSynthesized` | src/helpers/pref64-discover.c:58-133 | a reported prefix has a well-known address behind it; the whole address is the synthesized one if and only if the bits discovery ignores are zero |
| `Pref64.ReservedOctetExample` | src/helpers/pref64-discover.c:83-100 | an address with its reserved octet set is reported, and nothing synthesizes it |
| `DnsNames.EncodeDnsName` | src/helpers/pref64-discover.c:354-372 | the buffer holds the encoded name, or the name is refused |
| `DnsNames.DecodeQname` | src/helpers/pref64-discover.c:715-739 | the loop is the specified reading |
| `DnsNames.DecodeEncoded` | src/helpers/pref64-discover.c:715-739 | every name that can be encoded is read back as it was, up to a final dot, and fits the buffer |
| `DnsNames.SkipDnsName` | src/helpers/pref64-discover.c:203-216 | the loop is the specified skip |
| `DnsNames.SkipEncoded` | src/helpers/pref64-discover.c:203-216 | every encoded name is skipped to exactly its end |
| `DnsNames.AcceptedIffName` | src/helpers/pref64-discover.c:253-280 | a question is accepted if and only if it asks for the expected name, up to letter case |
| `DnsBytes.SkipIffName` | src/helpers/pref64-discover.c:203-216 | a name is skipped exactly if it is labels of 1 to 63 bytes, 255 in all, and a zero byte or a compression pointer |
| `DnsBytes.WritableIff` | src/helpers/pref64-discover.c:354-375 | a name can be written exactly if its labels have 1 to 63 bytes and it has at most 253 without final dot |
| `DnsBytes.NameExample` | src/helpers/pref64-discover.c:354-375 | how a.bc is written |
| `DnsReply.BuildDns64Reply` | src/helpers/pref64-discover.c:741-788 | the buffer holds the specified reply, with as many answers as fit counted in the header |
| `DnsBytes.BuiltReply` | src/helpers/pref64-discover.c:741-788 | the bytes of the reply: identification, flags, counts, question, and one answer after the other for as many addresses as fit |
| `DnsBytes.AnswersFit` | src/helpers/pref64-discover.c:755-785 | exactly as many answers as fit are written |
| `DnsReply.ParseDnsResponse` | src/helpers/pref64-discover.c:224-326 | the loops compute the specified outcome: failed, truncated, or the first prefix revealed |
| `DnsBytes.ReplyOutcome` | src/helpers/pref64-discover.c:224-326 | a reply is truncated exactly if it answers the request and TC is set; a prefix is found exactly if it answers without error, repeats the question and reveals it; anything else fails |
| `DnsBytes.ScanIffReveals` | src/helpers/pref64-discover.c:300-323 | the scan finds exactly what the first revealing IPv6 address record of the counted answers reveals |
| `DnsBytes.AskedIff` | src/helpers/pref64-discover.c:250-286 | the question is checked byte by byte, names without regard to case |
| `DnsReply.ScanBuilt` | src/helpers/pref64-discover.c:302-323 | scanning built answers finds the prefix at once if it is usable and never otherwise |
| `DnsReply.ReplyRevealsPrefix` | src/helpers/pref64-discover.c:224-326 | end to end: for any name that can be encoded, parsing a built AAAA reply with the well-known addresses returns exactly the server's prefix and length if it is usable, and fails if it is not |

## Left out

- Kernel interfaces: TUN set-up, netlink, io_uring, eventfd, poll and thread primitives. A lock region is one atomic step, and a write emits one datagram and succeeds.
- The asynchronous transmit queue (`src/experimental_io.c:178-306`): its frames follow FramePool, its completions come from the kernel.
- The clock: `now` is constant inside one lock region and does not go back between them.
- The hash functions of the address cache are arbitrary fixed functions; the flow hash is exact, but nothing is claimed of its quality.
- Memory allocation failures, logging, statistics and telemetry.
- Reading configuration, `map-file` and `dynamic.map`: rows arrive parsed, and a line that does not parse is the failure flag of a reload. Writing `dynamic.map` is left out.
- Address tables and lease lists are sequences replaced as a whole, so pointer surgery on list nodes is not modelled; the cache's hash chains, the dispatcher's rings, links and free stack, the frames and the packet buffers are updated in place.
- MapRuns.RunKeepsInv: runs exclude the reloads that ReloadKeepsInv shows to break the invariant, with a row over a leased address that is for it alone or of equal widths; what such a reload leads to is in Conflicts.
- MapRuns.RunHitsAreCoherent: excludes the same reloads; after one of them a hit can be wrong.
- MapRuns.RunKeepsLease: excludes the same reloads.
- MapRuns.StepKeepsServing: excludes the same reloads.
- MapRuns.StepFrees: excludes the same reloads.
- LeaseHosts.StepEndsLease: excludes the same reloads.
- LeaseHosts.RunKeepsHost: excludes the same reloads.
- Conflicts.ReloadOverMappedLease: needs a cache, a lease that is not overdue, and a minimum lease below the maximum (the program's constants are 7,440 and 1,209,600 seconds): without a cache there is no stale pair, and an overdue lease is freed instead of going dormant.
- Conflicts.ReloadOverDormantLease: is for a host that no entry of the new tables covers; a covered host is answered by that entry and does not return to its lease. For a range it needs a cache.
- Checksums are computed on a little-endian host; the address code is modelled for both byte orders.
- Reload.Survivors: the loops that skip rows in conflict with fixed mappings are one filter function, which the reload method calls.
- Frames with a partial checksum (NEEDS_CSUM): the offload branches of `xlate_payload_4to6` and `xlate_payload_6to4` and the virtio headers are left out.
- ICMP error translation, its code and pointer tables, `est_mtu` and header field copying.
- Segmentation from IPv4 to IPv6: it has neither DF nor identifications to agree on and is the easy half of the IPv6 to IPv4 case.
- Kernel segmentation is a specification function: cut at the segment size, advance sequence and ID, keep FIN and PSH for the last and CWR for the first segment.
- Segments.TranslateTcp6to4: starts at the split decision; the preceding header checks and the address lookup are not part of it.
- DispatchTable.Dispatch.Submit: the bytes of the packet are not stored in the frame; its length, geometry and ownership are. Two clock readings inside one submission are one.
- DnsReply.BuildDns64Reply: a request is a sequence long enough for its question, as the server has checked before it builds a reply.
- Sockets, command lines and the service loops around the discovery helper.
- Benchmarks, scripts, packaging and eBPF steering.
