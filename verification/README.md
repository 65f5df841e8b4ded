# Verified model of dnsweaver

dnsweaver watches workloads, works out which host names they want, and writes DNS records for them through
provider instances.  This project models the parts of it that hold state and make decisions, and proves what
they keep over every input, every run and every interleaving:

- the **reconcile cycle** over shared stores of DNS records, with ownership markers, several processes,
  failing calls, restarts and a circuit breaker;
- the **hostname catalog**, a first-fit allocator in numbered TXT records with compaction;
- the **glob compiler**, which turns a glob into the text of a regular expression;
- **trigger coalescing**, a mutex, an atomic flag and one catch-up pass;
- the **codecs and stores** around them: ownership values, the record-set diff, the dnsmasq configuration file,
  the snapshot cache, and the provider registry with its retrying manager.

## How the model is built

`Backend.dfy` holds the stores.  A `World` is every store and the log of one process's calls; an `Env` decides,
call by call, whether the call works, is refused, works but loses its reply, or meets a type clash, and what
other writers do to the stores just before it.  Names compare in canonical form (ASCII lower case, one trailing dot
trimmed; section 2.3.3 of RFC 1035), and SRV data counts only for SRV records.

`Model.dfy` says what one cycle does to a `World`, as functions that follow the branches of the code.
`Reconciler.dfy`, `Providers.dfy` and `Cache.dfy` hold the code in its own form (objects with fields, loops,
early returns), and every method there is proved to do exactly what the function says.  The theorems are about
the functions: `Traces` (which calls each part can make), `Isolation`, `Settling`, `Convergence`, `Requests` (what a
host asks for, field by field), `Fixpoint`, `Outcome`, `Cleaning`, `Recovery`,
`Panicking`, `Sharing`, `Discovery`, `Orphans`, `Restart`, `Routing`.  `Catalog.dfy`, `Dnsmasq.dfy`, `Diff.dfy`, `Trigger.dfy` and `Managing.dfy` each
hold the object of their source file and its laws (those of the catalog are in `CatalogLaws.dfy`).
The order in which a map yields its keys is a ghost result (`Orders`, `dOrder`, ...), so each theorem holds for
every order.

## Where the code differs from what it is said to do

Each of these is a lemma, and the condition under which the promise does hold is proved with it.

- A log line reads the SRV data of a stale SRV record that may have been listed without any
  (providers/webhook/provider.go:218, providers/cloudflare/provider.go:282): the process panics in the middle of the
  cycle, and again after every restart (`Convergence.CycleOutlivedExactlyWhen`, `Panicking.CrashLoop`).
- A dry run deletes: managed mode without tracking does not ask (`Orphans.DryRunReadsExactlyWhen`).
- The known set is replaced whatever became of the orphans: those a tripped circuit breaker spared, and those
  whose listing or deletion failed, are left alone until a cycle discovers them or a restart recovers them
  (`Orphans.OrphansGetOneChance`, `Orphans.RefusedCycleForgets`).
- Cleanup is said to visit the providers a host was written to last time.  Skipped actions are not remembered, and
  a host is remembered as spelled but looked up by its canonical name; in both cases cleanup goes by domain patterns
  (`Orphans.SweptExactlyWhen`, `Orphans.SpellingIsRemembered`).
- Two instances on one backend to which a hint gives one type overwrite each other's record, cycle after cycle,
  unless a cycle finds room for both
  (`Sharing.BothServedExactlyWhen`, `Sharing.RivalsNeverRest`, `Sharing.RivalsMeetExactlyWhen`).
- Cleanup names the marker without its metadata, so a marker with metadata stays (`Orphans.CleanupUnmarks`,
  `Orphans.MetadataChangesValue`).
- A metadata value with a comma, or a key that starts with `instance=`, can change whom the marker belongs to
  (`Ownership.CommaChangesOwner`, `Ownership.KeyChangesOwner`, `Ownership.EveryOwnerKeptExactlyWhen`).
- A native updater can be handed a record the cycle has just deleted; the next cycle heals it
  (`Fixpoint.Converges`, `Fixpoint.ThirdCycleRests`).
- The cache honours a marker whose prefix is spelled in capitals, recovery does not, so a host can be created and
  lost at the next restart (`Restart.MarkerRecoverable`, `Restart.KnownAgainExactlyWhen`,
  `Restart.CapitalMarkerLosesHost`).
- The catalog's comments say that chunk 0 stays as a marker and that orphaned chunks are harmless.  An emptied
  chunk 0 is not inserted again, a gap hides every chunk behind it, and filling the gap makes leftover chunks
  readable again (`CatalogLaws.GapHides`, `CatalogLaws.GapFilledReveals`, `CatalogLaws.CompactLeavesLast`).
- `*` stops at a line feed (`Glob.PreservedExactlyWhen`).
- A trigger whose flag is stored after the holder has looked at it waits for the next trigger
  (`Trigger.StoreCanComeTooLate`, `Trigger.ServedExactlyWhen`).
- The registry is said to keep the configured priority; a provider that recovers late goes to its end
  (`Managing.PriorityKeptExactlyWhen`, `Managing.LateRecoveryReorders`).
- The first wait of a provider is not capped (`Managing.CappedExactlyWhen`).
- Of two existing records that differ in their TTL alone the diff compares one (`Diff.DiffReachesTtlExactlyWhen`).
- dnsmasq's Create looks for its line anywhere in the file, so it skips a record whose line starts another one's
  (`Dnsmasq.LongerTargetHides`).
- Records are said to be matched by host and type only; the key also holds the target, so a changed target is a
  deletion and a creation, never an update (`Diff.UpdatesChangeOnlyTtl`).

## Model

| member | source | states |
|---|---|---|
| Fixpoint.SecondCycleRests | internal/reconciler/reconciler.go:187-283 | from any stores that do not end the process, with every host spread out, after a cycle without failures in which every action succeeded, a second one over the same workloads leaves every store as it is, in whatever order the maps are visited |
| Fixpoint.ThirdCycleRests | internal/reconciler/actions.go:258-335 | from such stores, with every host spread out, a missed native update heals: in the cycle after any failure-free one every action succeeds, and the one after that changes no store |
| Fixpoint.Converges | internal/reconciler/actions.go:204-399 | after a failure-free cycle from any stores that do not end the process, each writer of a spread-out host whose store held no other data type has a record of its canonical name with the hint's type, target and SRV data, or the instance's type and target where the hint gives none, exactly unless a native updater is given a record deleted as stale; instances may share a backend |
| Requests.CycleAddsAsAsked | internal/reconciler/actions.go:116-140 | whatever fails, each record a cycle creates or updates to is, for a discovered host and one of its writers, named as the host is spelled, with the hint's type, target and TTL where it gives them and the instance's otherwise, and the hint's SRV data; or it is the host's marker, `_dnsweaver.` before the name, with this ID |
| Requests.NewIsAsked | internal/reconciler/actions.go:116-140 | the same of every record that is new in a store after a failure-free cycle, down to its TTL |
| Requests.MarkerMetadata | internal/reconciler/actions.go:140-157 | a new marker is printed with the metadata of the hints, or else with the recovered metadata if no earlier job of the host used them, or else with none |
| Requests.RecoveredUsedOnce | internal/reconciler/reconciler.go:503-520 | after a cycle the process outlives, recovered metadata are left for exactly the hosts that were not discovered, have no writer, or bring metadata of their own |
| Fixpoint.ActionsExactly | internal/reconciler/actions.go:159-399 | the action of a spread-out host at a writer names both, fails exactly for a missed update, and is a skip if another type is there or the record asked for is, else an update if the host has data there, else a creation |
| Outcome.CycleLeavesExactly | internal/reconciler/actions.go:204-335 | record by record, what a failure-free cycle leaves of a spread-out host at a backend that one of its writers has to itself: nothing changes if another type is there; else stale SRV records go, and the record asked for takes the place of the first one, unless it is there already or a native update misses |
| Requests.FirstDataIs | internal/reconciler/cache.go:66-118 | the first of a host's existing records is the first one in the listing |
| Outcome.UnlistedJobLeaves | internal/reconciler/actions.go:175-203 | a job whose provider failed in the snapshot and answers again does to the store what it would have done with a snapshot, if no data record of the host differs from it by a trailing dot |
| Convergence.CycleOutlivedExactlyWhen | internal/reconciler/actions.go:231-272 | when the snapshot shows the stores as they are, the process outlives the cycle if and only if for no writer of a discovered host the host's data are all of the wanted type SRV and one of them has the wanted target and no SRV data while SRV data are wanted; whatever fails or interferes after the snapshot |
| Convergence.JobPanicsExactly | internal/reconciler/actions.go:231-272 | the same for one host at one writer, whatever its calls do |
| Panicking.CrashLoop | internal/reconciler/actions.go:259-272 | while a spread-out host with such a record is discovered, every cycle without failures ends the process and leaves the record, over any run of cycles and restarts, whatever else is discovered |
| Panicking.BareRecordDooms | internal/reconciler/actions.go:263-264 | the case is met by the wanted SRV record itself, listed without its SRV data |
| Fixpoint.RunKeepsRegular | internal/reconciler/reconciler.go:187-283 | what the cycle theorems ask of a process holds after every run of cycles and restarts, whatever fails or interferes: the names it knows are canonical if those of its own markers are, and no metadata it remembers gives another ID |
| Convergence.SpreadOutExactlyWhen | internal/reconciler/actions.go:85-108 | a host's writers on one backend always want different types, whatever instances share it, unless a hint gives all of them one type: then they must be on different backends |
| Sharing.BothServedExactlyWhen | internal/reconciler/actions.go:204-335 | the other case: two writers of one type on one backend; a failure-free cycle that the process outlives leaves both records if and only if the records it found leave room for both (the first one found is overwritten, and a native update needs it to be there still) |
| Sharing.RivalsNeverRest | internal/reconciler/actions.go:204-335 | from a store with either of two such records alone, the failure-free cycles of any run leave the two in turn and never both |
| Sharing.RivalsMeetExactlyWhen | internal/reconciler/actions.go:204-335 | after a run of failure-free cycles both are there if and only if some cycle of the run found room for both |
| Sharing.RivalsRest | internal/reconciler/actions.go:204-335 | once both are there and none of the records is outdated, a failure-free cycle leaves the host's data as they are |
| Sharing.CarryKeys | internal/reconciler/actions.go:204-399 | which record keys a plan leaves, whatever has happened to the store since the snapshot |
| Discovery.FoundIsWell | internal/reconciler/reconciler.go:287-368 | what extraction yields meets the hypothesis of every cycle theorem: valid names under their canonical form |
| Discovery.ReconcileConverges | internal/reconciler/reconciler.go:187-283 | Converges on what the Reconcile method ensures: of all that workloads and files list, the first valid entry of a name is served at each of its writers, if the process outlives the cycle |
| Fixpoint.NativeUpdateCanMiss | internal/reconciler/actions.go:258-335 | the exception of Converges is met by one SRV record with the wanted target and other SRV data |
| Fixpoint.SettledCycleRests | internal/reconciler/reconciler.go:187-283 | a failure-free cycle in which every job is settled beforehand changes no store |
| Convergence.CycleSettles | internal/reconciler/reconciler.go:218-266 | a failure-free cycle from stores that do not end the process brings every pair of host and writer to its result, for each host that is spread out; neither the jobs of other types on the same backend nor cleanup undo it |
| Convergence.JobsUnclashing | internal/reconciler/actions.go:85-108 | two jobs of one cycle on one backend about one spread-out host want different data types |
| Routing.WritersExactly | internal/reconciler/actions.go:85-108 | the writers are, in registry order, exactly the instances whose domains cover the host and whose filters list every value the host has for their keys, and that are first for their backend identity and record type |
| Routing.ExplicitWriter | internal/reconciler/actions.go:24-83 | with an explicit provider the only writer is the instance of that name, if there is one |
| Isolation.ProcessIsolation | internal/reconciler/reconciler.go:528-595 | two processes with different IDs, restarts and cycles interleaved call by call: a process never mentions the name or marker name of a host it neither discovers nor finds its own marker for |
| Isolation.RunPlain | pkg/provider/provider.go:43-125 | whatever happens around it, a process with a comma-free ID only ever adds markers of that ID, if no metadata of its hints prints to a piece that gives another ID |
| Isolation.ApartAmongValid | pkg/provider/provider.go:291-314 | among valid names, not colliding with a name or marker name of a set is just not being in the set |
| Orphans.CleanupJustified | internal/reconciler/orphan.go:18-160 | every call of cleanup, whatever fails, is a listing or deletes something of a host known before and absent now, on the grounds its mode gives; nothing when cleanup is off, or when more than half and more than one of the known hosts are gone |
| Orphans.BreakerBounds | internal/reconciler/orphan.go:28-53 | after any cycle the process outlives the known set is the discovered set, and cleanup deletes at or beside at most one name, or half of those known before |
| Orphans.OrphansGetOneChance | internal/reconciler/reconciler.go:251-266 | in a cycle the process outlives, an orphan is swept at its providers if and only if cleanup is on and at most half of the known hosts, or just one, are gone; then, whether it was spared, swept or its deletion failed, no call of any later turn names it or its marker until a cycle discovers it or a restart recovers it |
| Cleaning.SweepLeavesExactly | internal/reconciler/orphan.go:165-660 | what one failure-free sweep takes from a store, exactly: managed with an own marker, all data of the host and the marker printed without metadata; managed at a provider without markers, the records of the instance's type and target; managed without tracking, all data; authoritative, every supported type but TXT, and the marker; additive, nothing; and no record of another name |
| Cleaning.CleanupLeavesExactly | internal/reconciler/orphan.go:18-160 | what a failure-free cycle leaves of a host that is gone: exactly what no instance it is swept at lets go, or everything if cleanup is off or more than half and more than one of the known hosts are gone |
| Orphans.ApartFromFound | pkg/provider/provider.go:291-314 | a valid host that is not discovered shares no name or marker name with a host that is, which is what OrphansGetOneChance asks of it |
| Orphans.RefusedCycleForgets | internal/reconciler/reconciler.go:259-266 | with every call refused a cycle takes nothing away and still forgets its orphans |
| Orphans.SweptExactlyWhen | internal/reconciler/orphan.go:82-104 | an orphan is swept, if cleanup is on and at most half of the known hosts or just one are gone, at the instances whose actions wrote its canonical spelling in the cycle before; if none did, at every instance whose domains cover it |
| Orphans.SpellingIsRemembered | internal/reconciler/reconciler.go:236-246 | an action remembered for a canonical name was made for a host spelled like that |
| Orphans.DryRunReadsExactlyWhen | internal/reconciler/orphan.go:573-660 | a dry run never writes, for all states and failures, if and only if the process is disabled, does not clean up, tracks ownership, or has no managed instance |
| Orphans.CleanupUnmarks | internal/reconciler/orphan.go:289-455 | a managed cleanup takes away an own marker if and only if it is printed like one without metadata |
| Orphans.MetadataChangesValue | pkg/provider/instance.go:411-430 | two markers of one ID, with and without metadata, print alike if and only if the metadata has only reserved keys |
| Restart.RecoversExactly | internal/reconciler/reconciler.go:528-595 | a fresh process that recovers without failures knows exactly the canonical names some store holds its marker for |
| Recovery.RecoversFully | internal/reconciler/reconciler.go:528-595 | with cleanup and tracking on, a fresh process that recovers without failures knows a name, has it assigned to a provider and has metadata for it exactly when a store, that provider's store, and a marker with metadata say so; the metadata are those of such a marker; otherwise it recovers nothing |
| Restart.RecoversCanonicalExactlyWhen | internal/reconciler/reconciler.go:528-595 | what it knows is canonical if and only if every such marker names a canonical host, which one ending in two dots does not |
| Restart.KnownAgainExactlyWhen | internal/reconciler/reconciler.go:528-595 | a spread-out host discovered by a failure-free cycle is known after a restart if and only if, before the cycle, some store held a literal marker of this ID for it, or some writer is to leave its first one: its store held none, nothing keeps the type out, no update misses, and a record already there is adopted |
| Restart.CreatedIsRecovered | pkg/provider/instance.go:479-518 | a spread-out host a failure-free cycle created or updated is known after a restart if and only if, before the cycle, its writer's store held no own marker of it, or some store a literal one, or some other writer is to leave a first one |
| Restart.CapitalMarkerLosesHost | pkg/provider/provider.go:296-314 | with only an own marker spelled in capitals in the store, the cycle creates the host's record and a restart does not know the host |
| Restart.MarkerRecoverable | pkg/provider/provider.go:296-314 | of the markers the snapshot honours, recovery sees exactly those with the prefix in lower case |
| Reconciling.Reconciler.Reconcile | internal/reconciler/reconciler.go:187-283 | the loops and field updates have exactly the effect of the modelled cycle on the stores, the call log and the known, mapping and metadata fields, for the orders the maps were visited in, and the method tells whether the process outlived it |
| Reconciling.Reconciler.RecoverOwnership | internal/reconciler/reconciler.go:528-595 | recovery has exactly the modelled effect on the stores and on the three fields |
| Reconciling.Reconciler.EnsureRecord | internal/reconciler/actions.go:24-108 | choosing the writers and writing to each is the sequence of modelled jobs of the host, with the actions in the same order |
| Reconciling.Reconciler.EnsureRecordForProvider | internal/reconciler/actions.go:113-402 | type, target, TTL and SRV data come from the hints and else from the instance; skip, conflict, stale deletion, update and creation have the modelled effect, recovered metadata is used up, and the process dies at the first stale SRV record without data |
| Reconciling.Reconciler.CleanupOrphans | internal/reconciler/orphan.go:18-76 | counting, the breaker at more than half and more than one of the known hosts, and deletion amount to the modelled cleanup of exactly the orphans |
| Reconciling.Reconciler.DeleteOrphanForProvider | internal/reconciler/orphan.go:112-660 | the four deleters, each with its own filter, loop and test for dry runs, amount to the modelled cleanup of one host at one instance |
| Reconciling.FirstWinsExactly | internal/reconciler/reconciler.go:287-368 | a host is discovered if and only if some entry names it whose labels make it a host name, or a service name if a hint asks for SRV, and the entry kept is the first |
| Reconciling.ExtractHostnames | internal/reconciler/reconciler.go:287-368 | workloads and then files, invalid names skipped, the first entry of a name kept |
| Reconciling.ChooseWriters | internal/reconciler/actions.go:85-100 | the loop keeps the first of each backend identity and record type |
| Reconciling.Analyze | internal/reconciler/actions.go:204-335 | the loops over existing records find the clash, the exact match, the stale SRV records and the record to change that the model names |
| Cache.IndexRecords | internal/reconciler/cache.go:25-61 | the index groups a listing by canonical name and keeps its order |
| Cache.Lookup | internal/reconciler/cache.go:66-118 | the cached lookup gives the same records in the same order as filtering the listing by canonical name and data type |
| Cache.HasMarker | internal/reconciler/cache.go:123-140 | true exactly when the listing holds a TXT record at the marker name that matches this ID |
| Cache.FallbackFindsNoMore | pkg/provider/instance.go:306-336 | every record the uncached query of a host finds is one the cached lookup finds |
| Cache.FallbackAgreesExactlyWhen | pkg/provider/instance.go:306-336 | the uncached query equals the cached one if and only if no data record differs from the host by a trailing dot |
| Cache.UncachedMarkerIsCached | pkg/provider/instance.go:437-462 | every marker the uncached check finds is one the cache finds |
| Providers.UpdateRecord | pkg/provider/instance.go:254-300 | native update, or deletion and creation with a missing record tolerated, with exactly the modelled calls |
| Providers.RecoverOwnedHostnames | pkg/provider/instance.go:479-518 | the loop yields exactly the recoverable markers of the listing, in order, with their metadata |
| Ownership.RenderRoundTrip | pkg/provider/provider.go:43-115 | whatever order the metadata is listed in, parsing a safely printed value gives the ID and the metadata without reserved keys |
| Ownership.ValueText | pkg/provider/provider.go:43-76 | the printed text, with `heritage=dnsweaver`, the ID if there is one, and every pair but the two reserved ones, sorted |
| Strings.AtMostExactly | pkg/provider/provider.go:60-66 | the order of the keys: a prefix first, and else by the first byte that differs |
| Ownership.RoundTripExactlyWhenSafe | pkg/provider/provider.go:43-115 | the codec is lossless on an ID and metadata if and only if the ID, the keys and the values have no comma and the keys no equals sign |
| Ownership.MatchesOneInstance | pkg/provider/provider.go:119-125 | a printed value matches exactly the ID in the last comma-separated piece of the printed pairs that starts with `instance=`, and the printed ID when there is none |
| Ownership.MatchesExactly | pkg/provider/provider.go:84-125 | any text matches an ID if and only if it is the bare heritage and the ID is empty, or it starts with the heritage and a comma and the last piece that starts with `instance=`, if any, gives the ID |
| Ownership.KeptExactlyWhen | pkg/provider/provider.go:119-125 | a printed value matches its own ID if and only if that ID has no comma and no such piece, or the last of them gives the same ID |
| Ownership.EveryOwnerKeptExactlyWhen | pkg/provider/provider.go:43-125 | metadata keeps the owner under every comma-free ID if and only if no piece of its printed pairs starts with `instance=` |
| Ownership.CommaChangesOwner | pkg/provider/provider.go:43-115 | a metadata value with a comma can make the value match another ID |
| Ownership.KeyChangesOwner | pkg/provider/provider.go:43-115 | so can a metadata key that starts with `instance=` |
| Ownership.ParsedIsSafe | pkg/provider/provider.go:84-115 | whatever text is parsed, the ID and metadata that come out have no separator in them and no reserved key |
| Ownership.MakeOwnershipValue | pkg/provider/provider.go:43-76 | the builder loop prints the sorted listing of the metadata, whatever order the map yields |
| Ownership.ParseOwnershipValue | pkg/provider/provider.go:84-115 | the loop over the parts computes the parse the laws are about |
| Names.MarkerRoundTrip | pkg/provider/provider.go:296-314 | encoding a host in a marker name and decoding it is the identity, and exactly the marker names decode |
| Names.MarkerInjective | pkg/provider/provider.go:296-314 | marker names of two hosts are the same canonical name only if the hosts are |
| Names.ValidNeverMarker | pkg/source/hostname.go:58-63 | no valid host or service name is the marker name of another |
| Names.ValidHostExactlyWhen | pkg/source/hostname.go:98-151 | a text is accepted as a host name if and only if it is, perhaps with a dot behind it, at most 253 characters of labels joined by dots, each of 1 to 63 letters, digits and hyphens with no hyphen first or last, the first perhaps `*` |
| Names.ValidServiceExactlyWhen | pkg/source/hostname.go:165-232 | and as a service name if and only if there are three or more labels, the first two with an underscore in front |
| Names.NormalizeExactly | pkg/source/hostname.go:58-63 | the canonical form, character by character |
| Glob.GlobToRegex | internal/matcher/matcher.go:154-192 | the index loop writes the text its tokens spell |
| Glob.Compiles | internal/matcher/matcher.go:121-149 | every glob with simple sets is accepted by the regular-expression reader, as the program of its tokens |
| Glob.GlobPreserved | internal/matcher/matcher.go:154-192 | on one-line hosts the compiled text with the case flag accepts exactly what the text of the glob means: `*` any run, `?` one character that is not a dot, `[` with a later `]` one character listed between them, anything else itself in either case |
| Glob.PreservedExactlyWhen | internal/matcher/matcher.go:154-192 | a host on which every glob with simple sets keeps its meaning is one without a line feed, and no other: a line feed fits `*` but not its translation |
| Glob.HandlesByGlobs | internal/matcher/matcher.go:94-117 | a host is handled if and only if some include glob and no exclude glob fits its canonical form |
| Glob.Matches | internal/matcher/matcher.go:94-117 | the two loops with early returns decide include and not exclude |
| Glob.NewMatcher | internal/matcher/matcher.go:52-88 | succeeds if and only if there is an include and every pattern compiles, and keeps all of them in order |
| Catalog.HostCatalog.LoadLocked | pkg/dnsupdate/catalog.go:95-149 | a successful load reflects exactly the chunks up to the first missing one, with each name indexed by the last chunk that holds it |
| Catalog.HostCatalog.Add | pkg/dnsupdate/catalog.go:228-293 | too long, already there, added or rolled back: what the zone, the chunks and the index are in each case |
| Catalog.HostCatalog.Remove | pkg/dnsupdate/catalog.go:300-357 | absent, removed or rolled back: what the zone, the chunks and the index are in each case |
| Catalog.HostCatalog.ReindexAfterDelete | pkg/dnsupdate/catalog.go:462-476 | the list loses the chunk and the rebuilt index is the index of the shorter list |
| Catalog.HostCatalog.Compact | pkg/dnsupdate/catalog.go:481-561 | the sorted names are packed, written up to the first failure and, after that, the surplus deleted as far as it goes; the local state is the packing, and the old index after a failed write |
| Catalog.FieldsOfJoin | pkg/dnsupdate/catalog.go:632-650 | names survive being joined into TXT data and split again if and only if none is empty or has white space |
| CatalogLaws.CatalogRefines | pkg/dnsupdate/catalog.go:228-358 | over every run of additions and removals that empties no chunk but the last, with failed writes, the chunks stay contiguous, non-empty, sorted, disjoint and within 100 names and 3500 bytes, and a fresh load gives exactly the names of at most 253 bytes added and not removed |
| CatalogLaws.AddKeeps | pkg/dnsupdate/catalog.go:257-293 | adding a new name keeps a well-formed zone well formed and adds exactly that name |
| CatalogLaws.FirstFitExactly | pkg/dnsupdate/catalog.go:207-275 | Add takes the first chunk that has fewer than 100 names and whose text, with the name, stays below 3500 bytes |
| CatalogLaws.BytesAreText | pkg/dnsupdate/catalog.go:192-203 | the bytes counted for a chunk are one more than those of its text |
| CatalogLaws.AddedLocally | pkg/dnsupdate/catalog.go:257-293 | after a successful Add the object has the chunks a fresh load reads, but for the order within the one written, and their index |
| CatalogLaws.RolledBackLocally | pkg/dnsupdate/catalog.go:280-286 | after a failed one it has the old names and the old index |
| CatalogLaws.RemoveExactlyWhen | pkg/dnsupdate/catalog.go:300-357 | a removal takes exactly the name from what a fresh load reads if and only if it empties no chunk in front of another |
| CatalogLaws.GapHides | pkg/dnsupdate/catalog.go:331-341 | emptying chunk k makes a fresh load return exactly chunks 0 to k-1, chunk 0 included |
| CatalogLaws.GapFilledReveals | pkg/dnsupdate/catalog.go:544-555 | whatever fills a gap makes a fresh load return the old names, the new chunk, and every name up to the next gap, and nothing else |
| CatalogLaws.CompactRepairs | pkg/dnsupdate/catalog.go:481-561 | after a removal that emptied a chunk, compaction on the same object with every write applied makes a fresh load return the whole remaining set |
| CatalogLaws.RemoveThenCompact | pkg/dnsupdate/catalog.go:300-561 | the same end to end on one object, from Remove to Compact: a fresh load gives every other name |
| CatalogLaws.CompactLeavesLast | pkg/dnsupdate/catalog.go:526-555 | a chunk survives compaction behind the new ones if and only if the gap was neither first nor last and fewer chunks than before are written |
| CatalogLaws.LocalCountIs | pkg/dnsupdate/catalog.go:331-345 | after such a removal the object counts one chunk less unless chunk 0 was emptied, and its index holds exactly the other names |
| CatalogLaws.AddRunsStaySmall | pkg/dnsupdate/catalog.go:257-275 | a run of additions from an empty zone that adds N names of B bytes reads back as at most 1 + N/100 + B/3247 chunks |
| CatalogLaws.CompactStaysSmall | pkg/dnsupdate/catalog.go:500-522 | compaction of N names of B bytes writes at most 1 + N/100 + B/3247 chunks |
| CatalogLaws.PackFills | pkg/dnsupdate/catalog.go:500-522 | packed chunks are non-empty and within limits, all but the last are full, and they hold exactly the names given |
| CatalogLaws.PackConserves | pkg/dnsupdate/catalog.go:500-522 | packing neither loses nor repeats a name or a byte |
| CatalogLaws.PackKeepsOrder | pkg/dnsupdate/catalog.go:500-522 | the packed chunks, one after the other, are the list |
| Trigger.PassesNeverOverlap | cmd/dnsweaver/main.go:455-479 | over every interleaving of any number of callers at most one pass is running |
| Trigger.OneOrTwoPasses | cmd/dnsweaver/main.go:462-478 | whenever the lock is free again its last holder ran one pass, and a second one if and only if it found the flag set |
| Trigger.NoTriggerIsLost | cmd/dnsweaver/main.go:455-479 | after a skipped trigger stored its flag, a pass has started since, or the holder is about to start one, or the flag is still set |
| Trigger.ServedExactlyWhen | cmd/dnsweaver/main.go:455-479 | once every call has returned, a stored trigger was served by a later pass if and only if at the store the holder had yet to look at the flag and act on it (holding, in its first pass, about to check, or committed), or the lock was taken since |
| Trigger.PendingExactly | cmd/dnsweaver/main.go:456-477 | the flag is set if and only if some store has not been swapped away since |
| Trigger.LockLeadsToPass | cmd/dnsweaver/main.go:455-471 | a trigger that takes the lock is followed by a pass |
| Trigger.StoreCanComeTooLate | cmd/dnsweaver/main.go:455-479 | two callers can both return with the flag set and no pass after the store |
| Trigger.Coalescer.TriggerReconcile | cmd/dnsweaver/main.go:455-479 | the code, with any moves of others between its statements, is a run of the state machine in which the caller makes 2, 5 or 7 moves |
| Diff.KeyExactly | internal/reconciler/comparison.go:128-147 | two records share a text key if and only if they agree on canonical host, type, target and SRV data, or one SRV record without data spells out the other's in its target; bars in hosts and other targets do no harm |
| Diff.CompareRecordSets | internal/reconciler/comparison.go:60-103 | each of the four lists holds exactly the records that belong in it, in the order the maps were walked |
| Diff.DesiredPartition | internal/reconciler/comparison.go:79-95 | each desired key is in exactly one of created, updated and same |
| Diff.ExistingPartition | internal/reconciler/comparison.go:79-103 | each existing key is in exactly one of deleted, updated and same |
| Diff.DiffReachesKeys | internal/reconciler/comparison.go:60-103 | applying the diff to the store leaves exactly the desired keys |
| Diff.DiffReachesTtlExactlyWhen | internal/reconciler/comparison.go:152-166 | after the diff every record has the TTL desired for its key if and only if, before it, each existing record with a desired key had that TTL or shared its key with a compared record that needs an update |
| Diff.OnePerKeyReaches | internal/reconciler/comparison.go:63-68 | with one existing record per key that condition holds, whatever is desired |
| Diff.SecondDiffIsEmpty | internal/reconciler/comparison.go:60-103 | once a diff is applied the next one has nothing to create, update or delete, duplicates or not |
| Diff.UpdatesChangeOnlyTtl | internal/reconciler/comparison.go:152-166 | an update never changes host, type, target or SRV data, only the TTL, so the test of SRV data never decides |
| Diff.DuplicateKeepsTtl | internal/reconciler/comparison.go:63-68 | of any two existing records with one key and different TTLs, desired as the second is, the first keeps its TTL |
| Dnsmasq.ParseUndoesFormat | providers/dnsmasq/client.go:258-293 | reading a printed record gives it back if and only if its host has no separator, nothing is empty and the address is of its type |
| Dnsmasq.FormatUndoesParse | providers/dnsmasq/client.go:414-425 | printing what was read gives the line back |
| Dnsmasq.FormatText | providers/dnsmasq/client.go:414-425 | the lines of A, AAAA and CNAME records, character by character |
| Dnsmasq.CreatedText | providers/dnsmasq/client.go:313-333 | Create leaves a file that has the line; else it puts the line behind the text, closed with a line feed, or behind the header of a new file |
| Dnsmasq.HeaderText | providers/dnsmasq/client.go:428-435 | the text of the header |
| Dnsmasq.RewrittenText | providers/dnsmasq/client.go:449-482 | WriteRecords writes the header and then every line with a line feed |
| Dnsmasq.TrimExactly | providers/dnsmasq/client.go:218 | what is left of a line is the stretch between the white space at its ends |
| Dnsmasq.InZoneExactly | providers/dnsmasq/client.go:235 | no zone takes every host; a zone takes its own name and the names under it |
| Dnsmasq.LongLineExactly | providers/dnsmasq/client.go:213-247 | the file is rejected for a line if and only if 65536 bytes of it stand without a line feed |
| Dnsmasq.DeleteFilters | providers/dnsmasq/client.go:376-409 | deletion keeps every other line that says anything, comments and unknown directives included, in order, and makes no line too long |
| Dnsmasq.DeleteExactly | providers/dnsmasq/client.go:353-409 | deleting a readable record filters exactly that record out of what the file is read as |
| Dnsmasq.CreateAppends | providers/dnsmasq/client.go:296-348 | creating a clean record appends exactly that record if its line is not a piece of the file, and changes nothing otherwise |
| Dnsmasq.CreatedIsReadExactlyWhen | providers/dnsmasq/client.go:313-317 | after Create the record is read if and only if it was read before or its line was nowhere in the file |
| Dnsmasq.LongerTargetHides | providers/dnsmasq/client.go:313-317 | with only a longer target for the same host in the file, Create leaves the record out |
| Dnsmasq.WriteThenRead | providers/dnsmasq/client.go:449-482 | reading back what WriteRecords wrote gives the records of the zone, in order |
| Dnsmasq.Client.Create | providers/dnsmasq/client.go:296-348 | what the file is after success, and that an unsupported type leaves it alone |
| Dnsmasq.Client.Delete | providers/dnsmasq/client.go:353-409 | what the file is after success, and that a line too long to scan is an error that leaves it alone |
| Dnsmasq.Client.ParseConfigContent | providers/dnsmasq/client.go:213-247 | the scanning loop computes the reading of the file, or fails on a line that is too long |
| Managing.ExactlyOne | pkg/provider/manager.go:116-190 | with unique names, in every reachable state each configured provider is in exactly one of ready and waiting, nothing else is, and none is ready twice |
| Managing.StartKeepsApartExactlyWhen | pkg/provider/manager.go:116-190 | configuring a provider keeps ready and waiting apart if and only if it is invalid, or new, or waiting and failing again |
| Managing.BackoffExactly | pkg/provider/manager.go:341-361 | after k failed retries a provider waits min(initial * factor^k, max) from its last attempt |
| Managing.CappedExactlyWhen | pkg/provider/manager.go:164-171 | in no run does a provider wait longer than the cap if and only if the initial interval is within it |
| Managing.NoAttemptTooEarly | pkg/provider/manager.go:252-267 | an attempt is made only when the whole wait since the last one has passed |
| Managing.NextAttemptExactly | pkg/provider/manager.go:252-361 | after a failed attempt, the first or the k-th retry, the provider is attempted again exactly from min(initial * factor^k, max) later on |
| Managing.PriorityKeptExactlyWhen | pkg/provider/registry.go:222-226 | over every run with unique names, the registry stands in the configured order if and only if at each recovery everything ready had been configured earlier |
| Managing.RecoveryKeepsOrderExactlyWhen | pkg/provider/registry.go:222-226 | the step of that: one recovery keeps the order if and only if everything ready was configured earlier |
| Managing.LateRecoveryReorders | pkg/provider/registry.go:222-226 | a provider that answers only at its first retry ends up behind one configured after it |
| Managing.Registry.CreateInstance | pkg/provider/registry.go:98-181 | succeeds if and only if valid, new and made; the list grows at its end and agrees with the index |
| Managing.Registry.Remove | pkg/provider/registry.go:280-302 | exactly the named instance leaves the list and the index, and the rest keeps its order |
| Managing.Manager.InitializeProvider | pkg/provider/manager.go:116-190 | ready or waiting, as the modelled step says; an error only for an invalid configuration |
| Managing.Manager.RetryPendingProviders | pkg/provider/manager.go:252-267 | exactly the due providers are attempted, each once, in the order the map yields them |

## Left out

- Orphans.CleanupJustified: speaks of the calls cleanup makes, not of the list of actions it returns for the log.
- Fixpoint.SecondCycleRests: supposes that no two writers of one host want one type on one backend, which fails only under a type hint; Sharing.BothServedExactlyWhen, Sharing.RivalsNeverRest and Sharing.RivalsMeetExactlyWhen say what happens with two such writers, and three or more are not covered.
- Outcome.CycleLeavesExactly: supposes that no other writer of the host uses the backend; Convergence.CycleSettles covers writers of other types there.
- Cleaning.CleanupLeavesExactly: supposes that no call fails; Orphans.CleanupJustified and Orphans.RefusedCycleForgets hold when calls do.
- CatalogLaws.CatalogRefines: names must not be empty or have white space, which Add does not check; by Catalog.FieldsOfJoin no other names are read back as they were written.
- Restart.KnownAgainExactlyWhen: supposes that ownership is tracked, that the host is spread out and that its metadata keeps the owner; a host for which that fails is covered by Restart.RecoversExactly alone.
- Managing.BackoffExactly: the multiplier is a whole number (2 by default); rounding of other multipliers and of waits beyond 2^53 ns is not modelled.
- Glob.GlobPreserved: ASCII patterns with simple sets; regex-mode patterns and negated, escaped or POSIX sets go straight to the regular-expression engine.
- Glob.NewMatcher: whether a regex-mode pattern compiles is what the modelled reader of regular expressions says; Go's engine accepts more syntax.
- Dnsmasq.Client.Create: says nothing of the file after a failed write, which may have been cut short.
- Dnsmasq.Client.Delete: says nothing of the file after a failed write either.
- ReconcileHostname, RemoveHostname and deleteRecord, which run outside the cycle's mutex.
- HTTP, SSH, TLS, TSIG and the clients of Docker, Kubernetes, Proxmox and Incus: replaced by the abstract stores and arbitrary workload lists.
- Listers and file sources: their result is an arbitrary list; only their failure is modelled.
- Logging and metrics, but for the log line that ends the process.
- HTTPS record data, provider IDs, record metadata and TXT wire escapes: no modelled decision depends on them.
- Non-ASCII text: lower-casing and white space are those of ASCII.
- Whether a text is an IP address: a parameter of the dnsmasq model.
- An instance's effective target is its target for the length of one cycle.
- The individual providers' wire formats; some of them delete by name and type only.
- Catalog.Contains, Clear and Stats, Manager.Start and Stop, Registry.Close and the status listings.
- Real time: watchers, debouncing and timeouts; the manager's clock is a parameter.
- getExistingRecords and getAllRecordsForHostname of the cache are one member, since their bodies select the same records.
