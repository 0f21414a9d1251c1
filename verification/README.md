# RustBlocker, verified model

RustBlocker is a DNS blocker: a server that answers queries from a blocklist, an allowlist and a rewrite map, forwards
the rest to upstream resolvers, keeps its lists in a database and in packed in-memory stores, refreshes them from
sources, and can follow a master server as a replica. This project models the parts of it that keep real state or do
real arithmetic, in the form the program has them (classes with updated fields, loops over offsets), and proves what
they are for.

| file | what it models |
|---|---|
| `Bytes.dfy`, `Lists.dfy`, `Lines.dfy`, `ListLines.dfy`, `Sorting.dfy` | byte strings, normalisation, what a list means, list-file lines and what each adds, sorting |
| `Arena.dfy`, `DomainStore.dfy`, `StoreRuns.dfy` | the packed domain store: arena of length-prefixed records, two hash indexes, lazy compaction |
| `Tables.dfy`, `Ownership.dfy` | the list tables as relations, their transactions, and who owns a row over whole runs |
| `Database.dfy`, `Server.dfy`, `Runtime.dfy` | the database functions, the handlers that pair a table with a running store, and every interleaving of them |
| `Handler.dfy` | the decision for one DNS request |
| `Forwarder.dfy` | upstream health, ranking, and the adaptive and parallel races |
| `Manifest.dfy`, `Sync.dfy` | the replica protocol and the text its manifest hashes |
| `Throttle.dfy` | the login throttle |
| `Trend.dfy` | the query-trend buckets |
| `DnsWire.dfy`, `DnsMessage.dfy`, `DnsRoundTrip.dfy` | the probe's DNS encoder and parsers (RFC 1035 sections 4.1 and 4.1.4, RFC 6891 section 6.1.2, RFC 8914 section 2) |
| `Civil.dfy` | civil dates from day numbers (leap rule of RFC 3339, Appendix C) |

Conventions. Names and texts are sequences of bytes. The store's hash is an arbitrary function to 64 bits, so every
theorem about stores holds under any collisions. Clocks, schedules, network outcomes and the order in which a hash map
is visited are parameters or nondeterministic choices, so theorems hold for all of them. Saturating, truncating and
wrapping arithmetic is written out; the trend's unchecked additions wrap, as they do in a release build. Ghost fields
record history (the records of an arena, bytes freed and copied, the moments a replica read its data) and change no
result.

Properties that turned out false of the code are kept as results, each with the exact condition under which the code
does meet them:

- the prune asks for owners of any list type, so a swap may keep a row nobody owns (`Ownership.SwapExactIff`) and the
  order of two refreshes may show (`Ownership.RefreshesCommuteIff`, with `Ownership.SharedRowBreaksCommutation`);
- a posted name that ends in two dots is stored as a row that reads back as another name (`Runtime.AddAgreesIff`,
  with `Runtime.TwoDotsDisagree`);
- a compiled line may not read back (`Lines.ReadsBackIff`), and then neither does the file, whatever else it holds
  (`Lines.CompiledFileReadsBackIff`);
- a refresh whose fetch outlived its source leaves rows to an id that is gone (`Ownership.OrphansIffLate`, with
  `Ownership.LateRefreshOrphans`);
- a poll ends wrong if the hash was known and the data beside it wrong (`Sync.EndsRightIff`), which happens in a run
  of a sound world (`Sync.ReturnGoesUnnoticed`);
- once names hold newlines the manifest's text no longer determines the table (`Manifests.NewlineMakesTextAmbiguous`,
  `Manifests.TextIsItsOwnIff`); between tables free of newlines it does (`Manifests.TextDeterminesTable`);
- the announced wait is cut off to whole seconds (`Throttle.WaitAnnounced`);
- the trend's axis may end early when its 64-bit arithmetic saturates or wraps (`Trend.LastTimestampIff`).

## Model

| member | source | states |
|---|---|---|
| `Bytes.ToLowerIdempotent` | src/lists.rs:467-474 | lower-casing twice is lower-casing once |
| `Bytes.NormalizeStableIff` | src/lists.rs:467-474 | normalising again changes nothing exactly when no second trailing dot is left |
| `Bytes.NormalizeByBytes` | src/lists.rs:467-474 | a normalised name holds no capital letter: capitals become small, every other byte stays, and one dot at the end is cut off |
| `Bytes.NormalizeAlikeIff` | src/lists.rs:467-474 | two names normalise alike if and only if they differ in the case of the 26 letters and one dot at the end only |
| `Lists.EntryInverse` | src/lists.rs:180-193 | an exact or wildcard entry comes from one normalised name only |
| `Lists.EntryByBytes` | src/lists.rs:180-193 | `*.` and 1 to 65535 bytes stand for a wildcard, any other 1 to 65535 bytes for an exact name, anything else for nothing |
| `Lists.ListByName` | src/lists.rs:154-221 | what insert, remove and merge leave, name by name |
| `Lists.RemoveUndoesAdd` | src/lists.rs:180-221 | removing right after inserting restores the list if and only if the insert was new or added nothing |
| `Lists.MatchesBySuffix` | src/lists.rs:269-286 | looking up the parent suffixes is the same test as scanning every entry |
| `Lists.WildcardSkipsBareName` | src/lists.rs:269-286 | a wildcard alone never matches its own bare name |
| `Arena.BucketNames` | src/lists.rs:355-362 | the offsets of a bucket decode to exactly the listed names with that hash, whatever was appended later |
| `Arena.ContainsIsMembership` | src/lists.rs:355-362 | the hash lookup with byte comparison answers set membership under any hash function |
| `Arena.BucketPacked` | src/lists.rs:342-348 | within one bucket the records are whole and do not overlap |
| `Arena.RecordsApart` | src/lists.rs:311-352 | the records at any two different positions, whatever slot and hash, share no byte |
| `Arena.DecodeLast` | src/lists.rs:396-408 | a record decodes to the name pushed, and its size is two bytes more than the name |
| `Arena.KillBucket` | src/lists.rs:364-394 | dropping the offsets of a name from its bucket is the same as turning its records into holes |
| `Arena.KillDropped` | src/lists.rs:364-394 | the offsets dropped account exactly for the entries and bytes removed |
| `Arena.KillOtherBucket` | src/lists.rs:364-394 | no other bucket of either index changes |
| `Arena.KillNames` | src/lists.rs:364-394 | only the removed name leaves its index, and no name is ever stored twice |
| `Arena.ArenaBytes` | src/lists.rs:342-348 | arena length is the bytes of exact, wildcard and dead records together |
| `Arena.DistinctBytes` | src/lists.rs:311-340 | with no name stored twice the bytes in use depend on the set of names alone |
| `Stores.OffsetsDecode` | src/lists.rs:311-352 | every offset in an index starts a live record of the right hash, and a bucket's records do not overlap |
| `Stores.DomainStore.RecordsDisjoint` | src/lists.rs:311-352 | across both indexes of a store every offset starts a whole record of a domain listed there under its hash, and no two positions share a byte |
| `Stores.RetainOffsets` | src/lists.rs:364-394 | keeps exactly the offsets that are not hits and adds up the freed bytes |
| `Stores.DropHits` | src/lists.rs:364-394 | one bucket loses its hits or disappears, the count falls by as many, every other bucket is untouched |
| `Stores.RemoveFromIndex` | src/lists.rs:364-394 | the index, count and freed bytes are those of the log without the name |
| `Stores.AllOffsets` | src/lists.rs:154-168 | visiting the buckets in any order names every listed domain exactly once |
| `Stores.DomainStore.constructor` | src/lists.rs:16-28 | a new store is empty and valid |
| `Stores.DomainStore.SpaceBound` | src/lists.rs:200-266 | arena length is live bytes plus dead bytes, three times the arena is at most four times the live bytes, counts are set sizes, an empty store has an empty arena |
| `Stores.DomainStore.PushDomain` | src/lists.rs:342-348 | appends one record and returns where it starts |
| `Stores.DomainStore.InsertNormalized` | src/lists.rs:311-340 | adds the entry, refuses names over 65535 bytes, and is true exactly when it was new |
| `Stores.DomainStore.Insert` | src/lists.rs:180-193 | adds the entry of the name in small letters without its last dot, and is true exactly when it was new |
| `Stores.DomainStore.Merge` | src/lists.rs:154-168 | the union of both stores for any bucket order |
| `Stores.DomainStore.ReplaceWith` | src/lists.rs:172-174 | takes over the other store's contents, arena and holes |
| `Stores.DomainStore.Remove` | src/lists.rs:200-221 | removes the wildcard the name spells and the exact name, keeping at most a quarter of the arena dead |
| `Stores.DomainStore.MaybeCompact` | src/lists.rs:224-233 | restores the waste bound without changing the contents |
| `Stores.DomainStore.Compact` | src/lists.rs:236-266 | same contents, no holes, and the cost is the bytes written |
| `Stores.DomainStore.Rebuild` | src/lists.rs:236-266 | a fresh arena of exactly the live bytes holds the same sets |
| `Stores.DomainStore.Clear` | src/lists.rs:144-151 | nothing listed and an empty arena |
| `Stores.DomainStore.Matches` | src/lists.rs:269-286 | hash lookups on the name and its parent suffixes find a match exactly when a scan of every entry would |
| `Stores.DomainStore.InsertLine` | src/lists.rs:97-123 | one list-file line adds its entry, counted when new |
| `Stores.DomainStore.ParseLines` | src/lists.rs:97-123 | adds exactly the entries of the lines and counts the new ones |
| `Stores.DomainStore.CompileToFile` | src/lists.rs:290-309 | writes every entry once, ascending, with the count |
| `Stores.CompiledRestores` | src/lists.rs:290-309 | a compiled file, whatever bytes the names hold, parses back to the same sets if and only if every line is plain |
| `StoreRuns.Perform` | src/lists.rs:144-221 | each operation acts on the contents as it does on the plain pair of sets |
| `StoreRuns.OpByName` | src/lists.rs:144-221 | what each operation leaves listed, name by name |
| `StoreRuns.Run` | src/lists.rs:144-266 | over any run and any hash the store ends as the plain sets do, stays three quarters live, and all compactions copy at most three times the bytes freed by removes |
| `StoreRuns.SaveAndLoad` | src/lists.rs:97-123 | compiling to a file and parsing it into an empty store restores the same sets, with equal counts, if and only if every line is plain |
| `Lines.ReadsBackIff` | src/lists.rs:97-123 | a line, spaces inside it or not, reads back as the entry it was written for exactly when it is plain: no comment, no hosts prefix, nothing to trim, stable |
| `Lines.CompiledFileReadsBack` | src/lists.rs:290-309 | the lines of a list, joined and ended by a newline, split and parse back to the list |
| `Lines.CompiledFileReadsBackIff` | src/lists.rs:97-123 | the file of any list gives the list back if and only if each of its lines is plain: no other line, or part of one split at a newline, makes up for one that is not |
| `Lines.StreamInjective` | src/db.rs:1297-1325 | the stream of newline-free lines determines the lines |
| `Lines.SplitStream` | src/lists.rs:97-123 | splitting a stream of lines gives the lines back |
| `Lines.SplitEnds` | src/lists.rs:97-123 | lines end in a newline or in a carriage return and a newline, the last one also in nothing |
| `Lines.FileByName` | src/lists.rs:97-123 | a file lists a name exactly if one of its lines adds it |
| `Lines.LexLeIff` | src/lists.rs:290-309 | the order is by bytes: the first text begins the second or is smaller where they first differ |
| `ListLines.HostsLine` | src/lists.rs:97-123 | in both parsers a hosts line adds its second word and nothing else, whatever blanks and text stand around it |
| `ListLines.HostsLineAlone` | src/db.rs:264-293 | a hosts line without a second word adds nothing in either parser |
| `ListLines.OtherLine` | src/db.rs:264-293 | any other line but a comment adds the whole text between its blanks: to the store as it is, to the table as the row it spells if that is a name |
| `ListLines.CommentOrBlankLine` | src/lists.rs:97-123 | comments and blank lines add nothing in either parser |
| `ListLines.WordGivesRow` | src/db.rs:264-293 | a word gives the row in small letters without the dots at its end, exactly if that is a name, bare or behind `*.` |
| `ListLines.ValidNameIff` | src/db.rs:264-293 | a name is 1 to 253 bytes of dot-separated labels of 1 to 63 letters, digits, `-` or `_` |
| `Lines.ParsedRowIsStable` | src/db.rs:264-293 | every row the database parser accepts is stable under normalisation and fits in a record |
| `Lines.SortProperties` | src/lists.rs:290-309 | the sort gives an ascending permutation |
| `Sorting.SortEqualIff` | src/db.rs:1297-1325 | two listings sort to the same sequence exactly when they hold the same rows |
| `Tables.SourceRows` | src/db.rs:295-307 | a source is accepted exactly when it has ten distinct parsable rows, and yields exactly those |
| `Tables.ParsedRowsAreStable` | src/db.rs:309-336 | every imported row is stable under normalisation |
| `Tables.RowsByLine` | src/db.rs:309-336 | the rows of a text are exactly those its lines give |
| `Tables.RefreshIffTrusted` | src/db.rs:976-1098 | a refresh is refused and changes nothing exactly with fewer than 10 distinct rows, or from 10 rows on with fewer than a tenth of them; otherwise the source owns its new rows and the list loses of its old rows just those the source gave up that are neither manual nor another source's |
| `Tables.DeleteIsDropped` | src/db.rs:851-935 | a deleted source takes with it its ownership and the rows of its list that are neither manual nor another source's |
| `Databases.BuildStore` | src/db.rs:1099-1113 | a store built row by row holds the image of the rows |
| `Databases.Database.LoadDomainStore` | src/db.rs:1099-1113 | the store loaded from a table, in any row order, is the image of the table |
| `Databases.Database.AddDomain` | src/db.rs:605-627 | lists the normalised name and marks it manual |
| `Databases.Database.InsertDomainsFromContent` | src/db.rs:309-336 | lists and marks every row its lines give and nothing else, counts the new ones, and builds the store of just those rows |
| `Databases.Database.DeleteDomain` | src/db.rs:648-669 | deletes the row and its manual mark and leaves source ownership alone |
| `Databases.Database.ReplaceSourceDomains` | src/db.rs:976-1098 | refused without a change exactly with fewer than 10 distinct rows, or from 10 rows owned on with fewer than a tenth of them; otherwise the source owns exactly the new rows, rows nobody holds are pruned, and the rebuilt store is the image of the table |
| `Databases.Database.InsertSourceRows` | src/db.rs:976-1098 | owns and lists every new row of the source |
| `Databases.Database.DeleteSourceWithCleanup` | src/db.rs:851-935 | the source and its ownership go, rows nobody holds are pruned, and the rebuilt store is the image of the table |
| `Databases.Database.ApplyDomains` | src/sync.rs:566-634 | the table becomes exactly the payload and the store built is its image |
| `Ownership.SwapNoLoss` | src/db.rs:976-1098 | replacing one source's rows never drops a row that is manual or owned by another source |
| `Ownership.SwapExactIff` | src/db.rs:1060-1062 | from an exact state the lists stay exact if and only if no given-up row is kept for the other list's sources |
| `Ownership.RunNoLoss` | src/db.rs:851-1098 | over every run of adds, imports, refreshes and source deletes each list contains all its manual and owned rows |
| `Ownership.RunNoExtra` | src/db.rs:605-669 | while no row has sources of both types, no list ever holds a row nobody owns, whatever is deleted by hand |
| `Ownership.RunExact` | src/db.rs:851-1098 | while no row is shared and none is deleted by hand each list is exactly manual and owned rows together |
| `Ownership.RunManualListed` | src/db.rs:605-669 | manual rows stay listed in every run, deletes included |
| `Ownership.StepDoesEdit` | src/db.rs:605-1098 | every edit of a run does what it is for, row by row |
| `Ownership.RefreshesCommute` | src/db.rs:976-1098 | refreshes of different sources give the same tables in either order while no row is shared, hand deletes or not |
| `Ownership.RefreshesCommuteIff` | src/db.rs:976-1098 | from any state two refreshes commute if and only if they feed one list, or one is refused, or no row is given up by one, held by nobody else, and at the same time given up or taken up by the other |
| `Ownership.SharedRowBreaksCommutation` | src/db.rs:1060-1062 | a row owned by sources of both types stays blocked in one order and goes in the other, from an exact state |
| `Ownership.LateRefreshOrphans` | src/db.rs:1118-1196 | a refresh carried out however long after its source is gone brings the rows back, and they stay through every run that neither refreshes or creates that id again nor deletes one of them by hand |
| `Ownership.OrphansIffLate` | src/db.rs:1118-1196 | after any run an id that is gone owns rows if and only if some refresh of it was carried out while it was gone |
| `Runtime.StableImage` | src/lists.rs:180-193 | in a stable table, `*.n` is wildcard n and every other row is an exact name |
| `Runtime.ImageRemove` | src/api.rs:914-942 | removing a row from the store is removing it from the table |
| `Runtime.AddAgreesIff` | src/api.rs:893-912 | on every stable table, store and row agree about a posted name if and only if it is left without a second trailing dot, or says nothing while its row read back is listed already |
| `Runtime.TwoDotsDisagree` | src/api.rs:893-912 | posting `a..` makes the running store hold `a.` and the table a row that means `a` |
| `Runtime.AddKeepsStableIff` | src/api.rs:893-912 | the table stays stable if and only if the posted name leaves no second trailing dot |
| `Runtime.CommitAgrees` | src/db.rs:1148-1190 | a commit leaves exactly the install that makes the running store the image of its table again |
| `Runtime.StepInv` | src/api.rs:893-979 | every step of every task keeps the agreement invariant |
| `Runtime.RunInv` | src/db.rs:1118-1196 | the invariant holds at every point of every interleaving |
| `Runtime.FreeLockMeansAgreement` | src/api.rs:893-979 | whenever the mutation lock is free each running store is exactly the image of its table |
| `Runtime.MutualExclusion` | src/db.rs:58-60 | at most one task is past the mutation lock |
| `Runtime.JobGetsDone` | src/api.rs:893-979 | a job that meets no failure does to the tables exactly what it is for, row by row, gives the lock back and leaves agreement |
| `Servers.Server.AddListed` | src/api.rs:893-912 | the row and the packed store change together; the store stays the image if and only if the name is safe to add, full agreement is kept if and only if it leaves no second trailing dot |
| `Servers.Server.DeleteListed` | src/api.rs:914-942 | row and store entry go together, and agreement is kept |
| `Servers.Server.BulkImport` | src/api.rs:944-979 | committing the rows and merging the built store keeps agreement and counts the new rows |
| `Servers.Server.RefreshSource` | src/db.rs:1118-1196 | suspicious texts are refused and change neither table nor store; otherwise the rebuilt store is installed after the commit and agreement is kept |
| `Servers.Server.DropSource` | src/api.rs:1234-1264 | deleting a source and installing the rebuilt store keeps agreement |
| `Servers.Server.ApplySnapshot` | src/sync.rs:566-634 | a replica's apply makes table and store the payload together |
| `Handlers.MatchesIsCovered` | src/handler.rs:433-443 | matching in a store that agrees with its table is being covered by one of the rows |
| `Handlers.RowCoversByBytes` | src/lists.rs:269-286 | a row `*.x` covers exactly the names ending in `.x`, any other row itself |
| `Handlers.CoveredHoweverSpelled` | src/handler.rs:362-443 | a listed name is covered however its letters are spelled, with a dot at the end or not |
| `Handlers.SpellingDoesNotMatter` | src/handler.rs:306-514 | only one outcome fits a question, and it is the same for every spelling of the name |
| `Handlers.HandleRequest` | src/handler.rs:306-514 | the decision order, on database rows and decided by packed-store lookups: an IN query with no rewrite for its type is blocked exactly when a blocklist row covers it and no allowlist row does, with the response and code of its type and the mode |
| `Forwarders.HealthBounded` | src/forwarder.rs:77-113 | the score stays between the default and the samples, and failures within 16 |
| `Forwarders.HealthByNumbers` | src/forwarder.rs:77-113 | score, failures and rank score after each kind of sample, in numbers |
| `Forwarders.ChargedStaysBounded` | src/forwarder.rs:77-113 | one whole resolve keeps every upstream's score and failures within those bounds |
| `Forwarders.ResolveStaysBounded` | src/forwarder.rs:309-358 | from bounded health every whole resolve leaves all upstreams within the same bounds |
| `Forwarders.ChargedByPart` | src/forwarder.rs:360-581 | what a resolve costs or gains each upstream by its part in it, in numbers |
| `Forwarders.FailureCosts` | src/forwarder.rs:77-113 | a failure never improves the rank score and costs exactly half a second, up to sixteen times |
| `Forwarders.SuccessGains` | src/forwarder.rs:77-113 | a success no slower than the score never makes the rank score worse |
| `Forwarders.HealthConverges` | src/forwarder.rs:87-100 | repeated successes at one latency reach it exactly from above and stop within seven of it from below |
| `Forwarders.InsertRankedProperties` | src/forwarder.rs:275-284 | ranking inserts keep order, and equal scores keep their configured order |
| `Forwarders.Forwarder.AdaptiveOrder` | src/forwarder.rs:275-284 | all upstreams once each, by score, equal scores in configured order |
| `Forwarders.Forwarder.RecordHedgedMisses` | src/forwarder.rs:292-300 | every launched upstream but the winner is charged at least the winner's time, no other changes |
| `Forwarders.Forwarder.RecordSuccess` | src/forwarder.rs:286-290 | every score stays within any bounds that allow the latency, a success no slower than the score loses no place in the ranking, and no other upstream's health changes |
| `Forwarders.Forwarder.RecordFailure` | src/forwarder.rs:302-306 | every score stays within its bounds, the rank score rises by half a second until sixteen failures are counted, whoever ranked ahead still does, and no other upstream's health changes |
| `Forwarders.Forwarder.Lose` | src/forwarder.rs:534-543 | a failure is charged, its error kept, and the next upstream launched if there is one and room for it |
| `Forwarders.Forwarder.Race` | src/forwarder.rs:485-555 | every event is the one the schedule says, the hedge timer while there is room for it included, and so are the timeout and the time of the answer; launches follow the order, one for the start, each failure and each hedge; the load stays under the cap, at most 2n events, and it gives up only after all failed with the last error |
| `Forwarders.SetupsByNumbers` | src/forwarder.rs:399-500 | a race starts with one request and has at least one and at most the set number in flight, the parallel strategy starts all |
| `Forwarders.HedgeWins` | src/forwarder.rs:547-551 | when the hedge timer fires and the second upstream answers first, its answer is taken |
| `Forwarders.Forwarder.ResolveAdaptive` | src/forwarder.rs:469-581 | runs by its schedule over the ranking; unless the timeout fires it answers if and only if some upstream does; health ends as each upstream's part in the race says |
| `Forwarders.Forwarder.ResolveParallel` | src/forwarder.rs:399-467 | runs by its schedule with all in flight; unless the timeout fires it answers if and only if some upstream does, within n events |
| `Forwarders.Forwarder.ResolveOne` | src/forwarder.rs:360-397 | a lone upstream's answer or error is passed on, and a timeout charges nothing |
| `Forwarders.Forwarder.Resolve` | src/forwarder.rs:309-358 | both strategies run by their schedules and answer under the same condition, and an upstream error means that all failed |
| `Manifests.DecimalInjective` | src/db.rs:1230-1247 | a port's decimal text determines it |
| `Manifests.DecimalStandsFor` | src/db.rs:1230-1247 | the decimal text stands for the number, most significant digit first and without leading zeros |
| `Manifests.ServerLineInjective` | src/db.rs:1230-1247 | an address:port line determines both fields, colons in the address included |
| `Manifests.TextDeterminesTable` | src/db.rs:1229-1325 | the hashed text is the same exactly when the tables hold the same rows: names as a set, servers as a multiset |
| `Manifests.NewlineMakesTextAmbiguous` | src/db.rs:1297-1325 | a name holding a newline makes two different tables hash alike |
| `Manifests.TextIsItsOwnIff` | src/db.rs:1297-1325 | with newlines allowed, a table's text belongs to it alone if and only if it is empty or one name that no newline parts into two different names in order |
| `Sync.SnapshotIsSame` | src/db.rs:1342-1370 | the payload holds the same rows as the table it was read from |
| `Sync.WrongDataSticks` | src/sync.rs:146-169 | one visit: an entry recorded beside other data than its hash names is not fetched again while the master shows that hash |
| `Sync.SettledPoll` | src/sync.rs:130-180 | what a poll did to a category, once the master settled, leaves it right exactly if its hash was new or its data was right before |
| `Sync.PollDoes` | src/sync.rs:130-180 | a complete poll does to each category what its two moments say, the hash read before any snapshot is requested |
| `Sync.RunStaysStuck` | src/sync.rs:82-182 | data wrong beside the settled master's own hash stays wrong in every run whose manifests can be fetched, wherever it is aborted |
| `Sync.RunKeepsProtocol` | src/sync.rs:82-182 | in every run a failed login or manifest is followed by nothing but a login, a login that succeeds by a manifest, and a manifest by snapshots and the next manifest |
| `Sync.RunStaysRight` | src/sync.rs:82-182 | once the master settled, a category that is right stays so in every run, whatever fails |
| `Sync.RunRecovers` | src/sync.rs:101-169 | whatever was stuck, a run in which a login succeeds after the master settled and the poll after it goes through ends equal to the master, also with a master that returned |
| `Sync.BlinkIsSound` | src/sync.rs:130-169 | a sound collision-free world in which every request succeeds and the master leaves its content and returns to it |
| `Sync.ReturnGoesUnnoticed` | src/sync.rs:82-182 | in that world a run from an empty replica blocks, at whatever request it is looked at after its first poll, a name the master does not hold, under the hash the master keeps showing |
| `Sync.KnownHashMeansSameData` | src/sync.rs:146-169 | without collisions and without a return to earlier content, an equal hash means equal data although hash and data were read at different moments |
| `Sync.Replica.Login` | src/sync.rs:101-124 | every login attempt forgets the known hashes and nothing else |
| `Sync.Replica.FetchManifest` | src/db.rs:1203-1328 | each hash is the master's at some moment within the fetch |
| `Sync.Replica.Visit` | src/sync.rs:146-169 | a known hash or a failed fetch changes nothing; otherwise the hash is recorded, applied or not, for one more request |
| `Sync.Replica.Record` | src/sync.rs:156-163 | only the visited category changes, and its data stays tied to the moment it was read |
| `Sync.Replica.Poll` | src/sync.rs:130-180 | makes the poll's requests up to an abort; complete, it does to each category what its two moments say, and once the master settles it ends right if and only if its hash was new or its data was right before |
| `Sync.Replica.Run` | src/sync.rs:82-182 | makes the protocol's requests up to the abort, each in its turn; ends equal to the settled master if some login and the poll after it went through; through any failures a known hash is the master's at a moment not after its data was read |
| `Sync.Replica.InSync` | src/sync.rs:101-181 | in every reachable state a known hash that is current means current data |
| `Sync.Replica.Converge` | src/sync.rs:101-181 | whatever happened before, once the master settles the next poll is complete unless its manifest fails, and makes blocklist, allowlist and upstreams equal to the master's |
| `Throttle.CheckIsInvisible` | src/auth.rs:72-84 | pruning and expiry never change what is held against any client |
| `Throttle.RefusedIff` | src/auth.rs:72-96 | for any table, an attempt is refused exactly if the client has five failures in a running minute, or none of its minutes runs and those of 4096 clients do |
| `Throttle.CheckByClient` | src/auth.rs:72-84 | a check forgets clients whose minute is over once 4096 are tracked, and the one checked in any case |
| `Throttle.FailureByClient` | src/auth.rs:98-109 | a failure counts in the running minute or starts one, for this client only |
| `Throttle.WaitAnnounced` | src/auth.rs:79-92 | the announced wait is 1 to 60 s; a second more always suffices, and the wait itself exactly if nothing was cut off |
| `Throttle.FailuresPerMinute` | src/auth.rs:56-109 | every half-open minute holds at most 2n + 7 recorded failures of a client with at most n open attempts: nine when n is 1 |
| `Throttle.RunThrottled` | src/auth.rs:72-109 | the invariants behind it at every point of a run |
| `Throttle.BoundIsReached` | src/auth.rs:72-109 | for every overlap n there is a run with 2n + 7 failures in a minute, so the bound is exact |
| `Throttle.NineInAMinute` | src/auth.rs:72-109 | nine failures in a minute do occur with one attempt at a time |
| `Throttle.LoginThrottle.RetryAfterAt` | src/auth.rs:72-96 | table and verdict after a check, as the specification says |
| `Throttle.LoginThrottle.Begin` | src/auth.rs:56-62 | refused by the throttle, refused for want of a slot, or one slot taken |
| `Throttle.LoginThrottle.RecordFailureAt` | src/auth.rs:98-109 | one more failure is held against this client, saturating, and nothing against any other |
| `Throttle.LoginThrottle.RecordSuccess` | src/auth.rs:68-70 | nothing is held against the client any more |
| `Trend.Place` | src/stats.rs:466-474 | every row on the axis has exactly one of the 40 buckets, every other row none |
| `Trend.TimestampsAscend` | src/stats.rs:494-503 | bucket timestamps never decrease and never pass the end |
| `Trend.LastTimestampIff` | src/stats.rs:494-503 | the last timestamp is the end if and only if the span is within seven of the largest 64-bit value and adding forty buckets does not overflow |
| `Trend.RowBetweenTimestamps` | src/stats.rs:466-503 | each row lies between the timestamps around its bucket |
| `Trend.RowOnChart` | src/stats.rs:462-503 | so does every row of any span within seven of the largest value that ends forty seconds below it |
| `Trend.TrendConserves` | src/stats.rs:466-503 | total, blocked and forwarded over the 40 points equal the counts of the rows on the axis |
| `Trend.EarliestIsLeast` | src/stats.rs:444-455 | the earliest row of the log is one of the rows and none is before it |
| `Trend.LimitedAxis` | src/stats.rs:444-464 | the axis starts at the later of the days asked for and the days kept before the end, or at the earliest row if nothing limits what is kept and that is later |
| `Trend.BucketWidth` | src/stats.rs:462-463 | a bucket is a fortieth of the span, rounded up, and at least a second |
| `Trend.PlaceByNumbers` | src/stats.rs:466-474 | buckets are whole widths from the start, the last one takes what is left |
| `Trend.OneRowCounts` | src/stats.rs:466-493 | every row counts in the total, blocked and forwarded ones in their own count |
| `Trend.UnlimitedAxis` | src/stats.rs:444-461 | without limits the axis starts at the earliest row, so the rows on it are exactly those up to the end; with no rows it covers forty seconds |
| `Trend.FillBuckets` | src/stats.rs:466-493 | each bucket ends with the counts of its rows for any order of the groups |
| `Trend.GetQueryTrend` | src/stats.rs:431-503 | the points are the bucket counts on the computed axis |
| `DnsWire.SkipsEncodedName` | src/bin/xtask/core.rs:1794-1819 | skipping an encoded name consumes exactly its bytes, wherever it stands, pointers included |
| `DnsWire.SkipDnsName` | src/bin/xtask/core.rs:1794-1819 | on any bytes the loop ends in range with the specified result or error |
| `DnsWire.NameByFirstByte` | src/bin/xtask/core.rs:1794-1819 | which names are refused and as what, by their first byte |
| `DnsWire.EncodeDnsName` | src/bin/xtask/core.rs:1634-1645 | appends the encoded name exactly if every label has 1 to 63 bytes |
| `DnsWire.ByteOrder` | src/bin/xtask/core.rs:1647-1690 | numbers have their most significant byte first |
| `DnsMessages.ScanEdns` | src/bin/xtask/core.rs:1712-1728 | the option loop ends in range with the last extended error code or a truncation error |
| `DnsMessages.NoteRecord` | src/bin/xtask/core.rs:1691-1729 | one record updates the findings by section and type, or fails on bad SOA or option data |
| `DnsMessages.ParseDnsProbeResponse` | src/bin/xtask/core.rs:1647-1747 | on every byte string the parser ends, never reads out of range, and is the specified function |
| `DnsMessages.ParseDnsAResponse` | src/bin/xtask/core.rs:1749-1792 | on every byte string the parser ends, never reads out of range, and is the specified function |
| `DnsMessages.RefusedMessages` | src/bin/xtask/core.rs:1647-1792 | which messages, questions, records, options and SOA data are refused, and as what |
| `DnsRoundTrips.ProbeRoundTrip` | src/bin/xtask/core.rs:1647-1747 | parsing any encoded message, whatever follows it, reports exactly its flags, counts, SOA, types and last extended error |
| `DnsRoundTrips.ReportedTypes` | src/bin/xtask/core.rs:1691-1709 | SOA and RRSIG are reported exactly if some record has the type |
| `DnsRoundTrips.ReportedOpt` | src/bin/xtask/core.rs:1710-1711 | OPT is reported exactly if an additional record has the type |
| `DnsRoundTrips.ReportedEdePresent` | src/bin/xtask/core.rs:1710-1728 | an extended error is reported exactly if an additional OPT record holds option 15 with two or more bytes |
| `DnsRoundTrips.ReportedEde` | src/bin/xtask/core.rs:1710-1728 | the code reported is that of the last such option of the last such record |
| `DnsRoundTrips.ReportedSoa` | src/bin/xtask/core.rs:1692-1708 | the reported owner, TTL and minimum are those of the last SOA of the authority section |
| `DnsRoundTrips.AddressesRoundTrip` | src/bin/xtask/core.rs:1749-1792 | an encoded NOERROR or NXDOMAIN message yields its IN A addresses in order, any other code is that error |
| `DnsRoundTrips.BuildProbe` | src/bin/xtask/core.rs:1597-1622 | the packet built field by field is the encoding of a one-question message with an OPT record |
| `DnsRoundTrips.ProbeQueryParses` | src/bin/xtask/core.rs:1608-1622 | the packet parses as one additional OPT record and nothing else |
| `DnsRoundTrips.QueryBytes` | src/bin/xtask/core.rs:1608-1622 | the whole packet of one query, byte by byte |
| `DnsRoundTrips.AddressText` | src/bin/xtask/core.rs:1749-1792 | an address is written as its four bytes in decimal, in order, with dots between |
| `Civil.DaysBeforeYearClosed` | src/bin/xtask/baselines.rs:1925-1937 | the day count added up year by year has the closed form the conversion relies on |
| `Civil.DayNumberInjective` | src/bin/xtask/baselines.rs:1925-1937 | different dates have different day numbers |
| `Civil.CivilIsInverse` | src/bin/xtask/baselines.rs:1925-1937 | every integer day number maps to a valid date whose day number it is |
| `Civil.CivilOfDayNumber` | src/bin/xtask/baselines.rs:1925-1937 | every valid date comes back from its day number |
| `Civil.CivilStepsThroughCalendar` | src/bin/xtask/baselines.rs:1925-1937 | one day more is the next calendar day |
| `Civil.CivilOfDayZero` | src/bin/xtask/baselines.rs:1925-1937 | day zero is the first of January 1970 |

## Left out

- Sockets, TLS, ACME, HTTP and DNS libraries, the web interface, self-update and installation are not part of this model.
- The SQL engine: tables are relations and a transaction is one step; errors swallowed by the code and rows' ids are not modelled.
- Client disconnects that cancel a handler between commit and install are not modelled.
- Lower-casing and white space are ASCII; Unicode letters and spaces are not modelled.
- Arenas of 4 GiB or more: the offset cast is unchecked, so members that append to a store require room (`Fits`, `Loadable`).
- Names that end in two dots: `AddListed` says exactly when they break agreement; the theorem over interleavings excludes them.
- Deleting a listed domain by id reads the row and deletes it in two statements; the model does both in one step.
- Re-adding a source URL with another list type is not modelled; a source id keeps its type.
- Rewrites: table and running map are not compared, since the table ignores a repeated domain and the map overwrites it.
- Replication of settings, sources and rewrites is not modelled; it is partial by design. The manifest's hash is an arbitrary function, injective where stated.
- Local edits on a replica between polls are not modelled; a known hash says nothing about them.
- Forwarder: response forwarding and its errors, the address list and reloads are not modelled; an upstream that never replies is one the schedule never completes before the timeout.
- Forwarder: concurrent resolves share the health scores and update them by a separate load and store, so updates can be lost; `Accounted` describes one resolve at a time.
- Throttle: password checking and sessions are not modelled.
- Throttle: the clock is read before the mutex is taken, so overlapping attempts may reach the table out of time order; `IsRun` assumes they do not.
- Trend: dates outside the range the database can format are not modelled; the grouped query's result is a parameter, and its differences are unbounded integers where the database has 64 bits.
- DNS probe: the socket exchange is not modelled; the two truncated-record messages are one error.
- Civil dates are over all integers; overflow of 64-bit day numbers is not modelled.
- DNS handler: query logging, statistics, extended-error encoding beyond its code, and the concurrency limit's counter are not modelled.
