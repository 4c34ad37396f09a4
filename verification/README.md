# A verified model of wpa_supplicant's tables, protocols and configuration

This project models the stateful core of the vendored wpa_supplicant 2.6 and of
`wpa_cli_oper`, and proves what that core promises over every input and every run.
`dafny verify dfyconfig.toml` checks all of it.

Each component has a specification on values (the state as a datatype, one function for
each C function), lemmas about all runs of that specification, and, where the C code works
in place, a class or methods with the same loops, proved equal to the specification.

| component | specification | what is proved about it | the code's loops and fields |
|---|---|---|---|
| BSS table (`bss.c`, `BSS` commands of `ctrl_iface.c`) | BssModel | BssInvariants, BssRuns, BssProperties, BssSightings, BssConditions, BssMemory, BssMemoryRuns, BssRange | BssTable, BssRange, VendorIe |
| GAS queries (`gas_query.c`) | GasModel | GasInvariants, GasRuns, GasSafety, GasCore, GasDelivery, GasSteps, GasExchange, GasRetry | GasQuery |
| network priority lists (`config.c`, `config_file.c`) | PriorityLists | PriorityLists | NetworkConfig |
| configuration text (`config.c`, `config_file.c`) | ConfigText, ConfigLists | ConfigRoundTrip, ConfigComments, ConfigParsing, ConfigLists, ConfigListParsing, ConfigFileLists, ConfigWholeFile | ConfigReader, ConfigValues, ConfigWholeFile |
| event queues (`ctrl_iface_unix.c`) | EventQueue | EventQueue, EventQueueRuns, EventQueueHistory | ControlInterface |
| background scans (`bgscan_learn.c`, `bgscan_simple.c`) | ScanLearning, BackgroundScan | ScanLearning, BackgroundScan, BackgroundSignals | ScanLearning, BackgroundScan |
| algorithms (`compat.c`, `ctrl_iface.c`) | SundaySearch, HeaderChecksum | the same | the same |

Collections holds what they share: octets, optional values, sequences.

## Where the code does less than it seems to

These are results of the project: a lemma shows the failure, and another says exactly when
the code does meet the property.

- An access point can be filed twice when the BSSID filter rejects it, because the lookup
  applies the filter and the addition does not (BssProperties.DuplicateKey, BssInvariants.SightUnique).
- The eviction pass over unknown entries does not ask whether an entry is in use, so that
  `current_bss` can be freed (BssProperties.CurrentEvictedInARun, BssProperties.CurrentStaysLive).
- A reply to `BSS RANGE=` is no list of whole entries when an ANQP element, the flags or an
  information element do not fit: the piece is left out, or cut, and the next entry still
  follows (BssRange.PieceLost, BssRange.WholeEntriesIff).
- A GAS response that arrives before the radio has started the query leaves radio work, or a
  timer, that refers to a freed query; so does `gas_query_deinit` with work still queued, which
  the comment in `wpa_supplicant.c:511-522` warns of; its only caller therefore removes the queued
  work first (`wpa_supplicant.c:523-525`) (GasSafety.SafeStepIff, GasRetry.EarlyAnswerReachable,
  GasRetry.DeinitReachable). What GasCore states holds in spite of it.
- The single GAS retry forgets how many fragments were accepted but keeps their octets
  (GasRetry.RetrySpoilsResponse, GasDelivery.SuccessUnspoiledIff).
- Reading a second configuration file, as `wpa_supplicant.c:4709-4710` does, numbers its
  networks from 0 again (NetworkConfig.Config.ReadOnTop, NetworkConfig.ReadIdsDistinctIff).
- An error in that second file, or a second file that cannot be opened, frees the configuration
  read before, while its owner ignores the result and keeps the pointer
  (NetworkConfig.Config.ReadMalformed, NetworkConfig.Config.ReadFile). Only `Android.mk:18` defines
  WPA_IGNORE_CONFIG_ERRORS, which would leave this out; the model is of the build without it.
- A frequency list whose text needs more than ten octets for each value is cut
  (ConfigLists.FreqsLost, ConfigLists.FreqsRoundTripIff).
- An address list whose line exceeds 1999 octets loses addresses when it is read again, also
  where the parser is told to abort on errors: a cut between two addresses is not noticed, and
  one before a mask turns the address into one with a full mask (ConfigFileLists.LongAddrLine,
  ConfigFileLists.AddrLineIff).
- The short scans take longer than the long interval that the comment in
  `bgscan_simple.c:56-60` allows them (BackgroundScan.ShortOverrun, BackgroundScan.ShortWaiting).
- A fall of the signal is to bring the next scan within a short interval, but the code looks at the
  time of the last request and not at the timer, which the results of a scan restart: the scan may
  stay too far off (BackgroundSignals.FallScansLate, BackgroundSignals.FallScansSoon).
- A comment with a quotation in it is not removed from a line, because a comment is looked for behind
  the last quote only (ConfigComments.QuotationKept, ConfigComments.CommentedLineIff).
- The substring search treats an occurrence at position 0 of the pattern as none
  (SundaySearch.TrapMissed, SundaySearch.SearchIsNaiveIff).

Counters are unbounded in the model. The two members that depend on a width say so:
HeaderChecksum.AddWords (32 bits) and GasModel.RxComebackResp, whose `next_frag_id` is
reduced modulo 256 and is proved never to wrap.

## Model

| member | source | states |
|---|---|---|
| BssRuns.ReachableInv | wpa_supplicant-2.6/wpa_supplicant/bss.c:217-243 | in every run, removals on their own included, the update list and the id list hold the same entries, `num_bss` of them; ids strictly ascend, `last_update_idx` does not decrease along the update list, `last_scan_res` is duplicate-free and holds exactly the live entries sighted in this round, and a pending connect work refers to a live entry |
| BssRuns.StepInv | wpa_supplicant-2.6/wpa_supplicant/bss.c:691-785 | each operation (round start, scan result, round end, both flushes, the removal of an entry on its own when a connection is lost, a new signal level, changes of association and configuration) keeps that invariant |
| BssInvariants.SightInv | wpa_supplicant-2.6/wpa_supplicant/bss.c:735-785 | filing one scan result, with its eviction or refresh, keeps it whatever the BSSID filter |
| BssInvariants.SightUnique | wpa_supplicant-2.6/wpa_supplicant/bss.c:254-267 | a sighting keeps (BSSID, SSID) pairs unique if and only if the filter accepts the result or no surviving entry has its key |
| BssRuns.RunUnique | wpa_supplicant-2.6/wpa_supplicant/bss.c:254-267 | pairs stay unique over every run whose results pass the filter |
| BssProperties.DuplicateKey | wpa_supplicant-2.6/wpa_supplicant/bss.c:258-258 | a filter that rejects an access point lets it be filed twice: a run of two results |
| BssProperties.ReachableSightings | wpa_supplicant-2.6/wpa_supplicant/bss.c:634-645 | in every state `last_scan_res` is the list of live entries in the order in which this round first sighted them |
| BssRuns.StepLimit | wpa_supplicant-2.6/wpa_supplicant/bss.c:442-452 | every operation keeps `num_bss` within `bss_max_count`; a configuration change does if and only if the new limit covers the table |
| BssRuns.LimitRises | wpa_supplicant-2.6/wpa_supplicant/bss.c:442-452 | an operation raises the limit if and only if it files a new entry in a full table all of whose entries are in use and known or WPS candidates, and then by exactly what is needed |
| BssProperties.EvictedIff | wpa_supplicant-2.6/wpa_supplicant/bss.c:397-419 | a sighting drops an entry if and only if it adds one to a full table and the entry is the victim |
| BssProperties.VictimIs | wpa_supplicant-2.6/wpa_supplicant/bss.c:381-419 | the victim is the first entry in update order that is neither known nor a WPS candidate, or else the first not in use |
| BssConditions.UnknownIff | wpa_supplicant-2.6/wpa_supplicant/bss.c:347-361 | an entry is unknown if and only if no configured network has its name and it is no WPS candidate |
| BssProperties.UsedKnownStays | wpa_supplicant-2.6/wpa_supplicant/bss.c:348-378 | an entry in use with a configured SSID is never evicted |
| BssProperties.CurrentStaysLive | wpa_supplicant-2.6/wpa_supplicant/bss.c:381-394 | an event leaves `current_bss` valid if and only if it is neither a new result in a full table whose first unknown entry is the current one nor the removal of the current entry |
| BssProperties.CurrentEvictedInARun | wpa_supplicant-2.6/wpa_supplicant/bss.c:381-394 | a run of three events that frees the current entry |
| BssRuns.EndIsExpiry | wpa_supplicant-2.6/wpa_supplicant/bss.c:839-863 | the end of a complete round leaves the update list without the covered, unused entries missed too often, in order, with misses counted |
| BssRuns.EndKeepsUsed | wpa_supplicant-2.6/wpa_supplicant/bss.c:839-863 | the end of a round removes no entry in use |
| BssProperties.SurvivesIff | wpa_supplicant-2.6/wpa_supplicant/bss.c:839-863 | an undisturbed entry is in the table if and only if its misses plus the complete rounds without a sighting stay below `bss_expiration_scan_count` |
| BssProperties.GoneForGood | wpa_supplicant-2.6/wpa_supplicant/bss.c:422-459 | an id that has left the table never returns |
| BssSightings.SightingFiled | wpa_supplicant-2.6/wpa_supplicant/bss.c:592-660 | a result that is not skipped leaves, last in update order, an entry with its BSSID, name, frequency, radio values and update time, no misses and this round as its last, and its elements unless a P2P element would be lost; every other entry that is left is unchanged |
| BssSightings.SightedIdIs | wpa_supplicant-2.6/wpa_supplicant/bss.c:254-267 | that entry is the first with the BSSID and name, if the filter accepts the BSSID and there is one, and else a new one |
| BssSightings.StaysIff | wpa_supplicant-2.6/wpa_supplicant/bss.c:839-863 | however often it is sighted again, an entry is in the table if and only if the complete rounds that began and ended since its last sighting stay below `bss_expiration_scan_count` |
| BssSightings.StaysSinceSighting | wpa_supplicant-2.6/wpa_supplicant/bss.c:602-603 | a sighting starts that count anew, whatever was counted before |
| BssSightings.ResultFiledIff | wpa_supplicant-2.6/wpa_supplicant/bss.c:694-745 | the name a result is filed under: the mesh id if it has one that is short enough, else the SSID; and exactly which results are skipped |
| BssSightings.UpdateTimeIs | wpa_supplicant-2.6/wpa_supplicant/bss.c:270-289 | the update time lies the age of the result before the time it was fetched |
| BssSightings.BeforeIff | wpa_supplicant-2.6/wpa_supplicant/bss.c:701-701 | times are compared as numbers of microseconds |
| BssConditions.RoundCountsIff | wpa_supplicant-2.6/wpa_supplicant/bss.c:788-863 | the end of a new, complete scan counts a miss of an entry if and only if it looked for its channel and name, this round did not sight it and it does not serve the connection, and removes it when the misses reach the limit; all spelled out |
| BssConditions.ConnectStaysIff | wpa_supplicant-2.6/wpa_supplicant/bss.c:192-243 | whatever happens, a pending connect work stays if and only if its entry does |
| BssConditions.LevelIs | wpa_supplicant-2.6/wpa_supplicant/bss.h:164-168 | a negative signal level becomes that of the current entry, while it is there, and changes nothing else |
| BssRuns.FlushIffUnused | wpa_supplicant-2.6/wpa_supplicant/bss.c:916-930 | a flush leaves an entry if and only if it is in use |
| BssConditions.FlushLeavesServing | wpa_supplicant-2.6/wpa_supplicant/bss.c:364-378 | which entries these are: the current one, and those with its name, or without a current one any, that bear the BSSID of the association or of the one that is tried |
| BssRuns.FlushByAgeKeepsYounger | wpa_supplicant-2.6/wpa_supplicant/bss.c:873-893 | a flush by age leaves the entries in use and, from the first young unused one on, everything |
| BssConditions.FlushOldLeavesSpared | wpa_supplicant-2.6/wpa_supplicant/bss.c:873-893 | an entry stays if and only if it serves the connection or it, or one before it that does not serve, is no older than the limit |
| BssRuns.FlushByAgeKeeps | wpa_supplicant-2.6/wpa_supplicant/bss.c:873-893 | a flush by age removes no entry in use and none updated since the limit |
| BssProperties.GetBssidIsLatest | wpa_supplicant-2.6/wpa_supplicant/bss.c:949-960 | the lookup by BSSID finds an entry sighted no earlier than any other of that BSSID, and fails if and only if there is none or the filter rejects the BSSID |
| BssMemory.UnlinkOk | wpa_supplicant-2.6/wpa_supplicant/bss.c:217-243 | removing an entry leaves no address of it in either list, in `last_scan_res` or in the pending connect work |
| BssMemory.UnlinkAbstract | wpa_supplicant-2.6/wpa_supplicant/bss.c:217-243 | that removal on addresses is the removal on values |
| BssMemory.MovedOk | wpa_supplicant-2.6/wpa_supplicant/bss.c:615-645 | when reallocation moves an entry, every list, the result array, the connect work and `current_bss` follow, also while `current_bss` dangles |
| BssMemory.MovedAbstract | wpa_supplicant-2.6/wpa_supplicant/bss.c:615-645 | the move changes nothing but the order of the update list and the refreshed fields, and what a dangling `current_bss` sees when its address is the new one |
| BssMemory.LinkTailOk | wpa_supplicant-2.6/wpa_supplicant/bss.c:422-459 | linking a new structure keeps the links sound, whatever free address it has |
| BssMemory.LinkTailAbstract | wpa_supplicant-2.6/wpa_supplicant/bss.c:453-456 | it appends the entry to both lists and takes the next id; a dangling `current_bss` sees it if and only if the allocator reused the address |
| BssMemory.StoreOk | wpa_supplicant-2.6/wpa_supplicant/bss.c:592-612 | refreshing an entry in place keeps the links sound and changes that entry alone |
| BssMemory.NoteOk | wpa_supplicant-2.6/wpa_supplicant/bss.c:769-784 | noting an entry among the scan results keeps the links sound |
| BssMemory.NotedById | wpa_supplicant-2.6/wpa_supplicant/bss.c:755-768 | an entry is among the noted addresses if and only if its id is among the noted ids |
| BssMemoryRuns.StepRepresents | wpa_supplicant-2.6/wpa_supplicant/bss.c:217-930 | every operation, done on addresses, for every unused address that the allocator may answer with, leaves memory that represents what the same operation on values gives; if the address is the one that a dangling `current_bss` still holds, `current_bss` is the entry filed there |
| BssMemoryRuns.MemoryFollows | wpa_supplicant-2.6/wpa_supplicant/bss.c:217-930 | over every run, for every choice of unused addresses by the allocator, no list, scan result or connect work holds a freed address, and the memory represents a table that satisfies the invariant; it is the table that BssRuns.Run reaches unless the address of a dangling `current_bss` is handed out again |
| BssMemoryRuns.InUseByAddress | wpa_supplicant-2.6/wpa_supplicant/bss.c:364-378 | comparing the address of an entry with `current_bss` is comparing ids |
| BssTable.Supplicant.UpdateStart | wpa_supplicant-2.6/wpa_supplicant/bss.c:672-678 | BssModel.Start: a new round, and no scan results |
| BssTable.Supplicant.RemoveBss | wpa_supplicant-2.6/wpa_supplicant/bss.c:217-243 | the loop over `last_scan_res`, the shift and the unlinking together are BssModel.Remove |
| BssTable.Supplicant.LoseConnection | wpa_supplicant-2.6/wpa_supplicant/events.c:2609-2612 | `current_bss` is cleared and then its entry removed: BssModel.Drop |
| BssTable.Supplicant.UpdateLevel | wpa_supplicant-2.6/wpa_supplicant/bss.h:164-168 | BssModel.SetLevel: a negative level replaces that of `current_bss` |
| BssTable.Supplicant.RemoveOldest | wpa_supplicant-2.6/wpa_supplicant/bss.c:397-419 | both eviction passes choose BssModel.Victim and fail if and only if there is none |
| BssTable.Supplicant.AddBss | wpa_supplicant-2.6/wpa_supplicant/bss.c:422-459 | BssModel.Add, limit included |
| BssTable.Supplicant.UpdateBss | wpa_supplicant-2.6/wpa_supplicant/bss.c:592-660 | BssModel.Update: refreshed and moved to the end |
| BssTable.Supplicant.UpdateScanRes | wpa_supplicant-2.6/wpa_supplicant/bss.c:691-785 | BssModel.ScanResult, with the doubling of the result array |
| BssTable.Supplicant.UpdateEnd | wpa_supplicant-2.6/wpa_supplicant/bss.c:839-863 | BssModel.End |
| BssTable.Supplicant.FlushBss | wpa_supplicant-2.6/wpa_supplicant/bss.c:916-930 | BssModel.Flush |
| BssTable.Supplicant.FlushBssByAge | wpa_supplicant-2.6/wpa_supplicant/bss.c:873-893 | BssModel.FlushByAge |
| BssTable.Supplicant.IsWpsCandidate | wpa_supplicant-2.6/wpa_supplicant/bss.c:307-345 | the test is BssModel.WpsCandidate: the first WPS network for the SSID answers for the payload |
| BssConditions.CandidateIff | wpa_supplicant-2.6/wpa_supplicant/bss.c:307-345 | an entry is a candidate if and only if its payload names a push-button registrar or this station and the first WPS network for its name takes part in that |
| VendorIe.DecodeEncode | wpa_supplicant-2.6/wpa_supplicant/bss.c:1078-1095 | decoding whole elements followed by a truncated tail gives the elements back |
| VendorIe.EncodeDecode | wpa_supplicant-2.6/wpa_supplicant/bss.c:1078-1095 | every octet string is its decoded elements and a truncated tail |
| VendorIe.FirstVendorIsFirst | wpa_supplicant-2.6/wpa_supplicant/bss.c:1078-1095 | the single form means the first match and nothing else |
| VendorIe.VendorIff | wpa_supplicant-2.6/wpa_supplicant/bss.c:1087-1092 | an element matches if and only if it is a vendor element whose body starts with the octets of the type, most significant first |
| VendorIe.KnownTypes | wpa_supplicant-2.6/src/common/ieee802_11_defs.h:947-949 | the octets of the WPS and P2P types |
| VendorIe.PayloadJoins | wpa_supplicant-2.6/wpa_supplicant/bss.c:1158-1170 | the payload is what stands behind the type in these elements, in order, and other elements add nothing |
| VendorIe.GetVendorIe | wpa_supplicant-2.6/wpa_supplicant/bss.c:1078-1132 | the pointer walk returns the offset of the first match in decoding order, or null |
| VendorIe.GetVendorIeMulti | wpa_supplicant-2.6/wpa_supplicant/bss.c:1145-1218 | the multi forms return the concatenated payloads behind the type, null if empty, and never write beyond the allocation |
| BssRange.GetIdRange | wpa_supplicant-2.6/wpa_supplicant/bss.c:1042-1051 | the first entry of the id list whose id lies in the range |
| BssRange.RangeEnds | wpa_supplicant-2.6/wpa_supplicant/ctrl_iface.c:4409-4455 | the two ends chosen for `RANGE=a-b` enclose exactly the entries with ids in the range |
| BssRange.TableIsListed | wpa_supplicant-2.6/wpa_supplicant/bss.c:453-456 | the id list of every table that satisfies the invariant is ascending and holds the entries of the update list |
| BssRange.InRangeAscending | wpa_supplicant-2.6/wpa_supplicant/ctrl_iface.c:4409-4455 | a range asks for exactly the entries with ids in it, in ascending order |
| BssRange.WriteWhole | wpa_supplicant-2.6/wpa_supplicant/ctrl_iface.c:4051-4394 | an entry is printed whole if and only if every piece that may be left out or cut fits at its place; one that is not printed at all would not fit |
| BssRange.WholeEntriesIff | wpa_supplicant-2.6/wpa_supplicant/ctrl_iface.c:4507-4531 | the reply consists of whole entries if and only if no printed entry loses a piece |
| BssRange.LongestPrefix | wpa_supplicant-2.6/wpa_supplicant/ctrl_iface.c:4507-4531 | the entries that are printed and the next one would not fit together |
| BssRange.IdsInOrder | wpa_supplicant-2.6/wpa_supplicant/ctrl_iface.c:4507-4531 | whatever is lost, the printed entries are the first of those asked for, and each starts with its id line |
| BssRange.FullListingIff | wpa_supplicant-2.6/wpa_supplicant/ctrl_iface.c:4507-4531 | the reply is the full listing if and only if its text fits the buffer |
| BssRange.MarkReplacesDelimiter | wpa_supplicant-2.6/wpa_supplicant/ctrl_iface.c:4512-4525 | the five octets under the end mark are the delimiter of the last entry |
| BssRange.EndMark | wpa_supplicant-2.6/wpa_supplicant/ctrl_iface.c:4512-4525 | the end mark takes the place of the last delimiter if and only if it is asked for, the range ends the list and all of it was printed |
| BssRange.PieceLost | wpa_supplicant-2.6/wpa_supplicant/ctrl_iface.c:4017-4045 | an entry whose ANQP element does not fit is printed without it, and the next entry follows |
| BssRange.Range | wpa_supplicant-2.6/wpa_supplicant/ctrl_iface.c:4409-4531 | the octets in the buffer and their number are the reply for the entries of the range: every piece written, skipped or cut where the room ends, with the end mark where it is due |
| BssRange.Next | wpa_supplicant-2.6/wpa_supplicant/ctrl_iface.c:4463-4473 | `NEXT-id` finds the successor of the entry with that id |
| BssRange.Enumerate | wpa_supplicant-2.6/wpa_supplicant/ctrl_iface.c:4456-4473 | `FIRST` and repeated `NEXT` visit the whole id list |
| GasSafety.SafeStepIff | wpa_supplicant-2.6/wpa_supplicant/gas_query.c:660-687 | a step keeps the invariant if and only if it is neither an answer to a request not yet sent nor a deinit with queued work; after such a step removing the work, and at most one timer, uses freed memory |
| GasSafety.RunInv | wpa_supplicant-2.6/wpa_supplicant/gas_query.c:128-166 | the invariant holds over every run without such steps |
| GasCore.StepCore | wpa_supplicant-2.6/wpa_supplicant/gas_query.c:128-783 | every step keeps the books: distinct keys, each query pending, answered or dropped, `current` equal to the served query, fragments assembled in order; hazards included |
| GasCore.ServedOnce | wpa_supplicant-2.6/wpa_supplicant/gas_query.c:147-166 | in every run every accepted query is pending, answered or dropped: exactly one of these, once |
| GasSafety.NeverFaults | wpa_supplicant-2.6/wpa_supplicant/gas_query.c:147-166 | without such steps no freed query is used |
| GasSafety.WorkForQuery | wpa_supplicant-2.6/wpa_supplicant/gas_query.c:660-706 | without such steps pending queries and radio work items correspond one to one, and just the current one has started |
| GasCore.CurrentIsPending | wpa_supplicant-2.6/wpa_supplicant/gas_query.c:660-706 | in every run `current` and the context of `work` are the same pending query, or both null, and no other pending query has started work |
| GasCore.TokensUnique | wpa_supplicant-2.6/wpa_supplicant/gas_query.c:646-724 | in every run no two pending queries share address and dialog token |
| GasSafety.TimersOfCurrent | wpa_supplicant-2.6/wpa_supplicant/gas_query.c:147-158 | without such steps only the query being served owns timers, one of each kind at most |
| GasCore.ServedHasTimeout | wpa_supplicant-2.6/wpa_supplicant/gas_query.c:660-706 | in every run the query being served has its timeout registered, hazards included |
| GasCore.SuccessDelivers | wpa_supplicant-2.6/wpa_supplicant/gas_query.c:425-484 | in every run SUCCESS delivers the octets held at the retry and then fragments 0, 1, ... in order, 1 to 128 of them; nothing comes first if there was no retry |
| GasSteps.RequestFiled | wpa_supplicant-2.6/wpa_supplicant/gas_query.c:738-783 | a request is filed in front with its token in the third octet and gets the last work item, or changes nothing but, when no work is taken, the next token |
| GasSteps.StartSends | wpa_supplicant-2.6/wpa_supplicant/gas_query.c:660-706 | started work sends the request: the query is served and its timeout registered; if sending fails it is answered with INTERNAL_ERROR, and without an address it goes unanswered |
| GasSteps.RemoveEnds | wpa_supplicant-2.6/wpa_supplicant/gas_query.c:664-673 | removed work answers its query as deleted if it had started, and drops it otherwise |
| GasSteps.TimeoutAnswers | wpa_supplicant-2.6/wpa_supplicant/gas_query.c:147-166 | the timeout answers the query and no other, cancels its timers and no others, and releases its work |
| GasSteps.ComebackSent | wpa_supplicant-2.6/wpa_supplicant/gas_query.c:308-331 | at the end of the peer's delay the comeback request is sent, or the query answered with INTERNAL_ERROR |
| GasSteps.RetryStartsOver | wpa_supplicant-2.6/wpa_supplicant/gas_query.c:333-359 | the retry is made if and only if the query is served, has not been retried and there is a token; it keeps the octets and nothing else of the exchange, and leaves one timeout and no comeback request |
| GasSteps.StatusTimers | wpa_supplicant-2.6/wpa_supplicant/gas_query.c:213-258 | which timers a transmit status registers: the timeout, and the wait for a comeback response if and only if the frame was acknowledged and the query waits for one for the first time |
| GasSteps.StatusUnexpected | wpa_supplicant-2.6/wpa_supplicant/gas_query.c:223-228 | without a query that is served a transmit status changes nothing |
| GasSteps.DeinitAnswers | wpa_supplicant-2.6/wpa_supplicant/gas_query.c:173-186 | deinit answers every pending query, in order, as deleted |
| GasDelivery.SuccessUnspoiledIff | wpa_supplicant-2.6/wpa_supplicant/gas_query.c:333-359 | in every run SUCCESS delivers just the fragments of the last exchange if and only if the query was never started over while it held octets |
| GasRuns.RetryInv | wpa_supplicant-2.6/wpa_supplicant/gas_query.c:333-359 | the retry, with its new token and cancelled timers, keeps the invariant |
| GasRuns.FireInv | wpa_supplicant-2.6/wpa_supplicant/gas_query.c:634-643 | an expired timer always finds its query, and its handler keeps the invariant |
| GasRuns.StartInv | wpa_supplicant-2.6/wpa_supplicant/gas_query.c:660-706 | starting radio work finds its query and keeps the invariant, also when no address or frame can be had |
| GasRuns.RemoveInv | wpa_supplicant-2.6/wpa_supplicant/gas_query.c:660-675 | removing radio work, started or queued, keeps the invariant |
| GasSafety.DeinitInv | wpa_supplicant-2.6/wpa_supplicant/gas_query.c:173-185 | deinit without queued work answers every query and leaves no work or timer |
| GasSafety.RxInv | wpa_supplicant-2.6/wpa_supplicant/gas_query.c:499-631 | a response that is not early keeps the invariant, whatever its octets |
| GasInvariants.NewTokenFirst | wpa_supplicant-2.6/wpa_supplicant/gas_query.c:709-724 | a token request fails if and only if all 256 tokens are pending for the address; otherwise it gives the first available one cyclically from `next_start` |
| GasExchange.ParseInitial | wpa_supplicant-2.6/wpa_supplicant/gas_query.c:566-617 | the fields of an initial response are read back from its octets, whatever follows them |
| GasExchange.ParseComeback | wpa_supplicant-2.6/wpa_supplicant/gas_query.c:566-617 | so are those of a comeback response, fragment number and more flag included |
| GasExchange.ParsedIff | wpa_supplicant-2.6/wpa_supplicant/gas_query.c:568-625 | octets are taken for a frame with certain fields if and only if they are one, with anything behind it |
| GasExchange.MalformedIgnored | wpa_supplicant-2.6/wpa_supplicant/gas_query.c:568-625 | what is no frame changes nothing but the status of the query |
| GasExchange.NextFragment | wpa_supplicant-2.6/wpa_supplicant/gas_query.c:471-483 | the expected fragment with more to come is appended and the next asked for |
| GasExchange.LastFragment | wpa_supplicant-2.6/wpa_supplicant/gas_query.c:471-483 | the last one ends the query with SUCCESS and the octets so far |
| GasExchange.NextNotAsked | wpa_supplicant-2.6/wpa_supplicant/gas_query.c:478-481 | if the next fragment cannot be asked for, the query ends with INTERNAL_ERROR |
| GasExchange.RepeatIgnored | wpa_supplicant-2.6/wpa_supplicant/gas_query.c:459-465 | a repeat of the fragment accepted last changes nothing |
| GasExchange.WrongFragment | wpa_supplicant-2.6/wpa_supplicant/gas_query.c:459-470 | any other fragment ends the query with PEER_ERROR |
| GasExchange.NotReadyWaits | wpa_supplicant-2.6/wpa_supplicant/gas_query.c:448-457 | a comeback response with fragment number 0 and a delay, at status 0 or 95, runs no callback and leaves the query waiting for the same fragment with the same octets, and just one comeback request to come |
| GasExchange.NotReadyWrong | wpa_supplicant-2.6/wpa_supplicant/gas_query.c:448-454 | with another fragment number it ends the query with PEER_ERROR |
| GasExchange.ChangedProtocol | wpa_supplicant-2.6/wpa_supplicant/gas_query.c:438-446 | so does another advertisement protocol, whatever else the frame says |
| GasExchange.InitialDelayed | wpa_supplicant-2.6/wpa_supplicant/gas_query.c:394-412 | an initial response with a delay makes the query wait for fragment 0, with just one comeback request to come |
| GasExchange.InitialDelivered | wpa_supplicant-2.6/wpa_supplicant/gas_query.c:414-422 | one without a delay is the whole response |
| GasExchange.StatusRefused | wpa_supplicant-2.6/wpa_supplicant/gas_query.c:547-566 | a status other than 0, or 95 in a comeback response, ends the query with FAILURE |
| GasExchange.Unasked | wpa_supplicant-2.6/wpa_supplicant/gas_query.c:499-545 | a frame that is too short, of another kind, wrongly protected, for no pending query or of the kind it does not wait for changes nothing |
| GasExchange.ResponseDelivered | wpa_supplicant-2.6/wpa_supplicant/gas_query.c:425-484 | a response cut into at most 128 fragments reaches the callback whole, however often the peer repeats a fragment before the next or says that it is not ready |
| GasRetry.RetrySpoilsResponse | wpa_supplicant-2.6/wpa_supplicant/gas_query.c:333-359 | a run in which the peer answers the retry with one octet and the caller is given two |
| GasRetry.EarlyAnswerReachable | wpa_supplicant-2.6/wpa_supplicant/gas_query.c:499-563 | a refusal as the second event of a run is such a hazard |
| GasRetry.DeinitReachable | wpa_supplicant-2.6/wpa_supplicant/gas_query.c:173-185 | so is deinit as the second event |
| GasQuery.GasComponent.NewDialogToken | wpa_supplicant-2.6/wpa_supplicant/gas_query.c:709-724 | the loop over 256 offsets is GasModel.NewToken |
| GasQuery.GasComponent.FindPending | wpa_supplicant-2.6/wpa_supplicant/gas_query.c:188-198 | the list walk finds the first pending query of that address and token |
| GasQuery.GasComponent.QueryDone | wpa_supplicant-2.6/wpa_supplicant/gas_query.c:147-166 | GasModel.Done: timers cancelled, work released, one callback |
| GasQuery.GasComponent.ReadFrame | wpa_supplicant-2.6/wpa_supplicant/gas_query.c:566-617 | the moving pointer reads what GasModel.ParseFrame does, with every length check |
| GasQuery.GasComponent.Receive | wpa_supplicant-2.6/wpa_supplicant/gas_query.c:499-631 | GasModel.Rx |
| GasQuery.GasComponent.ReceiveComeback | wpa_supplicant-2.6/wpa_supplicant/gas_query.c:425-484 | GasModel.RxComebackResp |
| GasQuery.GasComponent.RequestQuery | wpa_supplicant-2.6/wpa_supplicant/gas_query.c:738-783 | GasModel.Request, and the token it returns |
| GasQuery.GasComponent.StartWork | wpa_supplicant-2.6/wpa_supplicant/gas_query.c:660-706 | GasModel.Start |
| GasQuery.GasComponent.RemoveWork | wpa_supplicant-2.6/wpa_supplicant/gas_query.c:660-675 | GasModel.Remove |
| GasQuery.GasComponent.Expire | wpa_supplicant-2.6/wpa_supplicant/gas_query.c:634-643 | GasModel.Fire, for each of the three timers |
| GasQuery.GasComponent.RetryQuery | wpa_supplicant-2.6/wpa_supplicant/gas_query.c:333-359 | GasModel.Retry |
| GasQuery.GasComponent.TransmitStatus | wpa_supplicant-2.6/wpa_supplicant/gas_query.c:213-258 | GasModel.TxStatus |
| GasQuery.GasComponent.DeinitQueries | wpa_supplicant-2.6/wpa_supplicant/gas_query.c:173-185 | GasModel.Deinit |
| PriorityLists.AddPrioSorted | wpa_supplicant-2.6/wpa_supplicant/config.c:2092-2132 | adding a network keeps the lists grouped by strictly descending priority and their walk a stable sort of the networks |
| PriorityLists.RebuildSorted | wpa_supplicant-2.6/wpa_supplicant/config.c:2144-2162 | rebuilding gives the stable sort |
| PriorityLists.SortedIsRebuild | wpa_supplicant-2.6/wpa_supplicant/config_file.c:400-421 | lists that are sorted are the rebuilt ones, so that inserting networks one by one while a file is read is rebuilding |
| PriorityLists.StableSortUnique | wpa_supplicant-2.6/wpa_supplicant/config.c:2082-2091 | a stable sort is determined by the list it sorts |
| PriorityLists.StableSortPermutes | wpa_supplicant-2.6/wpa_supplicant/config.c:2082-2091 | it holds each network exactly as often as the list |
| PriorityLists.RebuildAfterRemoval | wpa_supplicant-2.6/wpa_supplicant/config.c:2461-2484 | rebuilding after a removal takes that network out of its list, drops an empty list, and changes nothing else |
| NetworkConfig.Config.AddPrioNetwork | wpa_supplicant-2.6/wpa_supplicant/config.c:2092-2132 | on `pnext` pointers and the array of heads: PriorityLists.AddPrio, and no other pointer changes |
| NetworkConfig.Config.UpdatePrioList | wpa_supplicant-2.6/wpa_supplicant/config.c:2144-2162 | from any stale `pnext` pointers, the lists of exactly the networks on the `next` chain, sorted |
| NetworkConfig.Config.GetNetwork | wpa_supplicant-2.6/wpa_supplicant/config.c:2404-2416 | the first network with the id, or null if and only if there is none |
| NetworkConfig.Config.AddNetwork | wpa_supplicant-2.6/wpa_supplicant/config.c:2424-2452 | the new network is last, its id is one above the largest, and the lists sort the chain again |
| NetworkConfig.Config.RemoveNetwork | wpa_supplicant-2.6/wpa_supplicant/config.c:2461-2484 | the first network with the id, and only it, leaves the chain, the lists and the memory, and the other ids stay; without one nothing changes |
| NetworkConfig.Config.SetPriority | wpa_supplicant-2.6/wpa_supplicant/ctrl_iface.c:2999-3036 | a new priority re-sorts the lists; the same one leaves them untouched and they are right; networks and ids stay |
| NetworkConfig.Config.ReadNetworks | wpa_supplicant-2.6/wpa_supplicant/config_file.c:400-421 | the loop over the lines: the blocks that parse are appended, numbered by position among all blocks, and the lists built on the way sort the whole chain |
| NetworkConfig.Config.FreeNetworks | wpa_supplicant-2.6/wpa_supplicant/config.c:2314-2319 | every network on the chain, and nothing else, leaves the memory; no freed network is read |
| NetworkConfig.Config.ReadFile | wpa_supplicant-2.6/wpa_supplicant/config_file.c:362-469 | reading succeeds if and only if the file can be opened and every block and line of it is accepted, and then appends its networks; if it fails on a file that was named, the configuration is freed, and with an error in the file all its networks, the old ones too |
| NetworkConfig.Config.ReadMalformed | wpa_supplicant-2.6/wpa_supplicant/wpa_supplicant.c:4709-4710 | a second file with one malformed block frees any configuration that reads it, with every network it held |
| NetworkConfig.ReadIdsDistinctIff | wpa_supplicant-2.6/wpa_supplicant/config_file.c:370-404 | reading on top of a configuration keeps ids distinct if and only if no network already has the number of a block of the file |
| NetworkConfig.Config.ReadOnTop | wpa_supplicant-2.6/wpa_supplicant/wpa_supplicant.c:4709-4710 | a configuration with the network 0 that reads a file with one network then has two networks with the id 0 |
| NetworkConfig.Config.Walk | wpa_supplicant-2.6/wpa_supplicant/events.c:1330-1331 | walking head by head and along `pnext` visits a stable sort of the networks |
| ConfigRoundTrip.StringRoundTrip | wpa_supplicant-2.6/src/utils/common.c:631-685 | every octet string is parsed from what the writer makes of it |
| ConfigRoundTrip.VariableAssigned | wpa_supplicant-2.6/wpa_supplicant/config.c:62-133 | a string variable gets its value back, or is rejected if and only if its length is out of bounds |
| ConfigRoundTrip.KeyRoundTrip | wpa_supplicant-2.6/wpa_supplicant/config.c:443-551 | every passphrase or key the parser accepted is parsed from what the writer makes of it |
| ConfigParsing.HexParsedIff | wpa_supplicant-2.6/src/utils/common.c:15-37 | digits in either case are parsed as the octets they make, and nothing else is |
| ConfigParsing.QuotedIff | wpa_supplicant-2.6/src/utils/common.c:688-697 | a string is written between quotes if and only if all its octets are from 32 to 126 |
| ConfigParsing.QuotedStringIff | wpa_supplicant-2.6/src/utils/common.c:631-646 | a text that starts with a quote is parsed if and only if its last quote is another one and ends it |
| ConfigParsing.EscapedStringIff | wpa_supplicant-2.6/src/utils/common.c:647-669 | likewise behind P and a quote |
| ConfigParsing.HexStringIff | wpa_supplicant-2.6/src/utils/common.c:670-685 | any other text is parsed if and only if it consists of pairs of digits |
| ConfigParsing.LengthIff | wpa_supplicant-2.6/wpa_supplicant/config.c:93-107 | a value is rejected if and only if its length is outside the limits there are |
| ConfigParsing.PassphraseIff | wpa_supplicant-2.6/wpa_supplicant/config.c:449-487 | a passphrase is accepted if and only if it has 8 to 63 characters and no control character |
| ConfigParsing.KeyIff | wpa_supplicant-2.6/wpa_supplicant/config.c:494-509 | a key is accepted if and only if it has 64 digits |
| ConfigRoundTrip.ReadWritten | wpa_supplicant-2.6/wpa_supplicant/config_file.c:27-47 | fgets and the skipping of a line end take one line off the stream, whole or cut to the buffer |
| ConfigRoundTrip.CleanWritten | wpa_supplicant-2.6/wpa_supplicant/config_file.c:64-123 | white space and comment stripping leave a written line as it was, or a proper prefix of it: the latter if and only if a # stands where a comment is looked for, or the value ends in a blank |
| ConfigComments.CleanLeaves | wpa_supplicant-2.6/wpa_supplicant/config_file.c:64-123 | exactly what is left of any line: what stands from its first character that is not blank to the first # that is not in front of the last of two or more quotes, without the white space in front of that; nothing of a blank line or a comment |
| ConfigComments.OneText | wpa_supplicant-2.6/wpa_supplicant/config_file.c:64-123 | that leaves no choice |
| ConfigComments.CommentedLineIff | wpa_supplicant-2.6/wpa_supplicant/config_file.c:87-102 | a written variable with blanks and a comment behind it is read as without them, if and only if the quotes of the comment, with those of the value, do not make two |
| ConfigComments.QuotationKept | wpa_supplicant-2.6/wpa_supplicant/config_file.c:91-96 | the line a=b #"c" keeps its comment |
| ConfigRoundTrip.LineRoundTripIff | wpa_supplicant-2.6/wpa_supplicant/config_file.c:178-204 | a line that fits the buffer gives back name and value, and the stream stands behind it, if and only if the value has no # where a comment is looked for, does not end in a blank and has no single quote mark at its start |
| ConfigRoundTrip.StringLineIff | wpa_supplicant-2.6/wpa_supplicant/config_file.c:474-481 | a string variable survives being written and read if and only if its line has at most 1999 octets and its length is accepted |
| ConfigRoundTrip.KeyLineRoundTrip | wpa_supplicant-2.6/wpa_supplicant/config_file.c:502-514 | a passphrase or key always survives |
| ConfigRoundTrip.BlockRoundTrip | wpa_supplicant-2.6/wpa_supplicant/config_file.c:162-220 | a network block of any such variables is read back variable by variable without an error |
| ConfigWholeFile.NetworksRoundTrip | wpa_supplicant-2.6/wpa_supplicant/config_file.c:1390-1399 | every network of a written file is found again, variable by variable, in order, and no other line |
| ConfigWholeFile.OtherLineFound | wpa_supplicant-2.6/wpa_supplicant/config_file.c:400-455 | such a line outside of the blocks is one of the others, and the networks are found as without it |
| ConfigWholeFile.SpoiledFound | wpa_supplicant-2.6/wpa_supplicant/config_file.c:178-204 | a line in a block that is a single word makes it no network, and the networks behind it are found all the same |
| ConfigWholeFile.UnclosedFound | wpa_supplicant-2.6/wpa_supplicant/config_file.c:162-220 | a block that the file does not close is no network, whatever it holds |
| ConfigWholeFile.ReadWholeFile | wpa_supplicant-2.6/wpa_supplicant/config_file.c:362-469 | a written file of n networks is read if and only if all are accepted, and then as n networks with the ids 0 to n - 1 and sorted lists; otherwise the configuration is freed |
| ConfigReader.ConfigFile.NextLine | wpa_supplicant-2.6/wpa_supplicant/config_file.c:64-123 | the line reader's loops are ConfigText.GetLine |
| ConfigReader.ConfigFile.ReadNetworkBlock | wpa_supplicant-2.6/wpa_supplicant/config_file.c:162-220 | the block loop reads the variables, errors and remaining stream of ConfigRoundTrip.ReadBlock |
| ConfigReader.ConfigFile.SkipToLineEnd | wpa_supplicant-2.6/wpa_supplicant/config_file.c:39-47 | ConfigText.SkipLineEnd, in pieces of 99 octets |
| ConfigValues.CheckHex | wpa_supplicant-2.6/src/utils/common.c:688-697 | true if and only if some octet is outside 32 to 126 |
| ConfigValues.FillQuoted | wpa_supplicant-2.6/wpa_supplicant/config.c:137-150 | the buffer of len + 3 octets holds the quoted string and a terminator |
| ConfigValues.FillHex | wpa_supplicant-2.6/wpa_supplicant/config.c:153-163 | the buffer of 2 * len + 1 octets holds the digits and a terminator |
| ConfigValues.HexToBin | wpa_supplicant-2.6/src/utils/common.c:170-185 | the loop is ConfigText.ParseHex, and reads nothing behind an early end |
| ConfigLists.MacRoundTrip | wpa_supplicant-2.6/src/utils/common.c:40-56 | an address is parsed from its text, and the rest is what follows |
| ConfigLists.EntryRoundTrip | wpa_supplicant-2.6/src/utils/common.c:79-104 | an address with its mask, printed only when it is not all ones, is parsed from its text if and only if a mask may stand there or is not needed |
| ConfigLists.AddrListRoundTrip | wpa_supplicant-2.6/wpa_supplicant/config.c:261-351 | an address list is read back in its own order although the parser stores it back to front, for either setting of the abort and mask arguments, if and only if its masks may stand there |
| ConfigLists.AddrListFits | wpa_supplicant-2.6/wpa_supplicant/config.c:330-349 | its text and terminator fit 40 octets for each address |
| ConfigLists.FreqsRoundTripIff | wpa_supplicant-2.6/wpa_supplicant/config.c:1233-1263 | a list of positive frequencies survives being written and read if and only if its text needs at most ten octets for each |
| ConfigLists.FreqsLost | wpa_supplicant-2.6/wpa_supplicant/config.c:1243-1253 | two frequencies of ten digits do not come back |
| ConfigLists.FreqsRoundTrip | wpa_supplicant-2.6/wpa_supplicant/config.c:1151-1263 | so do all lists of values from 1 to 999999999 |
| ConfigLists.IntsFit | wpa_supplicant-2.6/wpa_supplicant/config.c:1249-1253 | values of at most nine digits fit the buffer |
| ConfigListParsing.MacParsedIff | wpa_supplicant-2.6/src/utils/common.c:40-56 | an address is parsed from pairs of digits in either case with colons between them, and from nothing else |
| ConfigListParsing.EntryParsedIff | wpa_supplicant-2.6/src/utils/common.c:58-104 | it may stand alone, in front of white space, or where masks are allowed in front of a slash and a mask; behind a mask may stand anything |
| ConfigListParsing.AddressesCollected | wpa_supplicant-2.6/wpa_supplicant/config.c:261-316 | however its words are spaced, an address list holds those that are addresses, the last first; a word that is none is left out, or spoils the list when errors abort or it comes first |
| ConfigListParsing.NumberRead | wpa_supplicant-2.6/wpa_supplicant/config.c:1181-1181 | a number is white space, a sign or none, and the digits up to the first character that is none |
| ConfigListParsing.IntsCollected | wpa_supplicant-2.6/wpa_supplicant/config.c:1151-1189 | however its words are spaced, an integer array holds their numbers up to the first that is 0 |
| ConfigFileLists.AddrLineIff | wpa_supplicant-2.6/wpa_supplicant/config.c:261-351 | an address list survives the file if and only if its line has at most 1999 octets |
| ConfigFileLists.LongAddrLine | wpa_supplicant-2.6/wpa_supplicant/config.c:275-307 | of a longer line a later part of the list is read, and of the address where the cut falls nothing, or the address without its mask, or the line is refused when errors abort |
| ConfigFileLists.EntryCut | wpa_supplicant-2.6/src/utils/common.c:79-104 | a cut address is parsed if and only if all of it but its mask is there |
| ConfigFileLists.FreqsLineIff | wpa_supplicant-2.6/wpa_supplicant/config.c:1151-1263 | a frequency list survives the file if and only if its text needs at most ten octets for each value and its line has at most 1999 |
| ConfigValues.ReadAddrList | wpa_supplicant-2.6/wpa_supplicant/config.c:261-316 | the loop, with its prepending, is ConfigLists.ParseAddrList, error cases included |
| ConfigValues.PrintAddrList | wpa_supplicant-2.6/wpa_supplicant/config.c:320-351 | the loop from the end of the list never fills its buffer and is ConfigLists.WriteAddrList |
| ConfigValues.ReadIntArray | wpa_supplicant-2.6/wpa_supplicant/config.c:1151-1189 | the growing array holds the values and then zeros to its last cell |
| ConfigValues.PrintFreqs | wpa_supplicant-2.6/wpa_supplicant/config.c:1233-1263 | the text in its buffer, cut where the buffer ends |
| EventQueueRuns.LossyFifo | wpa_supplicant-2.6/wpa_supplicant/ctrl_iface_unix.c:301-485 | sent and then queued messages are the offered ones in order, but for those handed to a channel without socket or monitor, those the limiter dropped and those discarded with their interface; without losses they are all |
| EventQueueRuns.QueueBounded | wpa_supplicant-2.6/wpa_supplicant/ctrl_iface_unix.c:398-412 | the queue never exceeds the throttle counter nor 1999; the first 1999 messages claim no victim and each later one at most one |
| EventQueueRuns.LatestKept | wpa_supplicant-2.6/wpa_supplicant/ctrl_iface_unix.c:398-412 | the queue of an interface is always its latest messages |
| EventQueueRuns.DropsIff | wpa_supplicant-2.6/wpa_supplicant/ctrl_iface_unix.c:398-412 | a message is dropped if and only if a new one meets a non-empty queue at a throttle counter of at least 1999; the oldest goes, the new one stays |
| EventQueueHistory.CounterCounts | wpa_supplicant-2.6/wpa_supplicant/ctrl_iface_unix.c:435-484 | in every run that counter is the number of messages that reached the channel since one was last handed over at once |
| EventQueueHistory.DropsInARow | wpa_supplicant-2.6/wpa_supplicant/ctrl_iface_unix.c:398-412 | so a message is dropped if and only if a new one meets others that wait and at least 1999 throttled ones precede it since then |
| EventQueueHistory.DroppedInARun | wpa_supplicant-2.6/wpa_supplicant/ctrl_iface_unix.c:398-412 | in every run just so many messages are dropped |
| EventQueueHistory.NoneDropped | wpa_supplicant-2.6/wpa_supplicant/ctrl_iface_unix.c:398-412 | with fewer than 2000 throttled messages in a row none is dropped |
| EventQueueHistory.MessageReaches | wpa_supplicant-2.6/wpa_supplicant/ctrl_iface_unix.c:427-461 | the interface of a message gets all but those for the global channel alone, and the global channel, while it has a monitor, all but those not meant for it; no other channel changes |
| EventQueueHistory.WaitsOrGoes | wpa_supplicant-2.6/wpa_supplicant/ctrl_iface_unix.c:430-484 | a message is handed over at once if and only if nothing waits and the socket is not full, and else waits at the end of the queue |
| EventQueueHistory.HandedOver | wpa_supplicant-2.6/wpa_supplicant/ctrl_iface_unix.c:468-484 | a message that is handed over is sent if and only if the channel has a socket and a monitor |
| EventQueueHistory.DrainStopsAtFull | wpa_supplicant-2.6/wpa_supplicant/ctrl_iface_unix.c:301-343 | a retransmission hands over the messages in front of the first that meets a full socket, and leaves the rest |
| EventQueueHistory.MessageTimer | wpa_supplicant-2.6/wpa_supplicant/ctrl_iface_unix.c:375-395 | a message registers the timer of its interface if and only if it waits somewhere |
| EventQueueHistory.TimeoutTimer | wpa_supplicant-2.6/wpa_supplicant/ctrl_iface_unix.c:346-372 | a retransmission registers it again if and only if a message waits where a socket is open |
| EventQueueHistory.DeinitForgets | wpa_supplicant-2.6/wpa_supplicant/ctrl_iface_unix.c:855-870 | after deinit of an interface there is no channel, no waiting message and no timer of it, and what belongs to others stays |
| EventQueueRuns.WaitingHasTimer | wpa_supplicant-2.6/wpa_supplicant/ctrl_iface_unix.c:346-395 | a waiting message, in either queue, implies exactly one retransmission timer for its interface, also across deinit |
| EventQueueRuns.RoomDelivers | wpa_supplicant-2.6/wpa_supplicant/ctrl_iface_unix.c:301-343 | a retransmission that meets no full socket hands over the whole queue in order, and sends it all if socket and monitors stay |
| EventQueueRuns.StepInv | wpa_supplicant-2.6/wpa_supplicant/ctrl_iface_unix.c:346-372 | every event keeps these invariants; the timer is registered again whenever something is left |
| EventQueue.DrainFifo | wpa_supplicant-2.6/wpa_supplicant/ctrl_iface_unix.c:301-343 | a retransmission changes no order and leaves something only on an open socket |
| EventQueue.PurgeFifo | wpa_supplicant-2.6/wpa_supplicant/ctrl_iface_unix.c:855-870 | discarding an interface's messages keeps the rest in order and accounts for the others |
| ControlInterface.CtrlIface.MessageCallback | wpa_supplicant-2.6/wpa_supplicant/ctrl_iface_unix.c:415-485 | EventQueue.Message, both channels |
| ControlInterface.CtrlIface.QueueTimeout | wpa_supplicant-2.6/wpa_supplicant/ctrl_iface_unix.c:346-372 | EventQueue.Timeout |
| ControlInterface.CtrlIface.SendPending | wpa_supplicant-2.6/wpa_supplicant/ctrl_iface_unix.c:301-343 | the loop is EventQueue.Drain |
| ControlInterface.CtrlIface.DeinitInterface | wpa_supplicant-2.6/wpa_supplicant/ctrl_iface_unix.c:855-870 | EventQueue.Deinit |
| ScanLearning.SupportedDistinct | wpa_supplicant-2.6/wpa_supplicant/bgscan_learn.c:351-380 | the supported frequencies are those of the enabled channels, each once |
| ScanLearning.AddFreqsDistinct | wpa_supplicant-2.6/wpa_supplicant/bgscan_learn.c:211-232 | the learned frequencies are those of the learned BSSes, each once, if none is zero |
| ScanLearning.ProbeRotates | wpa_supplicant-2.6/wpa_supplicant/bgscan_learn.c:235-267 | a call adds the next unlearned supported frequency and sends it to the end of the line; without one it changes nothing |
| ScanLearning.ProbesInTurn | wpa_supplicant-2.6/wpa_supplicant/bgscan_learn.c:235-267 | successive calls probe all unlearned supported frequencies once, in order, before any again |
| ScanLearning.InArray | wpa_supplicant-2.6/wpa_supplicant/bgscan_learn.c:195-208 | membership before the first zero |
| ScanLearning.GetFreqs | wpa_supplicant-2.6/wpa_supplicant/bgscan_learn.c:211-232 | the growing array is ScanLearning.LearnedFreqs |
| ScanLearning.GetSuppFreqs | wpa_supplicant-2.6/wpa_supplicant/bgscan_learn.c:351-380 | the growing array is ScanLearning.SupportedFreqs |
| ScanLearning.LearnData.GetProbeFreq | wpa_supplicant-2.6/wpa_supplicant/bgscan_learn.c:235-267 | the search ends, is ScanLearning.Probe, and leaves `probe_idx` on a cell before the terminator |
| BackgroundScan.BudgetSpent | wpa_supplicant-2.6/wpa_supplicant/bgscan_simple.c:54-79 | without signal events the successful short scans and the budget left add up to max(1, `max_short_scans` + 1 - `short_scan_count`); the interval is long if and only if it is spent |
| BackgroundScan.ShortWaiting | wpa_supplicant-2.6/wpa_supplicant/bgscan_simple.c:142-154 | from the start the waits at the short interval, those cut short by a scan notification included, take in all at most a long interval, two short ones, and one short one for each scan request that fails and each wait cut short |
| BackgroundScan.ShortOverrun | wpa_supplicant-2.6/wpa_supplicant/bgscan_simple.c:54-67 | when the long interval is reached without signal events, the waits before took more than a long interval and a short one |
| BackgroundScan.WaitsCounted | wpa_supplicant-2.6/wpa_supplicant/bgscan_simple.c:44-80 | without signal events each wait that expires at the short interval takes that interval and ends in a scan or a failed request |
| BackgroundScan.RestartsCounted | wpa_supplicant-2.6/wpa_supplicant/bgscan_simple.c:178-197 | without signal events each wait that a scan notification cuts short at the short interval takes at most that interval |
| BackgroundScan.PaidBack | wpa_supplicant-2.6/wpa_supplicant/bgscan_simple.c:68-76 | at the long interval successful scans pay the count back one by one |
| BackgroundSignals.SignalInterval | wpa_supplicant-2.6/wpa_supplicant/bgscan_simple.c:222-267 | after a signal event the interval is the long one if and only if the signal is above the threshold, and nothing but interval and timer changes |
| BackgroundSignals.SignalTimer | wpa_supplicant-2.6/wpa_supplicant/bgscan_simple.c:222-272 | a scan is requested at once if and only if the signal is weak and the last request is more than one second ago at the long interval, within the budget, or more than ten at the short one; and exactly when the timer is restarted otherwise |
| BackgroundSignals.SignalIgnored | wpa_supplicant-2.6/wpa_supplicant/bgscan_simple.c:217-219 | with one interval or no threshold nothing changes |
| BackgroundSignals.FallScansSoon | wpa_supplicant-2.6/wpa_supplicant/bgscan_simple.c:237-249 | after a fall the next scan comes within a short interval if and only if it is due at once, or was, or a long interval behind the last request is too late |
| BackgroundSignals.FallScansLate | wpa_supplicant-2.6/wpa_supplicant/bgscan_simple.c:237-249 | a fall after which it does not: the results of the last short scan restarted the timer five seconds behind its request |
| BackgroundSignals.FallScansInTime | wpa_supplicant-2.6/wpa_supplicant/bgscan_simple.c:237-249 | a timer that runs since the last request is never left too late |
| BackgroundSignals.CountIsLargestBalance | wpa_supplicant-2.6/wpa_supplicant/bgscan_simple.c:54-76 | over every run, signal events included, the count is the largest balance of short scans against long ones of any last part of the run |
| BackgroundSignals.BudgetAfterSignal | wpa_supplicant-2.6/wpa_supplicant/bgscan_simple.c:54-79 | behind the last signal event the short scans use up what that left: nothing after a strong signal, and after a weak one what the count does not take, but at least one |
| BackgroundSignals.LastScanIs | wpa_supplicant-2.6/wpa_supplicant/bgscan_simple.c:78-78 | the time remembered is that of the last request that succeeded |
| BackgroundSignals.TimerAfter | wpa_supplicant-2.6/wpa_supplicant/bgscan_simple.c:51-53 | a failed request and the results of a scan start the wait of one interval, a request that succeeds none |
| BackgroundSignals.InitInterval | wpa_supplicant-2.6/wpa_supplicant/bgscan_simple.c:126-148 | defaults of 30 seconds, and the long interval first if and only if the polled signal reaches the threshold |
| BackgroundScan.SingleTimer | wpa_supplicant-2.6/wpa_supplicant/bgscan_simple.c:178-197 | at most one scan timer is ever registered |
| BackgroundScan.SimpleData.HandleTimeout | wpa_supplicant-2.6/wpa_supplicant/bgscan_simple.c:33-80 | BackgroundScan.Timeout |
| BackgroundScan.SimpleData.HandleScan | wpa_supplicant-2.6/wpa_supplicant/bgscan_simple.c:178-197 | BackgroundScan.NotifyScan: one timer, at the current interval |
| BackgroundScan.SimpleData.HandleSignal | wpa_supplicant-2.6/wpa_supplicant/bgscan_simple.c:207-273 | BackgroundScan.SignalChange |
| BackgroundScan.SimpleData.constructor | wpa_supplicant-2.6/wpa_supplicant/bgscan_simple.c:123-158 | BackgroundScan.Init, defaults included |
| SundaySearch.SearchSound | wpa_cli_oper/compat.c:120-151 | an index that is returned is a match |
| SundaySearch.SearchIsNaiveIff | wpa_cli_oper/compat.c:135-147 | the search gives the leftmost match on every text if and only if the pattern is empty or its first character recurs in it |
| SundaySearch.IntendedIsNaive | wpa_cli_oper/compat.c:135-147 | with the test `k>=0` it does for every pattern |
| SundaySearch.TrapMissed | wpa_cli_oper/compat.c:145-146 | for every other pattern, a text with a match that is not found |
| SundaySearch.SundaySearch | wpa_cli_oper/compat.c:120-151 | the loops end and are that search |
| HeaderChecksum.FoldMod | wpa_supplicant-2.6/wpa_supplicant/ctrl_iface.c:7916-7917 | folding carries keeps the sum modulo 65535 and gives 0 only for 0 |
| HeaderChecksum.StoredChecksum | wpa_supplicant-2.6/wpa_supplicant/ctrl_iface.c:7907-7920 | storing the checksum in the zeroed word makes the checksum of the whole 0 |
| HeaderChecksum.ZeroIff | wpa_supplicant-2.6/wpa_supplicant/ctrl_iface.c:7907-7920 | the checksum is 0 if and only if the sum is a positive multiple of 65535 |
| HeaderChecksum.ChangeDetected | wpa_supplicant-2.6/wpa_supplicant/ctrl_iface.c:7907-7920 | a change of one word of a correct header shows, but for 0 and 65535 exchanged |
| HeaderChecksum.AddWords | wpa_supplicant-2.6/wpa_supplicant/ctrl_iface.c:7913-7914 | for at most 65537 words the 32-bit sum does not wrap around |
| HeaderChecksum.Ipv4HeaderChecksum | wpa_supplicant-2.6/wpa_supplicant/ctrl_iface.c:7907-7920 | the two loops end and give the checksum |

## Left out

- Allocation failure, everywhere: the branches behind a null result of malloc or realloc are not modelled.
- Pointers to entries, queries and messages: the classes hold them as records in sequences and refer to them by id or serial number. BssMemory models addresses of BSS entries (freeing, moving, dangling pointers), NetworkConfig those of network blocks; what the other classes do not capture is aliasing.
- BssModel.InUse: a freed `current_bss` is read by the C code; the model remembers the SSID it last had, because what is read there is not defined.
- BssModel.Refresh: ANQP data, notifications, HESSID and the comparison of old and new elements are not modelled; they do not influence the table.
- BssModel.End: the update counters do not wrap around; they are unbounded.
- BssRange.Range: parsing of the numbers and of the mask is left out, and the texts of the pieces are inputs. The mask includes the id.
- GasModel.Rx: protected frames are a boolean, frequencies and the contents of requests are not modelled, and a callback does not call back into the component.
- GasModel.Start: the radio work queue is a list of items that the radio may start one at a time or remove; its priorities are not modelled.
- GasExchange.ResponseDelivered: frames arrive unprotected, and every comeback request can be sent.
- BssModel.Drop: an id without an entry removes nothing. A connection lost while `current_bss` dangles would free an entry that is gone; what happens then is not defined.
- NetworkConfig.Config.ReadFile: the outcome of parsing a block into a network is an input, and so is whether a line outside of the network blocks is invalid; credentials and blobs are left out. When the file cannot be opened only the structure is freed, and the networks stay in memory without an owner.
- ConfigWholeFile.WriteNetworks: the networks are those that wpa_config_write does not skip; global parameters, credentials and blobs, which it writes around them, are left out. What the variables of a network make of it is an input.
- NetworkConfig.Config.SetPriority: SET_NETWORK for the variable priority only, with its value already parsed.
- ConfigText.ParseString: the form P"..." is recognised but its escapes are not decoded.
- ConfigText.ParsePsk: the ext: form of external passwords is not modelled, and neither are per-variable side effects of wpa_config_set.
- ConfigText.GetLine: a file has no NUL octets; buffers are sequences whose length stands for the position of the terminator.
- ConfigLists.Atoi: numbers beyond the range of int are read without overflow.
- EventQueue.Send: a message counts as sent when there is a socket and a monitor; what each monitor receives is not modelled, and whether a socket is full, or socket or monitors are lost by a send, is an input.
- ControlInterface.CtrlIface.MessageCallback: a failing send does not itself produce a message.
- ScanLearning.LearnData.GetProbeFreq: supported frequencies are not zero; learned ones may be.
- BackgroundScan.Init: parsing of the parameters is left out; the polled signal is an input.
- SundaySearch.Search: strings are shorter than the range of int.
- HeaderChecksum.Ipv4HeaderChecksum: the buffer is its 16-bit words in host order; an odd last octet, which the code ignores, is not part of it.
- Sockets, files, driver calls, key derivation, WPS, P2P, ANQP contents, AP mode, the UDP and D-Bus interfaces, most control interface commands, the BSSID blacklist, autoscan, Hotspot 2.0 and the command strings of wpa_cli_oper: input and output, wrappers, or members that would be easy.
