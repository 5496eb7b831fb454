# Zikade: verified model

Zikade drives the Amino DHT: it answers other peers' requests, keeps signed records and provider
records in a datastore, and searches the network for both. This project models the logic that is
kept in Zikade itself and proves what it promises over unbounded runs. The routing coordinator,
libp2p, the datastore and the protobuf runtime are outside; they appear as parameters or as steps
of a state machine that may happen in any order.

`dafny verify dfyconfig.toml` checks everything.

## The parts

- **Signed records.** `Records.dfy` has routing keys and the validator: validity may depend on the
  key, the order of values is any total preorder, and an empty value is never valid.
  `RecordBackend.dfy` is the backend (`Validate`, `Store`, `Fetch`), `ValueSearch.dfy` the search
  callback with its best value, quorum and repair list, and `ReadRepair.dfy` a network of nodes that
  put, serve, search and repair. The search's fields are proved to be functions of the responses
  seen so far, and the network uses those functions.
- **Provider records.** `ProviderStore.dfy` is the backend (`Store`, `Fetch`, one garbage collection)
  on byte-level datastore keys and values; `ProviderSweep.dfy` lets a sweep run beside Stores,
  Fetches and the clock, on any datastore, each step being one of the backend's own steps. A Store's
  mark and put are one step; a sweep's check and delete of a record are separate steps, and a Fetch
  is a scan and any number of later deletes. `CollectorLifecycle.dfy` starts and stops the loop from
  any number of goroutines. `DatastoreKeys.dfy`, `Base32.dfy`, `Bits.dfy` and `Varint.dfy` are the
  encodings; `ProviderSearch.dfy` compares the two ways of finding providers and
  `ProviderKeystore.dfy` is the persisted reprovide set with crashes.
- **Key minting.** `KeyMinting.dfy` has the generator loop over an abstract hash and the bit
  arithmetic on 16-bit words, which are modelled as their bits.
- **Diversity counters.** `Diversity.dfy`.
- **Messages, requests and streams.** `Messages.dfy` compares the closed-form size with the protobuf
  encoding. `Handlers.dfy` has a node with its backends and the request handlers; whatever network
  node it mirrors, it still mirrors after each handler, which takes that node through the network's
  own step or leaves it as it is. `Streams.dfy` has the loop around the handlers.

## Where the code keeps less than one might expect

- A record that is stored after somebody has decided to delete its predecessor, and before the delete,
  is lost although it is fresh. A Fetch deletes what it has found too old or corrupt without looking
  again, and so does the collector, which looks at the marks before it deletes.
  For providers, a Store survives exactly when nobody has found the record dead before
  (`ProviderSweep.StoreSurvivesExactlyWhen`), and no live record is ever lost exactly if each Store comes
  no later than the validity after the last one (`ProviderSweep.RenewingSufficesExactlyWhen`;
  `ProviderSweep.LateRenewal` is the run that loses one).
  For signed records, without ageing, nothing is lost exactly if the node does not start with a corrupt
  entry under a key that it can store (`ReadRepair.LosesNothingExactlyWhen`; `ReadRepair.LostAfterCorrupt`
  is the run).
- A Fetch of providers under the empty path brings up those of all keys
  (`ProviderSweep.EmptyPathFetchesAll`). The handlers refuse it, SearchValue does not.
- `maxPerCpl` of 0 or less does not keep peers out: the first peer of a prefix length that has no
  counter yet is always allowed (`Diversity.CapBreaks`). Both caps hold in all runs exactly when
  `maxPerCpl >= 1` or `maxForTable <= 0` (`Diversity.CapsHoldExactlyWhen`).
- `Store` of a record validates the new value under the routing key but the held one under the key
  the held record carries. The held record is guarded exactly when it is valid for its own key
  (`RecordBackends.HeldRecordIsGuarded`), and sequences of Stores keep the best value exactly when no
  record that loses its validity that way is better than another one
  (`RecordBackends.StoresKeepBestExactlyWhen`). Both callers in the repository pass records whose key
  is the routing key.
- An expiry that overflows 64 bits is not an error when it is read: it counts as 1970
  (`Varint.OverflowReadsAsEpoch`, which says exactly when), because only a used length of 0 is checked.
- Empty parts leave no trace in a datastore key (`DatastoreKeys.EmptyPartCollides`,
  `DatastoreKeys.KeysEqual`), so an empty key of the reprovide set is lost on a restart
  (`ProviderKeystores.KeySurvivesExactlyWhen`).
- `FindProvidersAsync` repeats a local provider that is listed twice; it agrees with `FindProviders`
  exactly if the local providers that it sends have no repeats (`ProviderSearch.AsyncAgreesExactlyWhen`).
  A provider set never has any (`ProviderStore.ProviderSet.AddProvider`), so the backend does not
  produce the failing input.
- `Message_Peer.Size` counts two bytes for an empty id that are not on the wire
  (`Messages.PeerSizeMatches`).
- Closer peers in an answer never include the asking peer or a peer without addresses, unless it is
  ourselves that are asked for (`Handlers.AnswersTellOthers`); but the providers in an answer may: they
  are whoever is on record (`Handlers.Node.HandleGetProviders`).

## Model

| member | source | states |
|---|---|---|
| Records.JoinAfterSplit | handlers.go:99-103 | a key that splits into namespace and path is the routing key of the two, so the record key that is checked is the key the backend validates under |
| Records.SplitAfterJoin | backend_provider.go:472-480 | splitting undoes joining for a namespace without slashes |
| Records.SplitsExactlyWhen | handlers.go:99-103 | a key splits exactly if it is the routing key of some path in a non-empty namespace without slashes |
| Records.ServedExactlyWhen | handlers.go:99-108 | a key is served to peers exactly if it is the routing key of a non-empty path in one of the namespaces |
| RecordBackends.RecordBackend.Validate | backend_record.go:132-181 | the answer is the index of the first of the best valid values in the original list, or -1 with the right error when none is valid; the shortcut for one value meets the same contract |
| RecordBackends.AnswerIgnoresInvalid | backend_record.go:149-165 | invalid or wrongly typed values put in anywhere shift the index but not the chosen value |
| RecordBackends.RecordBackend.ShouldReplaceExistingRecord | backend_record.go:189-218 | a held record that parses and is valid gives way only to a value at least as good; anything else gives way |
| RecordBackends.RecordBackend.Store | backend_record.go:45-86 | the outcome and the new entry for every record and every datastore failure: it succeeds exactly for a value that is valid, no failure, and no valid held record that the value is worse than; an error leaves the datastore unchanged and no other key is touched |
| RecordBackends.RecordBackend.Fetch | backend_record.go:88-130 | serves a record exactly if it can be read, parses and is young; one that is too old or corrupt is dropped, and gone unless deleting fails; a missing record, an unreadable one and one just given up are told apart |
| RecordBackends.StoreMeans | backend_record.go:45-86 | the outcome and effect that the other results speak of, in terms of the validator alone |
| RecordBackends.FetchMeans | backend_record.go:88-130 | the same for a Fetch: what is served, what is dropped and what remains |
| RecordBackends.StoreNeverWorsens | backend_record.go:61-67 | a usable record is never replaced by a worse one, also not by one that carries another key as long as that key does not cost it its validity |
| RecordBackends.HeldRecordIsGuarded | backend_record.go:205-215 | worse values are refused exactly when the held record is valid for the key it carries, or no valid value is worse |
| RecordBackends.StoresKeepBest | backend_record.go:45-86 | any sequence of Stores on one key, from any start, leaves the best valid value seen, the latest on a tie, if no record that loses its validity once it is held is better than another |
| RecordBackends.StoresStayUsable | backend_record.go:205-207 | records that keep their validity when held, such as those carrying their own routing key, meet that condition, and the best value is then held in a usable record |
| RecordBackends.StoresKeepBestExactlyWhen | backend_record.go:45-86 | for callers that may store any of a set of records, that condition on the set is also necessary: otherwise two Stores lose the best value |
| RecordBackends.EntryOfRoutingKey | backend_record.go:61 | records of different routing keys never share a datastore entry, also not in a datastore shared by several backends |
| ValueSearch.BestIsFirstMaximal | routing.go:513-558 | the best value is that of the first response among the Select-maximal valid ones with a matching key, and is empty exactly when there is none |
| ValueSearch.BestMeans | routing.go:513-558 | the same without vocabulary: no response has a valid value under the key, or one has the best value there, none a better one and none before it an equally good one |
| ValueSearch.SupportersMeans | routing.go:523-543 | the supporters are exactly the peers that returned the bytes of the best value under the key |
| ValueSearch.StaleMeans | routing.go:530-536 | the stale peers are exactly those that returned, under the key, a value that was best then and is not best now |
| ValueSearch.SentMeans | routing.go:530-544 | exactly the values that were best at some time are sent |
| ValueSearch.SentImproves | routing.go:530-544 | the values sent are valid and strictly improve, and the last one is the best value |
| ValueSearch.StaleIsWorse | routing.go:532-536 | every peer on the repair list answered with a valid value strictly worse than the best one |
| ValueSearch.SupportersAreNotStale | routing.go:523-543 | no peer is both in the quorum set and on the repair list |
| ValueSearch.BestStays | routing.go:525-528 | a response that leaves the best value adds a supporter exactly if it returned its bytes, and nobody to repair |
| ValueSearch.BestChanges | routing.go:530-544 | a better response makes exactly the former supporters stale and is the only supporter |
| ValueSearch.Search.OnResponse | routing.go:513-558 | after each response best, the values sent, the quorum set and the repair list (without repeats) are what the responses so far make them; it stops exactly when the quorum is positive and the quorum set has that size, which it never exceeds |
| ValueSearch.Search.Run | routing.go:552-560 | the search stops at the first response with which a positive quorum is met, and never early for quorum 0 |
| ValueSearch.Search.Repair | routing.go:560-582 | after a query that worked, exactly the stale peers are sent the best value, each once |
| ReadRepair.NeverWorse | backend_record.go:45-86 | in every run in which a node does not start with a corrupt entry for a key, while no record ages out, its value for the key never becomes worse |
| ReadRepair.LosesNothingExactlyWhen | backend_record.go:97-108 | without ageing, a node loses nothing it holds for a key exactly if it does not start with a corrupt entry there or could not store anything there |
| ReadRepair.LostAfterCorrupt | backend_record.go:97-108 | the run that loses a value: a Fetch finds the entry corrupt, a user puts a valid value, the Fetch deletes that |
| ReadRepair.NeverWorseSince | backend_record.go:45-86 | from any moment on at which no Fetch is about to delete the entry, the value does not become worse without ageing out |
| ReadRepair.NeverWorseExactlyWhen | backend_record.go:92-122 | a node's value gets worse in some continuation without ageing out exactly when a Fetch under way has found the entry unservable before |
| ReadRepair.HeldWasPut | routing.go:336-402 | in every run every valid value a node holds was put by a user |
| ReadRepair.FoundWasPut | routing.go:487-558 | in every run every value a search has found was put by a user |
| ReadRepair.RepairTakesEffect | handlers.go:81-117 | once a search's repair request is handled, the repaired node holds a value at least as good as that search's best, and keeps doing so without ageing if it did not start with a corrupt entry |
| ReadRepair.AnswerIsFetch | handlers.go:143-156 | an answer to a search and the delete that may follow are one Fetch of the backend, answered with the record it serves |
| ReadRepair.AnswerCarriesRecord | handlers.go:143-156 | an answer to a search carries the very record that the peer holds if that is young, no record if there is none or it is corrupt or too old, and an unreadable entry gets no answer |
| ReadRepair.UnservableIsDropped | backend_record.go:104-122 | a Fetch that finds an entry corrupt or too old leaves the node without it once it has deleted it |
| ReadRepair.PutTakesEffect | routing.go:336-402 | after a user's put the node holds that value or a better one, and unless it held a better one the value is on its way to all peers it is to be published to |
| ReadRepair.RepairHappens | routing.go:487-582 | for any two peers of which one is behind there is a run in which a search hears of both and the one behind ends with the better value |
| ReadRepair.WantedByUsers | routing.go:336-402 | in every run the values that count as put by users are those of the puts so far and of the start |
| ReadRepair.LogIsReceived | routing.go:487-513 | in every run a search judges by exactly the responses it has received, in their order |
| Base32.RoundTrip | backend_provider.go:466 | decoding undoes encoding for every byte string |
| Base32.EncodeIsSameNumber | backend_provider.go:466 | read as a number in base 32 the text is the data read in base 256, followed by the fewest zero bits that make whole digits |
| Base32.DigitsFollowAlphabet | backend_provider.go:466 | the digits are the characters of the RFC 4648 alphabet in their order |
| Base32.DecodeFailsExactlyWhen | backend_provider.go:210-212 | decoding fails exactly on a character that is not in the alphabet |
| Varint.UvarintRoundTrip | backend_provider.go:417-421 | reading a varint undoes writing it, whatever bytes follow |
| Varint.UvarintIsBase128 | backend_provider.go:417-421 | a number is written as its base-128 groups, least significant first, each but the last announcing another, and as few as will do |
| Varint.ReadIsBase128 | backend_provider.go:426-430 | what is read is the number that the groups of the first terminated part spell |
| Varint.ExpiryRoundTrip | backend_provider.go:417-435 | every 64-bit nanosecond count, negative ones included, survives marshalling, and its at most 10 bytes fit the buffer |
| Varint.ExpiryUndecodable | backend_provider.go:426-430 | unmarshalling fails exactly on at most ten bytes that all announce another one |
| Varint.OverflowReadsAsEpoch | backend_provider.go:426-432 | an overflow is exactly ten bytes that announce another one, which is there, or nine before a last one above 1, and reads as time 0 |
| Varint.OverflowExamples | backend_provider.go:426-432 | one input of each kind |
| DatastoreKeys.NewDatastoreKey | backend_provider.go:462-470 | the loop computes the key that the lemmas are about |
| DatastoreKeys.KeysEqual | backend_provider.go:462-470 | two keys are equal exactly when the namespaces and the non-empty parts are |
| DatastoreKeys.KeyInjective | backend_provider.go:462-470 | keys are injective on non-empty parts |
| DatastoreKeys.EmptyPartCollides | backend_provider.go:462-470 | an empty part is lost |
| DatastoreKeys.ResolveIsCanonical | backend_provider.go:462-470 | a cleaned path has no empty, "." or ".." elements, and one without any stays as it is |
| DatastoreKeys.KeyExample | backend_provider.go:462-470 | the key of one part, byte by byte |
| DatastoreKeys.UnderMeansPrefix | backend_provider.go:175 | a prefix query brings up exactly the keys whose elements continue the prefix's |
| ProviderStore.FolderHoldsOwnKey | backend_provider.go:167-175 | the query of a Fetch brings up a provider's record exactly when it was stored under that key |
| ProviderStore.ProviderKeyShape | backend_provider.go:209-210 | the last element of a provider's datastore key decodes to the peer |
| ProviderStore.ProviderSet.AddProvider | backend_provider.go:446-453 | the list stays free of repeats and equal to the map's domain; a known peer only gets a new time |
| ProviderStore.ProvidersBackend.Store | backend_provider.go:126-160 | a successful put stores the time and marks the key; a failed one changes nothing, also not a mark that was there before |
| ProviderStore.ProvidersBackend.Fetch | backend_provider.go:175-232 | returns exactly the peers of the live records under the key, once each, with the addresses known and the times on record, none further back than the validity; of the records with a time that can be read and deleted exactly those further back than the validity are gone, the difference taken in plain integers; a failing query changes nothing |
| ProviderStore.FetchStepMeans | backend_provider.go:192-224 | what a Fetch deletes, exactly: records under the key that are undecodable, tell no peer, or are older than the validity, apart from those it cannot read or delete; all others stay as they are |
| ProviderStore.LivePeersMeans | backend_provider.go:192-224 | what a Fetch returns, exactly: the peers of the readable records under the key that are no older than the validity |
| ProviderStore.StoredDiesExactlyWhen | backend_provider.go:203 | a stored time is dead exactly once it lies further back than the validity, which the largest validity never lets happen |
| ProviderStore.ProvidersBackend.Visit | backend_provider.go:362-383 | one query result is deleted exactly if it could be read, is not marked, and is undecodable or older than the validity, the difference taken in plain integers |
| ProviderStore.ProvidersBackend.CollectGarbage | backend_provider.go:336-384 | a pass with nothing beside it deletes exactly the records of the namespace that are undecodable or, when visited, older than the validity, apart from those it cannot read or delete, and leaves no marks; a failing query leaves all records |
| ProviderSweep.SweepSafety | backend_provider.go:343-383 | from any start and in every interleaving, what a sweep deletes lies in the namespace, was unmarked and expired or undecodable when checked, and still is unless it was stored since; it is if check and delete are consecutive |
| ProviderSweep.VisitIsCheckAndDeletes | backend_provider.go:359-383 | a check and its one or two deletes with nothing between them are the visit that the collector is proved to make |
| ProviderSweep.PutsAreMarked | backend_provider.go:145-157 | every key put since the current snapshot is marked, failed puts in between notwithstanding |
| ProviderSweep.LiveRecordsStay | backend_provider.go:126-160 | from any start and in every interleaving in which a provider is stored only while nobody is about to delete its record, it is on record with the time of its latest Store while that is within the validity |
| ProviderSweep.LatestIsLastStore | backend_provider.go:126-160 | in every run the time that liveness is judged by is that of the provider's last successful Store |
| ProviderSweep.StoreSurvivesExactlyWhen | backend_provider.go:192-206 | a Store survives in all continuations exactly when neither a Fetch nor the sweep has found the provider's record dead before and is about to delete it |
| ProviderSweep.RenewingSufficesExactlyWhen | backend_provider.go:126-160 | a provider stored again at most d after its last Store is never lost while live, in all runs, exactly if d is at most the validity |
| ProviderSweep.LateRenewal | backend_provider.go:198-201 | the run that loses a provider stored again after it has expired: Store, Scan, Store, delete |
| ProviderSweep.FetchIsScanAndDrops | backend_provider.go:192-224 | a scan and its deletes with nothing between them are the Fetch that the backend is proved to do |
| ProviderSweep.SweepCompleteness | backend_provider.go:343-383 | on any datastore a record that is dead when a sweep begins and is not stored again is gone when it ends, whatever marks there were and however other deletes fare |
| ProviderSweep.SweepCanComplete | backend_provider.go:336-384 | from every state without a sweep there is a whole undisturbed one, and it does to records and marks what the collector's pass is proved to do |
| ProviderSweep.AnyStart | backend_provider.go:371-374 | runs start on any datastore, also with undecodable records |
| ProviderSweep.FetchExact | backend_provider.go:166-233 | in every interleaving a Fetch that misses the cache returns all peers stored under the key within the validity if they were stored while nobody was about to delete their records, and no others unless the datastore held returnable records of no Store at the start |
| ProviderSweep.EmptyPathFetchesAll | backend_provider.go:166-175 | a Fetch of the empty path returns the peers of the whole namespace |
| CollectorLifecycle.AtMostOneLoop | backend_provider.go:281-312 | at most one loop is alive |
| CollectorLifecycle.FieldsTogether | backend_provider.go:281-331 | whenever the mutex is free, gcCancel and gcDone are both set, and then a loop is alive, or both nil |
| CollectorLifecycle.ClosesOwnChannelOnce | backend_provider.go:298-311 | a loop closes the channel of its own Start exactly once, when it ends, although it reads gcDone without the mutex |
| CollectorLifecycle.StopReturnsAfterEnd | backend_provider.go:326-330 | whenever a Stop returns, whether it found a loop or not, no loop is alive and both fields are nil; it returns from the check exactly if it finds gcCancel nil |
| CollectorLifecycle.StartReturnsRunning | backend_provider.go:281-312 | whenever a Start returns, whether it spawned a loop or found one, both fields are set to those of a loop that has not ended; it returns from the check exactly if it finds gcCancel set |
| CollectorLifecycle.StartSpawnsOneLoop | backend_provider.go:290-311 | from its check with a nil gcCancel to its return a Start spawns exactly one loop, and nobody else spawns one |
| CollectorLifecycle.StartCanComplete | backend_provider.go:281-312 | whenever the mutex is free any goroutine can complete a Start, and then a loop is alive |
| CollectorLifecycle.StopCanComplete | backend_provider.go:317-331 | whenever the mutex is free any goroutine can complete a Stop, whatever the loop is doing, and then none is alive |
| CollectorLifecycle.StopIsNeverStuck | backend_provider.go:317-331 | a waiting Stop goes on exactly when the loop has ended; until then the loop always has a step towards its end and only the ticker delays it |
| ProviderSearch.FindProvidersAsync | routing.go:157-250 | what is sent, for all inputs: the local providers up to the count, then what the list has beyond them; it is the list exactly if the local providers sent have no repeats |
| ProviderSearch.FindProviders | routing.go:261-330 | the same list for every local list, and the search stops at the first response that brings up enough |
| ProviderSearch.FoundMeans | routing.go:261-330 | the list has no repeats, is where the peers listed start, and is cut only by a positive count |
| ProviderSearch.DedupKeepsFirsts | routing.go:280-287 | of each peer what is kept is what was listed first |
| ProviderSearch.DedupIds | routing.go:280-287 | removing duplicates keeps every peer exactly once |
| ProviderSearch.AsyncAgreesExactlyWhen | routing.go:194-208 | for all local lists, responses and counts, stream and list agree exactly if the local providers sent have no repeats |
| ProviderKeystores.ProviderKeystore.Load | providerkeystore.go:22-42 | after reading all entries the index holds exactly the persisted keys |
| ProviderKeystores.ProviderKeystore.Add | providerkeystore.go:44-50 | datastore and index stay in agreement and gain exactly the key, or nothing on a failure; of an empty key the datastore keeps no trace |
| ProviderKeystores.ProviderKeystore.Remove | providerkeystore.go:52-58 | datastore and index stay in agreement and lose exactly the key, or nothing on a failure |
| ProviderKeystores.IndexAndDatastoreAgree | providerkeystore.go:22-58 | in every run with failing writes and crashes the datastore holds exactly the keys it should, and so does the index of a running process, but for the empty key, which a reload loses |
| ProviderKeystores.KeptIsLastWritten | providerkeystore.go:44-58 | the keys that should be there are exactly those whose last datastore write was an addition |
| ProviderKeystores.RunsGoOn | providerkeystore.go:22-58 | every run of a running process goes on with any call, and every run with a restart |
| ProviderKeystores.KeySurvivesExactlyWhen | providerkeystore.go:44-50 | an added key is found after a restart exactly if it is not empty |
| KeyMinting.Generate | internal/cplutil/gen.go:26-47 | the loop exits within a number of rounds exactly when these cover all prefixes, and no later than that; then every entry is the smallest input with its prefix |
| KeyMinting.EntryMeans | internal/cplutil/gen.go:34-46 | an entry of the table is the smallest 32-bit number for which the hash of the input starts with the 16 bits of the index |
| KeyMinting.Input | internal/cplutil/gen.go:31-35 | an input is the sha2-256 multihash header, the big-endian number and zeros |
| KeyMinting.CoveredBy32Bits | internal/cplutil/gen.go:34-35 | inputs wrap at 32 bits, so prefixes not reached by then never are |
| KeyMinting.MatchingPrefix | internal/cplutil/cpl.go:36-58 | the word has the key's first cpl bits, then the opposite bit, then random bits; random bits only for a negative cpl |
| KeyMinting.GenRandPeerId | internal/cplutil/cpl.go:17-29 | for every key, cpl 0 to 15 and random bits the minted peer's key shares exactly cpl leading bits; more than 15 is refused |
| KeyMinting.GenRandKeyForPrefix | internal/cplutil/prefixtarget.go:21-50 | the minted key starts with the given prefix of at most 16 bits, the rest of the 16 being random; longer ones are refused |
| Diversity.IpGroupFilter.Allow | diversity_filter.go:99-113 | a peer is allowed exactly if the table has fewer of its group than its cap, and fewer with its prefix length than that cap or no peer at all with that prefix length |
| Diversity.IpGroupFilter.Increment | diversity_filter.go:117-130 | the counters become those of the admitted entries and one more |
| Diversity.IpGroupFilter.Decrement | diversity_filter.go:134-153 | the counters become those of the admitted entries and one less, without zero counts or empty maps |
| Diversity.DecrementedMeans | diversity_filter.go:134-153 | a Decrement lowers exactly the two counts of its entry, and keeps no zero count and no empty map |
| Diversity.InGroupMeans | diversity_filter.go:124-129 | the members of a group are counted from none, and each entry adds one to its own group alone |
| Diversity.RunCounts | diversity_filter.go:117-153 | in every run both maps are the counts of the admitted entries |
| Diversity.TableIsSum | diversity_filter.go:124-129 | the table's count of a group is the sum of its counts over all prefix lengths |
| Diversity.DecrementRestores | diversity_filter.go:134-153 | Decrement restores the exact state from before the matching Increment, also with other changes that cancel out in between |
| Diversity.CapBreaks | diversity_filter.go:110-112 | with a per-prefix cap of 0 or less the first peer of a prefix length is let in |
| Diversity.CapsHoldExactlyWhen | diversity_filter.go:99-113 | both caps hold in all runs exactly when the per-prefix cap is at least 1 or the table's cap admits nobody |
| Diversity.PeersCapped | diversity_filter.go:99-113 | under that condition no more peers have entered, in any run, than the caps allow |
| Messages.SovIsVarintLength | pb/msg.aux.go:197-199 | the closed form is the length of the base-128 varint, for every number |
| Messages.PeerSize | pb/msg.aux.go:177-195 | the loop adds up the closed form of a peer's size |
| Messages.MessageSize | pb/msg.aux.go:120-155 | the loops add up the closed form of a message's size |
| Messages.PeerSizeMatches | pb/msg.aux.go:177-195 | a peer's size is the length of its encoding, and two more for an empty id |
| Messages.SizeMatchesEncoding | pb/msg.aux.go:120-155 | a message's size is never below the length of its encoding, and equal to it exactly if no peer has an empty id |
| Messages.EncodeExample | pb/msg.proto:14-73 | one message with every field, a nil peer and a negative number, byte by byte |
| Messages.KindsExample | pb/msg.proto:16-23 | the numbers of the six kinds on the wire |
| Handlers.Node.GatherCloserPeers | handlers.go:258-294 | the loop keeps, in order, the near peers with known addresses other than ourselves and the asking one |
| Handlers.CloserPeersAreTellable | handlers.go:258-294 | these are exactly the near peers with known addresses other than ourselves and the asking one, without new repeats |
| Handlers.CloserPeersInOrder | handlers.go:258-294 | they stand in the order of the near peers |
| Handlers.ParsedAreThoseThatParse | pb/msg.aux.go:158-175 | of a peer's addresses exactly those that parse are kept |
| Handlers.MayAddMeans | handlers.go:175-197 | which requests may not add providers: those with an empty or too long key, without providers, or with a provider that is not the sender or none of whose addresses parse |
| Handlers.Node.MirrorsMeans | handlers.go:105-112 | a node mirrors a network node exactly if they have the same backends and the same held under every routing key |
| Handlers.OneEntryChanged | handlers.go:105-112 | a change under one routing key is seen under no other, so a node mirrors a network node that changes there alone |
| Handlers.Node.HandleFindPeer | handlers.go:22-61 | a peer asking for us is told us alone, any other exactly the tellable peers among those near and its target, without new repeats |
| Handlers.Node.HandlePutValue | handlers.go:81-118 | succeeds exactly if the key is served and the record's own, the value is valid, the datastore works and no valid held record is better; then the node holds what it echoes, and otherwise what it held; it is the network's step that delivers the request |
| Handlers.Node.PutValueLocal | routing.go:379-402 | a user's put stores exactly if the key is served and the backend accepts the record; it is the network's step for it |
| Handlers.Node.HandleGetValue | handlers.go:120-172 | for a record backend the answer carries a record exactly if that is the record held under the key and it is young; for a provider backend the providers on record no older than the validity; with the closer peers; it is the network's Fetch |
| Handlers.Node.HandleAddProvider | handlers.go:175-211 | refused exactly if the key is empty or longer than 80, no provider is listed, or some provider is not the sender or has no address that parses; nothing is stored before that is checked; then only the sender's record under the key changes, to the time of the last Store that worked |
| Handlers.Node.HandleGetProviders | handlers.go:214-254 | answers with exactly the peers whose records under the key can be read and are no older than the validity, once each, and the closer peers; to the backend it is a Fetch |
| Handlers.Node.HandleMsg | stream.go:219-239 | each kind of request gets the answer and has the effect of its handler, and touches nothing else |
| Handlers.AnswersAreExpected | pb/msg.aux.go:27-44 | a handled request is answered exactly if its sender expects that, with a message of its kind |
| Handlers.EchoVerifies | routing.go:633-647 | the echo of a PUT_VALUE passes the sender's check |
| Handlers.AnswersTellOthers | handlers.go:256-294 | the closer peers of an answer have known addresses, are neither ourselves nor the asking peer, and are told once; its providers, whoever they are, are told once; all addresses are those we know |
| Handlers.Node.RequestPeersDoNotLeak | handlers.go:69-77 | requests that differ only in the peers they list are answered with the same record, the same closer peers and the same providers, all with addresses that we know |
| Streams.HandleNewStream | stream.go:79-166 | while others act on the node, the loop handles the events in turn and writes the answers to all before the first that fails; it fails exactly if there is one: a failing read, an undecodable request, a failing deadline, a refused request or an answer that cannot be written |
| Streams.AnswersMatchRequests | stream.go:94-165 | the answers written are, in order, one of the same kind for each handled request whose sender expects one, and none for the others |
| Streams.AnswersInOrder | stream.go:145-158 | each answer written is the one to its request, in its place |
| Streams.AnswersMeans | stream.go:145-158 | what is written are exactly the answers of the handled requests |

## Left out

- The coordinator, routing-table trie, libp2p host, streams, peerstore and leveldb: not part of the
  repository. They are abstract maps, parameters and sources of steps. Datastore prefix queries are
  taken to match whole path elements, and a failing datastore write to change nothing.
- Records.Validator: the order of values does not depend on the key, although the code passes a
  datastore key to Select when storing and a routing key when searching; Select takes the first of
  equally good values.
- The provider cache: only cache misses are modelled. The code does not keep the cached lists equal
  to the datastore.
- ProviderStore.ProvidersBackend.Store: mark and put are one step; an erase between a mark and its put,
  or overlapping Stores of which one fails, are not interleaved. The cache and the address book, which
  it also writes, are not modelled.
- ProviderStore.ProvidersBackend.Fetch: addresses come from a given address book, already filtered;
  their expiry is not modelled. The cache is not looked up or filled.
- ProviderStore.ProvidersBackend.CollectGarbage: the purge of the cache.
- RecordBackends.RecordBackend.Store: its transaction is one step, as the datastore is taken to
  promise; a Fetch, which has no transaction, is two.
- ReadRepair.RepairTakesEffect: a peer that returns an old value after a better one is known is not
  on the repair list, so nothing is claimed about it.
- ValueSearch.Search.Run: each peer answers a search at most once, and the callback is not called
  again after it has stopped the query. The local value that SearchValue sends first is not part
  of what is ordered.
- ProviderKeystores.ProviderKeystore.Add: calls on the reprovide set come one at a time, although the
  code holds no lock; crashes may cut a call off between the datastore write and the index update.
- Handlers.Node: other implementations of the Backend interface, and a record backend that is
  registered under another namespace than its own. Signed records and provider records
  are in separate maps; the default backends share a datastore, where their keys differ in the
  namespace (`DatastoreKeys.KeysEqual`).
- Base32.Decode: rejects characters outside the alphabet; how the library treats line breaks and
  lengths that no encoding has is not modelled.
- ProvidersBackend.Validate, FindPeer, Provide, GetValue and the bootstrap: easy next to the rest.
- Diversity: several addresses of one peer are the diversity library's affair; the caps are claimed
  for an Increment right after Allow.
- KeyMinting: SHA-256 and the literal table are an abstract hash and the generator's output.
- Messages: unknown fields, and the fields inside an encoded record.
- IPNS and public-key validation, multiaddress parsing, telemetry, configuration, command line.
