# A verified model of the distributed optimisation system

The system spreads evolutionary optimisation over a cluster. A *controller* hands out work, *islands* ask it for
workers, *workers* evolve populations and send them back, and problem libraries travel to the workers on demand in a
version identified by its SHA-256. This project models that logic in Dafny 4.11 and proves what it promises.

| Files | What they hold |
|---|---|
| `Sha256Spec`, `Sha256Words`, `Sha256Constants`, `Sha256`, `Sha256Props` | the function of FIPS 180-4, what its operations do to the bits and where its constants come from, the streaming class beside it, and what the hash is for |
| `LruSpec`, `LruCache` | the least-recently-used cache as a function of its history, and as a list with an index map |
| `RegistrySpec`, `HashCache`, `Registry`, `VersionAgreement`, `DllWrapper` | the library registry, its two caches, the disk and the loaded libraries, and the version handshake |
| `Sums`, `WorkerRepo`, `ControllerSpec`, `Controller`, `ControllerInvariant`, `ControllerRuns`, `ControllerFairness` | the controller: statistics, handlers, invariant, whole runs, overtaking |
| `Protocol`, `ProtocolSafety`, `ProtocolProperties`, `ProtocolAnswers`, `ProtocolLiveness`, `PlanRealised` | controller, workers and islands composed over FIFO channels |
| `NumberUtils`, `Planner`, `Splitter`, `PopulationTools`, `WorkerEvolve`, `Conservation` | the work plan, the split, merge and selection, and population sizes from the plan to the last cycle |

The source's objects are classes whose methods are proved equal to functions on values; the properties are lemmas about
those functions. The disk is a map from paths to bytes. Averages and shares are exact reals.

## The transport

The composed system (`Protocol`) makes these assumptions, and no others:

* Channels are FIFO. A worker's connection starts with its join message and ends with its leave message. What the
  controller sends to a worker whose process is gone is dropped. A worker connects again only after its leave message
  was handled, and then starts idle.
* An island blocks from its request to its answer, so it has one request open. Between two requests its population may
  be changed by migration, but not in size.
* Iterating over an unordered container may start anywhere: every result holds for every pick.
* A worker process may stop at any moment, and a thread may ask for a library at any moment while it runs.
* Evolution keeps the size of a population; library orderings return a permutation of the indices, and the ordering by
  one objective sorts by it.

## Where the code falls short of what it promises

Each of these is a lemma, with the exact condition where there is one.

* A loader enters the map before the library is opened and stays if that fails. A failed `initialize_udp` is forgotten
  exactly when it found the version and could not open it: then every later call with the same hash returns normally
  with nothing loaded (`VersionAgreement.FailedOpenIsForgotten`).
* A library that opens but lacks the allocator or the deleter is closed by `construct_udp`, and its loader stays too: a
  later `initialize_udp` with the right hash returns normally with nothing loaded
  (`VersionAgreement.FailedConstructIsForgotten`).
* A provider that serves another version than the one asked for is used twice and the wrong version is loaded without
  an error (`VersionAgreement.NormalReturnWithoutVersion`, which gives all the cases).
* Failure in `load` assigns an empty wrapper, but the assignment operator resets the file name only: the received hash
  and the old instance stay. A load fails, too, on an instance whose library was left with a null handle. The wrapper left is the empty one exactly when it held no instance and the hash received
  is empty (`DllWrapper.LoadFailure`).
* Hashes are cached by name, not by path, so after `set_local_cache_dir` the old directory's hash is handed out exactly
  when the name was cached, also for a file fetched on the spot; it is right exactly when the name was not cached or the
  two files have the same hash (`RegistrySpec.HashAfterDirectoryChange`). So after a change `initialize_udp` can accept
  a file of any version, or delete one of the right version (`VersionAgreement.StaleAfterChange`, and
  `VersionAgreement.AgreesAfterChangeIff` for exactly when the promise is kept).
* `get_lib_file_hash` takes no lock after it has read the file. If another call deletes or replaces the file before its
  hash is cached, the cache ends up with a hash that no file on disk has. All copies agree in every state of a run exactly
  when no hash is cached that late (`RegistrySpec.RunCoherentIff`, `RegistrySpec.CacheHashKeepsIff`;
  `RegistrySpec.LateHash` gives the runs that fail, `RegistrySpec.LateHashExample` one of them).
* Any waiting island may be taken next, so an island can be overtaken without bound while others keep asking; it is sure
  to be next exactly when it waits alone (`ControllerFairness.OvertakenAtWill`, `ControllerFairness.NextForSureIff`).
* The work plan is undefined exactly for no islands in equal shares, a division by zero, which `evolve` asks for when
  nobody is connected and nobody is expected, and for islands without an algorithm (`Planner.GenerateWorkPlan`).
* The controller handles soundly exactly the messages called legal: a join of a busy worker, a second request of an
  island and results of a worker without work are not (`ControllerInvariant.SoundIffLegal`).
* The splitter's minimum is rounded down to a multiple of 4, although its comment says not to go below it
  (`Splitter.MinimumKeptIff`).
* Selecting more individuals than the pool holds fills a single-objective list up with index 0, and leaves one for
  several objectives short (`PopulationTools.UsableIff`, `WorkerEvolve.GivesBackAllIff`).

## Model

| member | source | states |
|---|---|---|
| Sha256Words.RotatesRight | src/distributed/utils/sha256.cpp:73-76 | for every word and amount, the low bits of the rotated word are the high ones of the word and the other way round |
| Sha256Words.RotatedBits | src/distributed/utils/sha256.cpp:94-106 | for every amount used, bit k of the rotated word is bit k + n of the word, around the word |
| Sha256Words.AddsModulo | src/distributed/utils/sha256.cpp:138-138 | words are added modulo 2^32, as unsigned arithmetic of 32 bits does |
| Sha256Constants.ConstantsAreCubeRoots | src/distributed/utils/sha256.cpp:137-257 | each of the sixty-four constants holds the first 32 bits of the fraction of the cube root of its prime |
| Sha256Constants.InitialHashIsSquareRoots | src/distributed/utils/sha256.cpp:44-54 | the initial hash value holds those of the square roots of the first eight primes |
| Sha256Class.MixFunctions | src/distributed/utils/sha256.cpp:73-106 | the two mix functions, with the rewritten majority and fused sigma terms, are the sums of the standard's functions in T1 and T2 |
| Sha256Class.LineIsRound | src/distributed/utils/sha256.cpp:138-138 | one unrolled line, which updates two of the eight variables and leaves the rest for a change of roles, is one iteration of step 3 of section 6.2.2 of FIPS 180-4 |
| Sha256Class.EightRounds | src/distributed/utils/sha256.cpp:137-145 | eight lines with rotating roles bring the roles back and are eight iterations of the standard's loop, for any row of eight constants and schedule words |
| Sha256Class.SwapOfLoad | src/distributed/utils/sha256.cpp:78-91 | byte reversal of a little-endian load is the big-endian word of the four bytes |
| Sha256Class.InputWords | src/distributed/utils/sha256.cpp:123-133 | the sixteen words taken from the block are the schedule's first sixteen |
| Sha256Class.ExtendSchedule | src/distributed/utils/sha256.cpp:157-162 | extending by the code's loop continues the standard's message schedule |
| Sha256Class.ExtensionWord | src/distributed/utils/sha256.cpp:159-162 | the code's order of adding the four terms gives the standard's schedule word, modulo 2^32 |
| Sha256Class.Sha256.ProcessBlock | src/distributed/utils/sha256.cpp:111-268 | for every block and chaining value, the new hash words are those of section 6.2.2 |
| Sha256Class.Sha256.AddToHash | src/distributed/utils/sha256.cpp:259-267 | the working variables are added to the chaining value word by word, modulo 2^32, as in step 4 of section 6.2.2 |
| Sha256Class.Sha256.Reset | src/distributed/utils/sha256.cpp:39-68 | the state is that of the empty message, from the initial hash value of section 5.3.3 |
| Sha256Class.Sha256.Add | src/distributed/utils/sha256.cpp:272-312 | the state becomes that of the message with the data appended: whole blocks compressed, the rest live in the buffer, fewer than 64 bytes |
| Sha256Class.Sha256.BufferBytes | src/distributed/utils/sha256.cpp:276-283 | bytes move to the buffer until either runs out |
| Sha256Class.Sha256.ProcessFullBlocks | src/distributed/utils/sha256.cpp:297-304 | whole blocks are compressed straight from the data, leaving fewer than 64 bytes |
| Sha256Class.Sha256.PaddedLength | src/distributed/utils/sha256.cpp:324-337 | the bit arithmetic puts the length field at byte 56 of the one block, or of the second when the buffer holds 56 or more bytes |
| Sha256Class.Sha256.FillPadding | src/distributed/utils/sha256.cpp:339-371 | the in-place writes leave the live bytes and append 0x80, zeros and the length, over one block or two |
| Sha256Class.Sha256.ProcessBuffer | src/distributed/utils/sha256.cpp:316-378 | the hash words are those of the whole message padded as in section 5.1.1, and the live bytes stay |
| Sha256Class.PaddedSplit | src/distributed/utils/sha256.cpp:324-378 | the padded message is its whole blocks followed by the live bytes and exactly what is appended to them, for every live length below 64 |
| Sha256Class.HashOfTail | src/distributed/utils/sha256.cpp:373-377 | compressing the last one or two blocks after the whole ones gives the hash of all of them |
| Sha256Class.Sha256.EmitAndRestore | src/distributed/utils/sha256.cpp:413-423 | the words are written big-endian and the saved ones are back in place |
| Sha256Class.Sha256.GetHashBytes | src/distributed/utils/sha256.cpp:403-424 | the 32 bytes are the digest of everything added, and adding may go on as if it had not been asked for |
| Sha256Class.Sha256.GetHash | src/distributed/utils/sha256.cpp:382-399 | the same as hexadecimal characters, high half first |
| Sha256Class.Sha256.Of | src/distributed/utils/sha256.cpp:428-433 | hashes one memory block from a fresh start, whatever was added before |
| Sha256Props.StateIsFunctionOfMessage | src/distributed/utils/sha256.cpp:272-312 | hash words, byte count, buffer length and live bytes depend on the message alone |
| Sha256Props.FeedPieces | src/distributed/utils/include/sha256.h:38-43 | any cutting of a message, with digests asked for after any of the pieces, ends in the state of one add of the whole, and each digest is that of the bytes so far |
| Sha256Props.PaddedForm | src/distributed/utils/sha256.cpp:318-322 | the padding is that of section 5.1.1: one 0x80, fewer than 64 zeros up to a multiple of 64 bytes, and the length in bits |
| Sha256Props.NumberOfBytes64 | src/distributed/utils/sha256.cpp:363-371 | the eight bytes written read back as the number of bits |
| Sha256Props.HexInjective | src/distributed/utils/sha256.cpp:388-398 | two hash strings are equal only if the digests are |
| Sha256Constants.HexReadsBack | src/distributed/utils/sha256.cpp:388-398 | the text reads back, digit by digit, as the bytes it was made from |
| LruSpec.RunIsFrontOfMoveToFront | src/distributed/discovery/include/lru_cache.h:27-63 | after any run of puts and successful gets, the list is the first entries of the unbounded move-to-front list of the history, cut at the capacity |
| LruSpec.RunByRecency | src/distributed/discovery/include/lru_cache.h:27-79 | after any history, erasing and clearing included, the list runs from the most to the least recently touched key, each with the last value put |
| LruSpec.EvictedIsOldest | src/distributed/discovery/include/lru_cache.h:52-58 | a key that is evicted was touched before every key then present, and only a put into a full cache evicts |
| LruSpec.Survives | src/distributed/discovery/include/lru_cache.h:40-79 | an entry is lost only to its own erasure, to a clear, or as the last of a full cache |
| LruSpec.RunKeeps | src/distributed/discovery/include/lru_cache.h:14-17 | keys never repeat and the capacity is never exceeded |
| LruCacheClass.LruCache.constructor | src/distributed/discovery/include/lru_cache.h:20-20 | an empty cache of the capacity |
| LruCacheClass.LruCache.Contains | src/distributed/discovery/include/lru_cache.h:22-25 | the index knows exactly the keys of the list |
| LruCacheClass.LruCache.Get | src/distributed/discovery/include/lru_cache.h:27-38 | the value of the key, whose node moves to the front; nothing for a key that is not there |
| LruCacheClass.LruCache.Put | src/distributed/discovery/include/lru_cache.h:40-63 | the new list for a key that is there, one that is not, and one that finds the cache full; undefined exactly for capacity 0; list and index still agree |
| LruCacheClass.LruCache.Erase | src/distributed/discovery/include/lru_cache.h:65-73 | the entry of the key goes, and nothing else |
| LruCacheClass.LruCache.Clear | src/distributed/discovery/include/lru_cache.h:75-79 | list and index are empty |
| LruCacheClass.IndexedSplice | src/distributed/discovery/include/lru_cache.h:36-36 | moving a node to the front keeps the index and the list in agreement |
| HashCacheClass.HashCache.HashFile | src/distributed/discovery/hash_cache.cpp:3-9 | the SHA-256 of the file as hexadecimal characters, remembered under the name |
| HashCacheClass.HashCache.GetFileHash | src/distributed/discovery/hash_cache.cpp:11-19 | the remembered hash, touched; nothing for a name that is not there |
| HashCacheClass.HashCache.Erase | src/distributed/discovery/hash_cache.cpp:26-29 | the name is forgotten |
| RegistryClass.UdpRegistry.constructor | src/distributed/discovery/include/udp_registry.h:74-90 | a registry with nothing cached or loaded, the in-memory cache on, and caches for 5 files and 50 hashes |
| RegistryClass.UdpRegistry.Initialize | src/distributed/discovery/udp_registry.cpp:12-68 | the whole new state and the outcome, on every branch: with and without an expected hash, missing, matching and other version, loaded, on disk, fetched |
| RegistryClass.UdpRegistry.Load | src/distributed/discovery/udp_registry.cpp:41-68 | what initialising and constructing have in common: loaded already, loaded from disk, fetched, or an exception |
| RegistryClass.UdpRegistry.NewInstance | src/distributed/dynamic/include/lib_loader.h:94-118 | a library that lacks a symbol is closed, and its loader stays as a null handle |
| RegistryClass.UdpRegistry.ConstructUdp | src/distributed/discovery/udp_registry.cpp:70-105 | state and outcome of obtaining the library and taking an instance from it |
| RegistryClass.UdpRegistry.RegisterUdpProvider | src/distributed/discovery/udp_registry.cpp:123-131 | the provider is replaced and nothing else |
| RegistryClass.UdpRegistry.SetCacheDir | src/distributed/discovery/udp_registry.cpp:133-140 | the directory is replaced and nothing else |
| RegistryClass.UdpRegistry.UseInMemory | src/distributed/discovery/udp_registry.cpp:142-151 | switching off empties the in-memory cache |
| RegistryClass.UdpRegistry.GetLibFile | src/distributed/discovery/udp_registry.cpp:153-223 | the file from memory, disk or provider, and what each source leaves in memory and on disk |
| RegistryClass.UdpRegistry.CacheFileHash | src/distributed/discovery/udp_registry.cpp:235-242 | the part without the lock: the hash cached under the name, or that of the file read before, which is then cached |
| RegistryClass.UdpRegistry.GetFileHash | src/distributed/discovery/udp_registry.cpp:225-243 | both parts with nothing in between, as inside `initialize_udp`, which holds the lock throughout |
| RegistryClass.UdpRegistry.SaveLibIntoFs | src/distributed/discovery/udp_registry.cpp:249-267 | the file is at the library's path on disk |
| RegistryClass.UdpRegistry.LoadLibrary | src/distributed/discovery/udp_registry.cpp:269-275 | the loader is in the map whether or not the open succeeds |
| RegistryClass.UdpRegistry.UnloadLibrary | src/distributed/discovery/udp_registry.cpp:287-310 | the loader is gone, if there was one |
| RegistryClass.UdpRegistry.DeleteFile | src/distributed/discovery/udp_registry.cpp:312-352 | the file is gone from memory, hash cache and disk |
| RegistrySpec.RunCoherentIff | src/distributed/discovery/udp_registry.cpp:12-352 | over every run of public calls, with the unlocked part of a hash request anywhere: in every state each file in memory is the file on disk, each cached hash is that of the file on disk, each open library was opened from the file on disk, each null handle belongs to a file that does not open or lacks a symbol, and nothing is in memory while that cache is off, if and only if no such part is late |
| RegistrySpec.RunCoherent | src/distributed/discovery/udp_registry.cpp:12-352 | so every run in which hash requests are not interrupted keeps all copies in agreement |
| RegistrySpec.CacheHashKeepsIff | src/distributed/discovery/udp_registry.cpp:225-243 | the unlocked part keeps the agreement if and only if the name is cached or the file read still has the hash of the one on disk |
| RegistrySpec.LateHash | src/distributed/discovery/udp_registry.cpp:225-243 | the runs where it does not: the file is deleted by a request for another version in between |
| RegistrySpec.LateHashExample | src/distributed/discovery/udp_registry.cpp:225-243 | one such run in full |
| RegistrySpec.ApplyKeeps | src/distributed/discovery/udp_registry.cpp:12-243 | every public call keeps that agreement, whatever the provider answers, except exactly a late hash part |
| RegistrySpec.DeleteKeeps | src/distributed/discovery/udp_registry.cpp:287-352 | unloading and deleting keeps it, and every other library has its file, its loader and its cached copies still |
| RegistrySpec.GetLibFileHashKeeps | src/distributed/discovery/udp_registry.cpp:20-39 | the hash `initialize_udp` compares with is that of the file on disk, cached or not |
| RegistrySpec.PathInjective | src/distributed/discovery/udp_registry.cpp:282-285 | different names have different paths |
| RegistrySpec.PathInDirectory | src/distributed/discovery/udp_registry.cpp:282-285 | a path starts with the directory and ends with the name and the extension, with at most a slash between |
| RegistrySpec.DirectoriesApart | src/distributed/discovery/udp_registry.cpp:282-285 | one name in two directories is one file if and only if the directories differ by at most a slash at the end |
| RegistrySpec.HashAfterDirectoryChange | src/distributed/discovery/udp_registry.cpp:133-140 | after a change of directory the old directory's hash is handed out exactly for the names cached, whether the file is in the new directory or is fetched |
| VersionAgreement.Resolution | src/distributed/discovery/udp_registry.cpp:12-68 | for every reachable state: when the call returns normally, which file and loader it ends with, and how often it asked the provider |
| VersionAgreement.AgreesIff | src/distributed/discovery/udp_registry.cpp:18-39 | the library is loaded in the version asked for if and only if a file of that version was to be had, on disk or from the provider, it opens, and no null handle was left for it |
| VersionAgreement.NormalReturnWithoutVersion | src/distributed/discovery/udp_registry.cpp:41-65 | a normal return without the version happens if and only if a null handle was left behind or the provider serves another version |
| VersionAgreement.FailedOpenIsForgotten | src/distributed/discovery/udp_registry.cpp:41-67 | after a failed call the next one returns normally, with nothing loaded, if and only if the version was found |
| VersionAgreement.FailedConstructIsForgotten | src/distributed/discovery/udp_registry.cpp:70-105 | constructing succeeds if and only if the file opens and has the symbols; a failure with the file on disk makes later calls with its hash return normally with nothing loaded |
| VersionAgreement.AtMostOneCall | src/distributed/discovery/udp_registry.cpp:12-68 | a call that leaves the version loaded asked the provider at most once, and a repeat asks nobody and keeps the library |
| VersionAgreement.AgreesAfterChangeIff | src/distributed/discovery/udp_registry.cpp:12-68 | after a change of directory, exactly when a call leaves the version loaded |
| VersionAgreement.UntouchedSurvivesChange | src/distributed/discovery/udp_registry.cpp:133-140 | for a library neither cached nor loaded the promise is the same after the change |
| VersionAgreement.StaleAfterChange | src/distributed/discovery/udp_registry.cpp:133-140 | the two ways it is broken: a file of any version is accepted, a file of the right version is deleted |
| DllWrapper.UdpDllWrapper.Save | src/distributed/discovery/include/udp_dll_wrapper.h:77-85 | the archive holds the hash of the file at hand, or the one received earlier |
| DllWrapper.UdpDllWrapper.Load | src/distributed/discovery/include/udp_dll_wrapper.h:87-111 | the fields after success and after failure, of initialising or of reading the instance, and what the registry is left with |
| DllWrapper.UdpDllWrapper.CopyFrom | src/distributed/discovery/udp_dll_wrapper.cpp:142-153 | assignment copies the file name and, if there is one, clones the instance, but leaves the hash; it fails, with the file name copied, exactly when the instance's library is not open or lacks the cloner |
| DllWrapper.ControllerReply | src/distributed/logic/distributed_controller.cpp:69-81 | whenever the controller has the file, its reply is that file |
| DllWrapper.SavedVersion | src/distributed/discovery/include/udp_dll_wrapper.h:77-85 | the archive names the version of the controller's file, and its later reply is that file |
| DllWrapper.EndToEnd | src/distributed/discovery/include/udp_dll_wrapper.h:77-111 | the load leaves the controller's version loaded if and only if the file opens and no null handle was left for it; then it took at most one provider call, a repeat takes none, and the wrapper saves back to the same archive |
| DllWrapper.LoadFailure | src/distributed/discovery/include/udp_dll_wrapper.h:87-111 | exactly when a load fails, and exactly when what it leaves is the empty wrapper |
| WorkerRepo.WorkerInfoRepository.WorkerJoined | src/distributed/logic/worker_info_repository.cpp:3-16 | the worker is connected and has a record, its old one if it ever had one |
| WorkerRepo.WorkerInfoRepository.WorkerLeft | src/distributed/logic/worker_info_repository.cpp:18-27 | the worker is not connected; its record stays |
| WorkerRepo.WorkerInfoRepository.WorkerStartedWork | src/distributed/logic/worker_info_repository.cpp:29-41 | the start time is noted; a worker without a record is an exception |
| WorkerRepo.WorkerInfoRepository.WorkerFinishedWork | src/distributed/logic/worker_info_repository.cpp:43-65 | time, negative if the clock ran backwards, and individuals are added to the totals and to the algorithm modulo 2^64; a worker without a record is an exception |
| ControllerRuns.ConnectedHasRecord | src/distributed/logic/worker_info_repository.cpp:67-81 | over every run the lookup of a connected worker finds a record, which the planner takes for granted |
| WorkerRepo.StatsOfFinish | src/distributed/logic/worker_info_repository.cpp:43-65 | a worker's totals stay the sums over its algorithms, modulo 2^64, and the grand total grows by the size, exactly as long as a counter can hold it |
| WorkerRepo.WholeMilliseconds | src/distributed/logic/worker_info_repository.cpp:56-58 | the work time is the number of whole milliseconds between the two readings, negative if the clock ran backwards |
| WorkerRepo.CountersAdd | src/distributed/logic/worker_info_repository.cpp:60-64 | counters add up modulo 2^64 |
| ControllerClass.DistributedController.WorkerJoin | src/distributed/logic/distributed_controller.cpp:22-33 | state, messages and outcome of a join |
| ControllerClass.DistributedController.WorkerLeave | src/distributed/logic/distributed_controller.cpp:35-51 | state, messages and outcome of a leave; the work of a busy worker is given out or queued again |
| ControllerClass.DistributedController.WorkResults | src/distributed/logic/distributed_controller.cpp:52-67 | state, messages and outcome of results; the statistics are written before the lookup that may throw |
| ControllerClass.DistributedController.IslandRequest | src/distributed/logic/distributed_controller.cpp:88-107 | state, messages and outcome of a request |
| ControllerClass.DistributedController.AllocateIsland | src/distributed/logic/distributed_controller.cpp:113-124 | with no free worker the island waits, and an island that waits already keeps its first data |
| ControllerClass.DistributedController.AllocateWorker | src/distributed/logic/distributed_controller.cpp:126-152 | the preferred worker if it is free, else the first one |
| ControllerClass.DistributedController.PopWaitingIsland | src/distributed/logic/distributed_controller.cpp:154-162 | some waiting island with its data, which no longer waits |
| ControllerClass.DistributedController.AddFree | src/distributed/logic/distributed_controller.cpp:164-179 | a worker that becomes free takes a waiting island at once |
| ControllerInvariant.LegalIsSound | src/distributed/logic/distributed_controller.cpp:14-179 | every legal message is handled without an exception, keeps the invariant (connected workers are the disjoint union of free and allocated ones, all have records, free pool and waiting map are never both non-empty, no island is in two places) and changes the number of open requests by exactly what it should |
| ControllerInvariant.SoundIffLegal | src/distributed/logic/distributed_controller.cpp:14-179 | and only legal messages are |
| ControllerInvariant.AllocateWorkerStep | src/distributed/logic/distributed_controller.cpp:126-152 | a free worker, the preferred one if free, gets the work; the emplace never meets an existing entry |
| ControllerInvariant.FreedAndAllocated | src/distributed/logic/distributed_controller.cpp:164-179 | a worker freed while islands wait gets a waiting island's work |
| ControllerInvariant.KeepsJoin | src/distributed/logic/distributed_controller.cpp:22-33 | a join keeps the invariant |
| ControllerInvariant.KeepsLeave | src/distributed/logic/distributed_controller.cpp:35-51 | a leave keeps the invariant and loses no request |
| ControllerInvariant.KeepsResults | src/distributed/logic/distributed_controller.cpp:52-67 | results close exactly one request |
| ControllerInvariant.KeepsReallocate | src/distributed/logic/distributed_controller.cpp:113-124 | a request opens exactly one |
| ControllerInvariant.JoinOfBusyWorker | src/distributed/logic/distributed_controller.cpp:22-33 | a join of a busy worker is not sound: it breaks the invariant or loses a request |
| ControllerInvariant.SecondRequest | src/distributed/logic/distributed_controller.cpp:113-124 | a second request of an island is not sound: it is lost or puts the island in two places |
| ControllerInvariant.StrayResults | src/distributed/logic/distributed_controller.cpp:52-67 | results of a worker without work throw, and nothing is sent |
| ControllerRuns.RequestsStep | src/distributed/logic/distributed_controller.cpp:14-179 | the open requests with their data change only by the request received or the result handled, whichever worker has them |
| ControllerRuns.ExactlyOnce | src/distributed/logic/distributed_controller.cpp:14-179 | over every run and for every island, requests received equal answers sent plus the one open |
| ControllerRuns.DataIntact | src/distributed/logic/distributed_controller.cpp:42-50 | what is held for an island is its latest request's data, through any number of leaves |
| ControllerRuns.SentIsRecorded | src/distributed/logic/distributed_controller.cpp:141-151 | work goes only to the worker it is recorded for, and is an open request |
| ControllerRuns.SomeoneWorks | src/distributed/logic/distributed_controller.cpp:113-124 | with a worker connected and a request open, some worker has work |
| ControllerRuns.ResultsShrink | src/distributed/logic/distributed_controller.cpp:52-67 | each result lowers the number of open requests by exactly one |
| ControllerRuns.Drain | src/distributed/logic/distributed_controller.cpp:52-67 | with no more requests, joins or leaves, exactly as many results as open requests answer every island that had one, once |
| ControllerRuns.StatsConserved | src/distributed/logic/worker_info_repository.cpp:3-65 | over every run totals stay the sums over algorithms, and the grand total grows by the sizes of the results: exactly as long as a counter can hold it, modulo 2^64 always |
| ControllerRuns.TotalsSurvive | src/distributed/logic/worker_info_repository.cpp:3-65 | over every run, with any leaving and rejoining, each worker's processed individuals grow by the sizes of exactly its own results, and its work time by the times from being given work to those results, modulo 2^64 |
| ControllerRuns.CreditedByName | src/distributed/logic/worker_info_repository.cpp:60-64 | over every run, what a worker has under an algorithm name grows by its own results under exactly that name |
| ControllerFairness.OvertakenAtWill | src/distributed/logic/distributed_controller.cpp:154-179 | for every n there is a run in which n results are handled while an island waits throughout, from every state where another island may ask |
| ControllerFairness.NextForSureIff | src/distributed/logic/distributed_controller.cpp:154-162 | the freed worker takes an island whatever iteration yields first, if and only if it waits alone |
| ProtocolSafety.HandleEffect | src/distributed/logic/distributed_controller.cpp:14-179 | each handler gives work to at most one worker, which was free, and sends nothing else but the result |
| ProtocolSafety.WorkerStep | src/distributed/logic/distributed_worker.cpp:18-66 | whatever message the controller handles, every worker stays accounted for |
| ProtocolSafety.IslandStep | src/distributed/logic/distributed_island.cpp:98-138 | whatever message the controller handles, every island waits for exactly its own answer |
| ProtocolSafety.MessageSettles | src/distributed/logic/distributed_worker.cpp:44-66 | every message a worker sends is legal when the controller takes it, and its result belongs to the work recorded |
| ProtocolSafety.RequestSettles | src/distributed/logic/distributed_island.cpp:114-120 | every request is legal when the controller takes it |
| ProtocolSafety.ReceiveKeeps | src/distributed/logic/distributed_worker.cpp:18-42 | work arrives at an idle thread and a library at the thread blocked on it |
| ProtocolSafety.StepKeeps | src/distributed/logic/distributed_worker.cpp:18-66 | every step of any process in any order keeps the invariant of the composed system |
| ProtocolSafety.RunIsSafe | src/distributed/logic/distributed_worker.cpp:18-66 | so does every run, and no process faults |
| ProtocolSafety.StartIsSafe | src/distributed/logic/distributed_controller.cpp:185-234 | the state a system starts in has the invariant |
| ProtocolProperties.OneToken | src/distributed/logic/distributed_worker.cpp:44-66 | a running worker is allocated exactly when one of work in flight, busy thread and results in flight accounts for it, never two; a stopped one while its leave is on the way |
| ProtocolProperties.Arrivals | src/distributed/logic/distributed_worker.cpp:205-232 | the thread is never started over a running one, and a library reaches only the thread that asked for it |
| ProtocolProperties.OwnAnswer | src/distributed/logic/distributed_island.cpp:119-137 | an island receives the result computed from the request it waits on |
| ProtocolAnswers.AnswerIsGenuine | src/distributed/logic/distributed_island.cpp:106-137 | over every run, an island that takes an answer had asked with the algorithm, population and cycle count it then had; since then a worker that had its work finished running exactly that; and the island is left with the population and algorithm of that result |
| ProtocolProperties.FaultShows | src/distributed/logic/distributed_controller.cpp:236-252 | a process faults exactly when a handler throws or work arrives at a worker whose thread is not idle |
| ProtocolProperties.SizesConserved | src/distributed/logic/distributed_island.cpp:130-137 | over all cycles of every run an island's population whose size is a multiple of 4 keeps that size |
| ProtocolLiveness.NoDeadlock | src/distributed/logic/distributed_controller.cpp:113-179 | while a worker is up and an island waits, some step of the system's own is possible |
| ProtocolLiveness.StepShrinks | src/distributed/logic/distributed_controller.cpp:14-179 | every step of the system's own lowers a measure |
| ProtocolLiveness.StepsBounded | src/distributed/logic/distributed_controller.cpp:14-179 | over every run the system takes a bounded number of steps of its own, and 10 more for each request, library request, crash and connection |
| ProtocolLiveness.AllAnswered | src/distributed/logic/distributed_island.cpp:119-120 | over every run in which some worker stays up, the system's own steps are bounded so, and wherever it can take no other, every island has its answer |
| ProtocolLiveness.CanRejoin | src/distributed/logic/distributed_controller.cpp:35-51 | from every reachable state a stopped worker can come back, once what it left behind is handled |
| ProtocolLiveness.FreeToAct | src/distributed/logic/distributed_island.cpp:104-117 | processes may stop, islands at rest may ask, and running threads may ask for libraries and finish, at any time |
| PlanRealised.PreferredIsFree | src/distributed/logic/distributed_controller.cpp:132-143 | in a state that is as planned, the island's preferred worker is free when it asks and gets the work |
| PlanRealised.PlanIsRealised | src/distributed/logic/distributed_controller.cpp:126-179 | if each island has its own preferred worker, all free at the start with no request open, and none of them stops, then for every order of events and over all cycles each island gets exactly its preferred worker and nobody waits, whatever other workers do |
| NumberUtils.SafeDivide | src/distributed/utils/include/number_utils.h:11-16 | the quotient, or the fallback for a zero divisor |
| NumberUtils.LeastMultiple | src/distributed/utils/include/number_utils.h:24-30 | the result is the least multiple that is not below the input |
| NumberUtils.CeilIsMonotone | src/distributed/utils/include/number_utils.h:24-30 | a larger input is never rounded to less |
| Planner.AverageIsRate | src/distributed/logic/distributed_solver.cpp:84-97 | an average times the time is the number of individuals, and 0 without time |
| Planner.BestFitInCounters | src/distributed/logic/distributed_solver.cpp:79-115 | the choice in the counters themselves: either nobody free has a better rate under the algorithm's name, and nobody more than twice that in total; or nobody has a better rate in total, and nobody half of it under the name |
| Planner.FindBest | src/distributed/logic/distributed_solver.cpp:74-110 | for every order of the set, the best worker in total and the best for the algorithm |
| Planner.ChooseWorker | src/distributed/logic/distributed_solver.cpp:112-115 | the best for the algorithm, unless the best in total is more than twice as good |
| Planner.NextAlgorithm | src/distributed/logic/distributed_solver.cpp:30-40 | algorithms in turn, the first again after the last |
| Planner.AssignWorkers | src/distributed/logic/distributed_solver.cpp:68-120 | each island in turn gets the best fit of the workers no earlier island got, with algorithm i modulo their number |
| Planner.ChosenAreDistinct | src/distributed/logic/distributed_solver.cpp:117-119 | the chosen workers are connected and pairwise distinct |
| Planner.EntrySize | src/distributed/logic/distributed_solver.cpp:130-147 | the size of one entry, with the fallback when all metrics are zero |
| Planner.SizeByPerformance | src/distributed/logic/distributed_solver.cpp:122-153 | every entry is sized by its metric's part of the sum of all metrics |
| Planner.FractionsSumToOne | src/distributed/logic/distributed_solver.cpp:132-141 | the shares make up the whole, also when all metrics are zero |
| Planner.PerformanceSizes | src/distributed/logic/distributed_solver.cpp:122-153 | each size is a multiple of 4, at least the minimum and in proportion to its metric; all together miss the population by less than the number of islands and exceed it by at most the minimum and 3 an island; a larger metric never gets less |
| Planner.LargerGetsMore | src/distributed/logic/distributed_solver.cpp:143-147 | sizes are monotone in the metric |
| Planner.EqualSizes | src/distributed/logic/distributed_solver.cpp:50-52 | the same bounds for equal shares |
| Planner.PlanEqually | src/distributed/logic/distributed_solver.cpp:47-59 | one entry an island, all alike and without a preferred worker, algorithms in turn, within the bounds; undefined exactly for no islands or no algorithms |
| Planner.GenerateWorkPlan | src/distributed/logic/distributed_solver.cpp:24-157 | when there is a plan, which of the two it is, and all of the above for it |
| Splitter.Split | src/distributed/logic/distributed_worker.cpp:104-157 | each island takes the decision vectors that follow those of the islands before it and is random past the end; sizes are the base size, 4 more while that much is left over; an exception for no islands |
| Splitter.FilledIsCopied | src/distributed/logic/distributed_worker.cpp:142-151 | end to end the slots hold the population's decision vectors in order, each with its own fitness, as far as both reach |
| Splitter.SplitArithmetic | src/distributed/logic/distributed_worker.cpp:117-140 | for every total, minimum and island count the sizes are positive multiples of 4, never increase and differ by at most 4; all fit if the base sizes suffice, otherwise exactly the total modulo 4 is left out |
| Splitter.AllCopiedIff | src/distributed/logic/distributed_worker.cpp:117-140 | nobody is left out if and only if the total is a multiple of 4 or the base sizes cover it |
| Splitter.MinimumKeptIff | src/distributed/logic/distributed_worker.cpp:117-122 | when exactly the minimum is kept although it is rounded down |
| Splitter.BaseSizeIsTight | src/distributed/logic/distributed_worker.cpp:117-122 | the base size is the largest multiple of 4 that is not above the minimum and the equal share, or 4 |
| Splitter.NoRandomSlotIff | src/distributed/logic/distributed_worker.cpp:142-151 | no slot stays random if and only if the equal share is at least 4 and not below the minimum rounded down |
| PopulationTools.MergePopulations | src/distributed/logic/include/population_tools.h:16-30 | decision and fitness vectors of all islands in order, index by index of the same individual |
| PopulationTools.SelectBestSo | src/distributed/logic/include/population_tools.h:36-60 | the first n of a sorted permutation, filled up with index 0 if there are fewer |
| PopulationTools.BestIndexes | src/distributed/logic/include/population_tools.h:96-116 | which ordering is used in each of the three cases, and how many are taken from it |
| PopulationTools.UsableIff | src/distributed/logic/include/population_tools.h:46-59 | the indices are n, distinct and in range if and only if the pool holds n |
| PopulationTools.NobodyBetterIsLeftOut | src/distributed/logic/include/population_tools.h:46-53 | nobody left out has a better objective than anybody selected |
| PopulationTools.BuildNewPopulation | src/distributed/logic/include/population_tools.h:70-91 | the individuals at the selected places, evaluated anew |
| PopulationTools.SelectBestIntoNewPopulation | src/distributed/logic/include/population_tools.h:133-142 | the new population is built from the best of the pool; undefined exactly when a single-objective list is filled up from an empty pool |
| WorkerEvolve.ArchipelagoBasedWorker | src/distributed/logic/distributed_worker.cpp:159-203 | the population is split among the islands, these are evolved for the cycles asked for, and the result is selected from what they hold then, which is as many individuals as were sent if and only if the split leaves nobody out |
| WorkerEvolve.GivesBackAllIff | src/distributed/logic/distributed_worker.cpp:191-199 | as many individuals come back, from distinct places of the pool, if and only if the split leaves nobody out; and what comes back otherwise |
| WorkerEvolve.KeepsTheBest | src/distributed/logic/distributed_worker.cpp:191-199 | no individual of the evolved pool that is dropped is better than one that is given back |
| WorkerEvolve.RunWork | src/distributed/logic/distributed_worker.cpp:72-85 | in the single-threaded mode the library's evolution of the population, in the other mode the whole computation above; and in either, work whose size is a multiple of 4 comes back in that size, which is what the protocol relies on |
| Conservation.PlannedSizesLast | src/distributed/logic/distributed_solver.cpp:188-203 | from the plan to the last cycle each island has its planned number of individuals, and all together stay within the plan's bounds |
| Conservation.GreedyPlanIsDistinct | src/distributed/logic/distributed_solver.cpp:191-200 | islands built from a plan by performance have distinct, connected preferred workers |
| Conservation.PerformancePlanIsRealised | src/distributed/logic/distributed_solver.cpp:188-203 | and the protocol gives each of them that worker every time, over all cycles |

## Left out

- ZeroMQ sockets, pollers, heartbeats, frames and the serialised form of messages: foreign calls; messages are values on FIFO channels.
- A worker that is still running when its connection breaks and comes back, and then sends results of its earlier allocation: outside the transport assumptions above. `ControllerInvariant.StrayResults` says what the controller does with such a message.
- pagmo's evolution, migration, random initialisation and its orderings for several objectives and for constraints: library code, of which only the assumptions above are used.
- In the composed system the worker's evolution is any result that keeps a size that is a multiple of 4; `WorkerEvolve.RunWork` proves that of the worker.
- The worker's message loop and the island's `run_evolve` are steps of a state machine, one for each send or receive, not class methods: what matters there is how they interleave.
- The solver's refusal to start while it evolves, and its best individuals of the final populations: a guard, and the selection above without building a population.
- Sha256Class.Sha256.ProcessBlock: takes the 64 bytes as a value, where the source takes a pointer into the buffer or the caller's data; the path for big-endian machines is not modelled.
- Planner.GenerateWorkPlan: doubles are exact reals, so rounding is not modelled; the set of connected workers is one snapshot.
- PopulationTools.SelectBestSo: fitness values are reals, without NaN; `std::sort` is any function that returns a sorted permutation.
- RegistryClass.UdpRegistry.GetLibFile: file system and permission errors are not modelled, nor names that are rooted paths or hold "." or ".." components, with which two names can stand for one file; closing a library never fails.
- RegistryClass.UdpRegistry.NewInstance: the instances themselves, cloning and destroying them are left to the OS; a symbol looked up through a null handle is taken not to be found.
- ControllerClass.DistributedController.WorkResults: the bytes of a message and the value read from them are one value; a message that cannot be read is not modelled.
- Locks: a registry call that holds its lock throughout, and each repository call, is one step. The unlocked part of `get_lib_file_hash` is a step of its own between such calls; that it may run inside another thread's locked call, and race with it for the hash cache, is not modelled. The controller is one thread.
- DllWrapper.UdpDllWrapper.Load: an instance can always be read while its library is open; archives that are damaged are not modelled.
- Settings files, logging, the example program, benchmarks, CSV and HTML output, identifiers and path helpers: reporting and plumbing that would add only easy members.
- Initial hints for a population, and waiting until workers connect: plain assignments and a wait.
