# cHash in Dafny

cHash decides from hashes whether work can be skipped: the Clang and GCC plugins hash a syntax tree, the plugin
exchanges object files with a cache, and Python tools combine local hashes into global ones and compute which functions
a change can affect. This project models that logic and proves what it promises, and where it does not keep a promise,
exactly when it does.

| modules | what they are about |
|---|---|
| `Options`, `Reachability`, `MachineNumbers` | missing values; walks in finite directed graphs; bytes and fixed widths |
| `CallGraphs` | transitive callers and callees, change impact (`dependency_analyzer`) |
| `GlobalHash`, `GlobalHashReach`, `GlobalHashCollisions`, `GlobalHashSharing`, `GlobalHashMutualUse` | the memoised recursive hash with its in-progress set (`clang-hash-global`) |
| `FakeHash`, `FakeHashOrders`, `FakeHashMeaning` | the fast change impact, and what it says about the global hash (`dependency_analyzer`) |
| `MurmurMixing`, `Murmur`, `MurmurInjective`, `MurmurExamples` | the streaming hash class, its injectivity and literal digests (`clang-plugin/MurMurHash3.h`, `clang-plugin/Hash.h`) |
| `StreamHash`, `HashTrees` | stream operators and nested hashes (`gcc-plugin/Hash.h`) |
| `Sha1Standard`, `Sha1Example`, `Sha1` | FIPS 180-4 with an example, and the class that implements it (`clang-plugin/SHA1.h`) |
| `ObjectCache`, `ObjectCacheRaces`, `ObjectCacheCode` | the cache as a protocol over atomic file-system steps, its races, and the code of one run (`clang-plugin/clang-hash.cc`) |
| `AstHasher` | the memoising visitor (`clang-plugin/hash-visitor.h`) |
| `Futures` | the condition-variable protocol of the test runner (`test/run-tests`) |
| `LogLines`, `CompareLogs` | the lines of build logs, and their consistency check (`wrappers/gcc`, `wrappers/compare-logs`) |

`dafny verify dfyconfig.toml` checks everything.

How the parts fit together:

- Code that changes state is a class or a method with loops, proved against a specification function (`Query`,
  `FakeQuery`, `OneShot`, `Completed`, `Fed`, `Sha1`); the main results are lemmas about these functions. What a
  specification shares with the code, such as the selection of declarations, the order of a list or a constant, is fixed
  by a law of its own or by a literal example.
- A global hash is described by a *recipe*: which local hashes and which digests were fed to MD5, in which order. The
  recipe does not depend on any hash value, so statements about memoisation and cycles are about recipes, and statements
  about hashes follow by evaluating them with an arbitrary function in place of MD5.
- Python sets and dictionaries are iterated in an arbitrary order. The methods choose nondeterministically; results that
  depend on the order are stated for every order.
- In `ObjectCache` a world holds a file system of names and inodes and any number of runs, each with a program counter.
  One step is one system call. Runs may be killed and files deleted at any time.

Where the code falls short of what one would expect, the project gives the witness and the exact condition:

- A memo table shared by several global-hash queries agrees with separate queries exactly without mutual use
  (`SharingAgreesExactlyWithoutMutualUse` for what is hashed, `SharedHashesAgreeExactlyWithoutMutualUse` for the hashes,
  `PairHashesDiffer` for a concrete case).
- The fast impact analysis can miss functions on cyclic call graphs (`CycleTraps`); it is right for all orders exactly
  when there is no trap and no changed function is without a record, which only the slow form reports
  (`FastIsExactForAllOrdersIffNoTrap`).
- A run killed between linking the new copy and truncating the hash file leaves a pair of files that later delivers a
  wrong object (`KilledRunLeavesPairInOrder`, `TornPairDeliversWrongObject`, `PairInOrderIffEveryRunDelivers`).
- A hit in a shared cache can deliver no object at all (`HitLosesRace`). It is sure of its object exactly when the entry
  is there and no run that missed for the same hash has still to unlink it (`HitDeliversIffEntrySecure`).
- After compile errors a stale object file can be filed under the new hash (`ErrorsKeepOrderIffNoStaleObject`).
- `SHA1::finalize` writes only the lower 32 bits of the length: its padding is the standard's exactly below 2^29 bytes
  (`PaddingIsStandard`), and below that length the digest is SHA-1 (`DigestOf`).
- A log record with white space in one of its parts is not read back (`RecordReadsBackIffNoSpace`).
- The Murmur start state is not that of a reference seed; the specification is stated from the start state in the code.

## Model

| member | source | states |
|---|---|---|
| `CallGraphs.DependencyAnalyzer.GetDependents` | dependency_analyzer:49-65 | From an empty processed set: exactly the functions with a chain of one or more calls to the symbol, on cyclic graphs too, and it terminates. With functions in progress: exactly those found by walks that do not leave a function in progress. The processed set is restored |
| `CallGraphs.DependencyAnalyzer.GetDependees` | dependency_analyzer:68-84 | The analysed functions a chain of calls leads to, by walks that do not leave a function in progress; a symbol without a record gives the KeyError and stays in the processed set, except that on an empty call graph nothing is looked up and the result is empty |
| `CallGraphs.DependencyAnalyzer.AddDependeesOf` | dependency_analyzer:79-82 | The loop gathers the direct callees and what is found below each of them, in whatever order they come |
| `CallGraphs.DependencyAnalyzer.GetDependencyGraphOf` | dependency_analyzer:87-92 | For any processed set: the part of the call graph spanned by the symbol and what the search finds below it, from an empty set its transitive callees; without a record of the symbol the KeyError, and the set keeps the symbol unless the call graph is empty |
| `CallGraphs.DependencyAnalyzer.GetImpactedFuncs` | dependency_analyzer:131-144 | The changed functions and everything that calls one of them directly or indirectly |
| `Reachability.StepsToRecurrence` | dependency_analyzer:56-64 | Why pruning by the current path alone is enough: a symbol is reached from `a` without leaving `avoid` if and only if a direct successor is it, or reaches it without leaving `avoid` or `a` |
| `CallGraphs.ReversedCalls` | dependency_analyzer:60 | The search for callers, on the reversed graph, finds exactly the starts of call chains |
| `CallGraphs.AnalysedCalls` | dependency_analyzer:79 | Skipping callees without a record loses no chain that ends at a recorded function |
| `CallGraphs.DependentsAndDependeesAreDual` | dependency_analyzer:49-84 | For recorded functions: s is a dependent of t if and only if t is a dependee of s |
| `CallGraphs.OwnDependentOnCycle` | dependency_analyzer:49-65 | A function is among its own dependents if and only if it lies on a cycle of calls |
| `CallGraphs.ImpactIdempotent` | dependency_analyzer:131-144 | The impact of the impact is the impact |
| `CallGraphs.ImpactDistributes` | dependency_analyzer:131-144 | Impact holds the changes, distributes over union, and is monotone |
| `CallGraphs.ImpactHoldsCallers` | dependency_analyzer:140-142 | Whoever calls an impacted function is impacted, also when that function has no record of its own, as after its deletion |
| `CallGraphs.ImpactIsLeast` | dependency_analyzer:131-144 | Impact is contained in every set that holds the changes and all direct callers of its members; with ImpactHoldsCallers it is the least such set |
| `CallGraphs.DependeesInsideDependencyGraph` | dependency_analyzer:87-92 | Dependees computed inside the dependency graph of a root are those of the whole graph |
| `GlobalHash.GlobalHasher.GetGlobalHash` | clang-hash-global:28-46 | For any memo table, in-progress set and visited set: the hash, the new table and the visited set are those of the specification query; the in-progress set ends as it began |
| `GlobalHash.GlobalHasher.ComputeGlobalHash` | clang-hash-global:48-67 | A missed symbol gets MD5 of its local hash followed by the global hashes of its used definitions in order, and that is memoised |
| `GlobalHashReach.FreshQueryVisitsReachable` | clang-hash-global:28-67 | A query with an empty table visits exactly the symbols its root reaches through symbols with local hashes, and memoises exactly those visited symbols that have one |
| `GlobalHashReach.SameShapeSameQuery` | clang-hash-global:39-61 | The branches taken never depend on a hash value: two programs of the same shape below the root get the same recipe |
| `GlobalHashReach.EditsElsewhereDoNotMatter` | clang-hash-global:28-67 | Edits to symbols the root does not reach leave its global hash unchanged |
| `GlobalHashCollisions.ReachedIsExpanded` | clang-hash-global:48-67 | The local hash of every reached symbol goes into the root's hash together with its used definitions, whatever cycles there are |
| `GlobalHashCollisions.EqualValuesDescend` | clang-hash-global:50-61 | Two equal hashes with one recipe: equal local hashes everywhere in it, or two different hashed texts with the same MD5 |
| `GlobalHashCollisions.GlobalHashDeterminesLocalHashes` | clang-hash-global:28-67 | For programs of one shape with hashes of fixed length: the root's global hashes are equal if and only if every local hash it reaches is, or two texts hashed on the way are an MD5 collision |
| `GlobalHashSharing.PlainRecursion` | clang-hash-global:48-65 | For a symbol that reaches no cycle of two or more symbols, cutting at symbols in progress is the plain recursion over its used definitions |
| `GlobalHashSharing.QueryKeepsCoherence` | clang-hash-global:42-67 | A query keeps the memo table right about all such symbols, even while others are in progress |
| `GlobalHashSharing.CoherentTableGivesPlainDigest` | clang-hash-global:42-67 | Whatever coherent table a query starts from, such a symbol gets its plain recursive digest |
| `GlobalHashSharing.GlobalHashEquation` | clang-hash-global:48-65 | For a symbol that reaches no cycle of two or more symbols, the global hash is MD5 of its local hash followed by the global hashes of the entries of its list, in order and without those that have none; a symbol without a list gets MD5 of its local hash |
| `GlobalHashSharing.Run` | clang-hash-global:141-153 | One table shared by all names: fails if and only if a name is neither a function nor a variable with a local hash; otherwise the hashes are those of the queries in turn, and every name has the hash of a separate query for its function, or if there is none its variable, when that reaches no mutual use, as test/global_hash/global_hash.sh:283-286 expects, provided no bare name is itself the key of a local hash |
| `GlobalHashSharing.MutualUserIsCut` | clang-hash-global:42-46 | If b uses a directly and a reaches b, a query for a leaves a hash of b made with the bare local hash of a, which a query of its own for b never takes |
| `GlobalHashSharing.SharingChangesMutualUser` | clang-hash-global:42-46 | So asking for a first changes what is hashed for b, on every graph |
| `GlobalHashSharing.SharingAgreesExactlyWithoutMutualUse` | clang-hash-global:141-153 | A shared table hashes the same as separate queries for all pairs of symbols if and only if no symbol reaches a cycle of two or more symbols |
| `GlobalHashMutualUse.QueryFollowsUses` | clang-hash-global:53-61 | Every hash has one part for each used definition with a local hash, in order, each for its own symbol |
| `GlobalHashMutualUse.SharingChangesMutualUserHash` | clang-hash-global:28-67 | If b uses a directly and a reaches b, the hash of b from the shared table differs from its own, or two texts hashed for b collide, or one of them has the local hash of a as its MD5 |
| `GlobalHashMutualUse.SharedHashesAgreeExactlyWithoutMutualUse` | clang-hash-global:141-153 | On the hashes themselves: a shared table agrees with separate queries for all pairs if and only if no symbol reaches a cycle of two or more symbols, unless MD5 is unlucky on a text that is hashed |
| `GlobalHashMutualUse.PairHashesDiffer` | clang-hash-global:42-46 | A concrete input: two functions that call each other, and a hash function under which the two hashes of the second are different strings |
| `FakeHash.FakeHasher.GetFakeGlobalHash` | dependency_analyzer:154-193 | The answer and the memo table are those of the specification query, and the in-progress set is restored |
| `FakeHash.LaterCalleesAreNotAsked` | dependency_analyzer:183-188 | Once a callee has answered 1, the callees listed after it change neither the answer nor the table; while all answer 0, the search goes on with the table they leave |
| `FakeHash.GetFakeGlobalHashes` | dependency_analyzer:196-202 | One table for all keys, each visited once, in some order |
| `FakeHash.GetImpactedFuncsFakeHash` | dependency_analyzer:205-209 | Reports only impacted functions; without mutual calls it equals the slow form if and only if all changed functions are keys |
| `FakeHash.FreshQueryIsExact` | dependency_analyzer:154-193 | A query with an empty table answers 1 for its root if and only if the root reaches a changed key, on every graph, although zeros memoised inside a cycle can be wrong |
| `FakeHash.SharedTable` | dependency_analyzer:196-202 | The shared table, for every order of the keys: no 1 is wrong, and it is exact for all symbols that reach no cycle of two or more functions |
| `FakeHash.FastIsSound` | dependency_analyzer:205-209 | On every graph and for every order of keys the fast form reports a subset of the impact, and is exact for symbols that reach no cycle of two or more functions |
| `FakeHash.FastEqualsSlowWithoutMutualCalls` | dependency_analyzer:131-144 | Without mutual calls: fast equals slow if and only if all changed functions are keys |
| `FakeHash.FastIsExactIffClosed` | dependency_analyzer:205-209 | For one order of keys: exact if and only if the report holds every recorded caller of a reported function |
| `FakeHashOrders.TrapLosesImpact` | dependency_analyzer:174-192 | A trap, a chain of unchanged functions calling one that reaches a change only back through the chain, loses an impacted function under some listing of callees and some order of the keys without repetition |
| `FakeHashOrders.FastIsExactForAllOrdersIffNoTrap` | dependency_analyzer:196-209 | Fast equals slow for all listings and orders if and only if all changed functions are keys and the call graph has no trap |
| `FakeHashOrders.CycleTraps` | dependency_analyzer:174-175 | The witness: a calls b and c, b calls a, c changed; the chain of a alone traps b |
| `FakeHashMeaning.FakeHashTellsGlobalHashChange` | dependency_analyzer:154-193 | For two versions of a program with the same used definitions: a fresh fake query answers 1 if and only if the global hash of the symbol changes, or two texts hashed on the way are an MD5 collision |
| `MurmurMixing.Mix1Inverse` | clang-plugin/MurMurHash3.h:220-222 | What happens to the first word of a block is undone by multiplication with the inverses modulo 2^64 and the opposite rotation, both ways |
| `MurmurMixing.Mix2Inverse` | clang-plugin/MurMurHash3.h:229-231 | The same for the second word |
| `MurmurMixing.Fmix64Inverse` | clang-plugin/MurMurHash3.h:100-108 | The final avalanche of a word is a bijection, with its inverse |
| `Murmur.MurMurHash3.Reset` | clang-plugin/MurMurHash3.h:130-136 | The start state, with nothing fed |
| `Murmur.MurMurHash3.Copy` | clang-plugin/MurMurHash3.h:119-128 | The copy has been fed the same bytes and counts the same |
| `Murmur.MurMurHash3.ProcessByte` | clang-plugin/MurMurHash3.h:138-146 | Keeps the invariant: the state is the fold over the complete little-endian blocks fed so far and the buffer holds the remainder; the count wraps around |
| `Murmur.MurMurHash3.ProcessBlock` | clang-plugin/MurMurHash3.h:216-237 | The state change of one block of two little-endian words |
| `Murmur.MurMurHash3.UpperTail` | clang-plugin/MurMurHash3.h:154-188 | The upper half of the fall-through switch reads buffered bytes from 8 on as a little-endian word |
| `Murmur.MurMurHash3.LowerTail` | clang-plugin/MurMurHash3.h:154-193 | The lower half reads the bytes before as a little-endian word |
| `Murmur.MurMurHash3.MixTail` | clang-plugin/MurMurHash3.h:149-193 | The switch mixes the remainder in like the two words of a zero-padded block; words without bytes are left out without harm |
| `Murmur.MurMurHash3.Finalize` | clang-plugin/MurMurHash3.h:148-213 | The digest is the one-shot function of all bytes fed and of the count; returns the count truncated to 32 bits |
| `Murmur.PaddedWords` | clang-plugin/MurMurHash3.h:150-193 | Zero padding does not change the little-endian words of a remainder |
| `Murmur.BlocksOfPrefix` | clang-plugin/MurMurHash3.h:138-146 | Hashing appended bytes continues from the state of the prefix and its remainder |
| `Murmur.MurMurHash3.Update` | clang-plugin/Hash.h:34-41 | Feeds the bytes in order |
| `Murmur.MurMurHash3.Final` | clang-plugin/Hash.h:43-46 | The digest so far, without changing the hash |
| `Murmur.DigestsOfParts` | clang-plugin/Hash.h:29-46 | For any split of a message into updates with a digest taken after each: every digest is the one-shot digest of the message so far |
| `MurmurInjective.BlockStepBijectiveInState` | clang-plugin/MurMurHash3.h:216-237 | For a fixed block the block step is a bijection of the state |
| `MurmurInjective.BlockStepBijectiveInBlock` | clang-plugin/MurMurHash3.h:216-237 | For fixed states before and after, exactly one block leads from one to the other |
| `MurmurInjective.FinishInverse` | clang-plugin/MurMurHash3.h:195-212 | The final mix is invertible for a fixed count |
| `MurmurInjective.CountComesOut` | clang-plugin/MurMurHash3.h:195-212 | With the byte count, a digest gives back the state after the tail, for all messages and counts |
| `MurmurInjective.CountShows` | clang-plugin/MurMurHash3.h:196-198 | Digests of the same bytes with two counts are equal if and only if the counts are |
| `MurmurInjective.BlocksInjectiveInState` | clang-plugin/MurMurHash3.h:138-146 | Equal states after the same bytes were equal before |
| `MurmurInjective.WordInjective` | clang-plugin/MurMurHash3.h:216-218 | Bytes of one length are determined by their little-endian word |
| `MurmurInjective.TailInjective` | clang-plugin/MurMurHash3.h:150-193 | For remainders of one length the tail is injective in the remainder and in the state |
| `MurmurInjective.NoCollisionWithinBlock` | clang-plugin/MurMurHash3.h:148-237 | Two messages of equal length that differ at most inside one aligned block, or at most in the remainder, have the same digest if and only if they are equal |
| `MurmurInjective.ShortMessagesNeverCollide` | clang-plugin/MurMurHash3.h:148-237 | On messages of one length up to 16 bytes the digest is injective |
| `MurmurExamples.DigestsOfZeros` | clang-plugin/MurMurHash3.h:130-136 | The literal digests of the empty message and of a zero byte, which only the count tells apart |
| `MurmurExamples.DigestOfSample` | clang-plugin/MurMurHash3.h:148-240 | The literal digest of the bytes 1 to 31, a full block and a remainder, which fixes every constant, rotation and byte order |
| `StreamHash.Hash.ProcessBytes` | gcc-plugin/Hash.h:35-49 | Feeds the bytes and counts them; the block index stays the number of bytes fed modulo 16 |
| `StreamHash.Hash.GetDigest` | gcc-plugin/Hash.h:52-57 | The digest of all bytes fed, with the count truncated to 32 bits; the hash is unchanged |
| `StreamHash.Hash.AddUInt64` | gcc-plugin/Hash.h:60-78 | Feeds exactly the eight little-endian bytes, through the halves |
| `StreamHash.Hash.AddUInt32` | gcc-plugin/Hash.h:70-73 | Feeds exactly the four little-endian bytes |
| `StreamHash.Hash.AddUInt16` | gcc-plugin/Hash.h:65-68 | Feeds exactly the two little-endian bytes |
| `StreamHash.Hash.AddInt64` | gcc-plugin/Hash.h:80-98 | Feeds exactly the eight little-endian bytes of the two's complement, although the lower half is wrapped to a signed type |
| `StreamHash.Hash.AddInt32` | gcc-plugin/Hash.h:90-93 | Feeds exactly the four bytes of the two's complement |
| `StreamHash.Hash.AddInt16` | gcc-plugin/Hash.h:85-88 | Feeds exactly the two bytes of the two's complement |
| `StreamHash.Halves` | gcc-plugin/Hash.h:65-98 | Splitting a number in halves splits its bytes, also when the lower half was wrapped |
| `StreamHash.UnsignedRoundTrip` | gcc-plugin/Hash.h:60-78 | The value of an unsigned operator can be read back from the bytes it feeds |
| `StreamHash.SignedRoundTrip` | gcc-plugin/Hash.h:80-98 | The value of a signed operator can be read back from the bytes it feeds |
| `StreamHash.Hash.AddDigest` | gcc-plugin/Hash.h:100-103 | Feeds the 16 bytes of the value and adds the length of the digest to the count |
| `StreamHash.Hash.AddHash` | gcc-plugin/Hash.h:105-108 | Absorbs the digest of another hash, which is not changed by that |
| `StreamHash.WordRoundTrip` | gcc-plugin/Hash.h:102 | The bytes of an absorbed word, read as a word of a block, give it back |
| `StreamHash.StateRoundTrip` | gcc-plugin/Hash.h:102 | The two halves of the bytes of an absorbed digest read as its first and its second word |
| `HashTrees.HashItems` | gcc-plugin/Hash.h:35-113 | Hashing a tree of byte strings and absorbed hashes feeds and counts what the specification of the tree says |
| `HashTrees.DigestOf` | gcc-plugin/Hash.h:52-113 | The digest of a tree: its value, and the total length modulo 2^32 |
| `HashTrees.LengthIsTotal` | gcc-plugin/Hash.h:100-108 | The length of the root digest is all bytes written anywhere plus 16 for each absorbed hash, modulo 2^32, for every tree; it is exact if and only if that total is below 2^32 |
| `HashTrees.EqualDigestsEqualTrees` | gcc-plugin/Hash.h:100-108 | Trees of one shape with equal root values are equal if and only if no two different messages at one place of both trees have the same hash value |
| `HashTrees.NarrowTreesNeverCollide` | gcc-plugin/Hash.h:100-108 | Trees of one shape in which no hash is fed more than 16 bytes have equal digests if and only if they are equal |
| `ObjectCache.StepKeepsInv` | clang-plugin/clang-hash.cc:59-84 | Every system call of every run, in whatever state the other runs are, keeps the invariant of the cache |
| `ObjectCache.ExecutionKeepsInv` | clang-plugin/clang-hash.cc:33-155 | The invariant holds in every state of every interleaving of any number of runs, starts, exits, kills and deletions |
| `ObjectCache.CacheNeverDeliversWrongObject` | clang-plugin/clang-hash.cc:106-127 | In every interleaving an entry filed under a hash is the object for it; a finished run has no wrong object, in the shared mode always and in the per-object mode unless a run was killed in the window |
| `ObjectCache.CompletedRunDelivers` | clang-plugin/clang-hash.cc:252-272 | In any state in order, an undisturbed run leaves the object its hash requires, cached and recorded, and everything stays in order |
| `ObjectCache.RepeatedRunHits` | clang-plugin/clang-hash.cc:117-155 | After that a run with the same hash hits |
| `ObjectCache.EveryCompletedRunDelivers` | clang-plugin/clang-hash.cc:59-84 | Over any sequence of completed runs with arbitrary hashes and deletions of any files, each run leaves the object its own hash requires |
| `ObjectCache.KilledRunLeavesPairInOrder` | clang-plugin/clang-hash.cc:72-84 | Killing an undisturbed run after any number of steps: the pair of files is in order if and only if it was not between linking the new copy and truncating a hash file that holds another hash |
| `ObjectCache.TornPairDeliversWrongObject` | clang-plugin/clang-hash.cc:72-84 | What that exception costs: the next run for the old hash hits and delivers the object of the killed run |
| `ObjectCache.PairInOrderIffEveryRunDelivers` | clang-plugin/clang-hash.cc:117-155 | The pair of files is in order if and only if every undisturbed run, whatever its hash, delivers the object its hash requires |
| `ObjectCacheRaces.NextStaysSecure` | clang-plugin/clang-hash.cc:59-76 | A hit in the shared cache that has its entry, and that no pending miss can take it from, stays so under every step of any run, start, kill or deletion of other files |
| `ObjectCacheRaces.PendingUnlinkTakes` | clang-plugin/clang-hash.cc:59-66 | Otherwise there is a continuation, without a kill or a deletion, in which the hit ends without any object |
| `ObjectCacheRaces.HitDeliversIffEntrySecure` | clang-plugin/clang-hash.cc:59-76 | In every execution: a hit in the shared cache about to exchange its object delivers it in every continuation if and only if its entry is there and no run that missed for the same hash has still to unlink it |
| `ObjectCacheRaces.HitLosesRace` | clang-plugin/clang-hash.cc:59-76 | The witness from an empty file system: two runs miss, the second files its object, a third hits, the first unlinks the entry, and the third ends with no object |
| `ObjectCacheCode.Plugin.FindObjectFromHash` | clang-plugin/clang-hash.cc:117-155 | Finds a cached object if and only if the run of the protocol model hits |
| `ObjectCacheCode.Plugin.LinkObjectFile` | clang-plugin/clang-hash.cc:33-89 | The exit handler has the effect of the remaining steps of the protocol model |
| `ObjectCacheCode.Plugin.HandleTranslationUnit` | clang-plugin/clang-hash.cc:252-402 | Lookup, decision, compilation and exit handler together are one run of the protocol model, and deliver the object the hash requires; without caching only the object is written, and after compile errors only the exit handler acts |
| `ObjectCacheCode.ErrorsKeepOrderIffNoStaleObject` | clang-plugin/clang-hash.cc:257-258 | A compile with errors keeps the cache in order if and only if the object file left from before, if any, is the object for the new hash; otherwise the stale object is filed under the new hash |
| `AstHasher.CHashVisitor.AddType` | clang-plugin/hash-visitor.h:47-71 | Feeds the plain digest of the type and the qualifiers, whether or not the silo had it; restores the stack below and keeps the silos right |
| `AstHasher.CHashVisitor.TraverseDecl` | clang-plugin/hash-visitor.h:157-187 | Feeds to the top hash exactly what the un-memoised recursion would, restores the stack below, and keeps every silo entry equal to the plain digest of its node |
| `AstHasher.CHashVisitor.TraverseItems` | clang-plugin/hash-visitor.h:89-101 | The same for the parts of a node in order |
| `AstHasher.CHashVisitor.TraverseTranslationUnitDecl` | clang-plugin/hash-visitor.h:107-155 | Stores the plain digest of the unit without the skipped declarations, and leaves the stack as it was |
| `AstHasher.OnlyKeptChildrenCount` | clang-plugin/hash-visitor.h:118-150 | Only the top-level declarations that are not skipped feed the unit's hash |
| `AstHasher.OneMoreChild` | clang-plugin/hash-visitor.h:118-150 | Kind by kind: a typedef, record, enum, external variable or function that is neither definition nor alias feeds nothing; every other top-level declaration feeds what a reference to it feeds |
| `AstHasher.FedInExtension` | clang-plugin/hash-visitor.h:47-71 | More nodes that nothing refers to change no digest |
| `AstHasher.KeptDeclarationsDecide` | clang-plugin/hash-visitor.h:107-155 | Units with the same declarations that are not skipped have the same digest, in a graph extended by nodes nothing refers to |
| `AstHasher.InsertedDeclarationsDoNotShow` | clang-plugin/hash-visitor.h:107-155 | Inserting unreferenced typedefs, records, enums, external variables and functions that are neither definitions nor aliases, any number and anywhere, leaves the digest of the translation unit unchanged |
| `Futures.NextKeepsInv` | test/run-tests:74-88 | Every step of the setter or a getter keeps the invariant of the lock, the flag, the value and the sleepers |
| `Futures.GettersReturnTheSetValue` | test/run-tests:74-88 | In every interleaving, the unlocked first test included, a getter that returns returns the set value, and after set no getter sleeps |
| `Futures.SetterIsNeverStuck` | test/run-tests:83-88 | Until set has finished, the setter or the getter that holds the lock can move |
| `Futures.EveryStepCounts` | test/run-tests:74-81 | After set, a getter's step brings it closer to its return and changes no other getter |
| `Futures.NoDeadlock` | test/run-tests:74-81 | After set, while a getter has not returned, some getter can move |
| `Futures.AllGettersReturn` | test/run-tests:74-81 | After set, every execution of the present getters is bounded by the sum of their remaining steps, and when none can move all have returned the value |
| `LogLines.RecordReadsBackIffNoSpace` | wrappers/gcc:75 | A record is read back from the line the compiler wrapper writes for it if and only if none of its parts contains white space |
| `LogLines.WordsSplitAtSpace` | wrappers/compare-logs:16-18 | Splitting: a blank separates the words before it from the words after it, on any text |
| `CompareLogs.ParseLine` | wrappers/compare-logs:14-22 | A line of other origin has no fields; otherwise its words with a colon are the fields, the last of a name counting |
| `CompareLogs.LogHoldsLastRecords` | wrappers/compare-logs:13-32 | A table built line by line holds exactly the files with a complete line, each with its last one |
| `CompareLogs.ReadLog` | wrappers/compare-logs:9-32 | The table read from the lines of a log has that property |
| `CompareLogs.FirstDoesNotMatter` | wrappers/compare-logs:73-79 | Comparing with the first record decides whether any two records of a group differ, whichever comes first |
| `CompareLogs.FollowSameFiles` | wrappers/compare-logs:51-64 | Counts the files in both logs whose object changed under the same AST hash, and the others |
| `CompareLogs.CountGroupProblems` | wrappers/compare-logs:66-82 | Counts the AST hashes under which different objects were built from different files |
| `CompareLogs.CountOverapproximations` | wrappers/compare-logs:84-100 | Counts the object hashes that came with different AST hashes |
| `CompareLogs.WhatThePassesReport` | wrappers/compare-logs:73-100 | Stated on the fields of the records: an AST hash is reported exactly when it came with different objects and with different files, an object hash exactly when it came with different AST hashes |
| `CompareLogs.CompareTwo` | wrappers/compare-logs:49-104 | Zero problems if and only if equal AST hash implies equal object hash over all records of both logs; zero warnings if and only if the converse implication holds |
| `CompareLogs.NoProblemsIffConsistent` | wrappers/compare-logs:49-82 | The two passes together decide that relation: what the grouped pass skips, the first pass has seen |
| `CompareLogs.NoOverapproximation` | wrappers/compare-logs:84-100 | The third pass decides the converse relation |
| `Sha1.SHA1.Reset` | clang-plugin/SHA1.h:49-58 | The initial hash value, with nothing fed |
| `Sha1.SHA1.ProcessByte` | clang-plugin/SHA1.h:60-68 | Keeps the invariant: the digest is the standard's hash value after the complete blocks, the buffer holds the remainder |
| `Sha1.SHA1.Schedule` | clang-plugin/SHA1.h:105-114 | Fills in the message schedule of the standard |
| `Sha1.SHA1.RoundFunction` | clang-plugin/SHA1.h:124-138 | The chain of conditions selects the round function and constant of the standard |
| `Sha1.SHA1.ProcessBlock` | clang-plugin/SHA1.h:104-152 | The 80 rounds on the buffer compute the standard's compression function (section 6.1.2 of FIPS 180-4) |
| `Sha1.SHA1.FeedZerosUntil` | clang-plugin/SHA1.h:73-84 | A padding loop terminates at its goal and feeds just the zeros between |
| `Sha1.SHA1.FeedZeros` | clang-plugin/SHA1.h:73-84 | Both branches end eight bytes before a block boundary |
| `Sha1.SHA1.FeedPadding` | clang-plugin/SHA1.h:71-92 | Appends the padding as written: 0x80, the zeros, and the lower half of the length |
| `Sha1.SHA1.Finalize` | clang-plugin/SHA1.h:70-97 | The digest is the hash value of the message with the padding as written; below 2^29 bytes that is SHA-1 |
| `Sha1.DigestOf` | clang-plugin/SHA1.h:49-97 | A message shorter than 2^29 bytes, fed byte by byte, gets the SHA-1 digest of the standard |
| `Sha1.LeftRotateIsRotl` | clang-plugin/SHA1.h:100-102 | The XOR form of the rotation is the standard's OR form for the amounts used |
| `Sha1.OrFormsAreXorForms` | clang-plugin/SHA1.h:126-138 | The OR forms of the round functions equal those of section 4.1.1 |
| `Sha1.PaddingIsStandard` | clang-plugin/SHA1.h:70-92 | The padding written is that of section 5.1.1 if and only if the message is shorter than 2^29 bytes: above, the upper half of the length is missing |
| `Sha1.BlocksOfPrefix` | clang-plugin/SHA1.h:60-68 | Hashing appended bytes continues from the prefix and its remainder |
| `Sha1Standard.PaddingCompletes` | clang-plugin/SHA1.h:72-84 | The standard's padding ends on a block boundary and no shorter one does |
| `Sha1Standard.BigEndianReads` | clang-plugin/SHA1.h:85-92 | Bytes written most significant first read back as the number modulo their range |
| `Sha1Standard.LengthReadsBack` | clang-plugin/SHA1.h:71-92 | The last eight bytes of the padding read as the length in bits, for every length the standard allows |
| `Sha1Example.DigestOfAbc` | clang-plugin/SHA1.h:70-152 | The digest of the message abc is the one the standard's example gives, which fixes the schedule, the round functions, the constants, the additions and the order of the bytes |

## Left out

- GlobalHashMutualUse.SharedHashesAgreeExactlyWithoutMutualUse: assumes that local hashes are as long as MD5 digests, as the plugin's hash strings are.
- GlobalHashSharing.Run: the promise about hashes is made when no requested name is itself the key of a local hash; keys carry a prefix such as `function:` and requested names do not. With `--all` the names are such keys and the tool ends with "not found".
- GlobalHash.GlobalHasher.GetGlobalHash: a query without a visited set (`visited=None`) is not modelled separately; the set has no influence on the hash.
- FakeHash.FastIsExactIffClosed: for one fixed order the condition looks at the report; a condition on the call graph alone is given for all orders together.
- ObjectCache.CacheNeverDeliversWrongObject: assumes that a compile which misses writes its object to a new inode, that no compile errors occurred (they are in ObjectCacheCode), that concurrent runs use different object files, that hashes have 32 characters, and that equal hashes mean equal objects.
- ObjectCacheCode.Plugin.HandleTranslationUnit: assumes that a compile with errors leaves the object file as it was; the timestamp, the event log, creating directories and failures of permission are left out.
- AstHasher.CHashVisitor.TraverseDecl: which data a node feeds and in which order comes from Clang's visitor and is a parameter (the items of a node), and so is which declarations keep their digest; hashing a function reference without its body and the pointer check in popHash are left out.
- AstHasher.InsertedDeclarationsDoNotShow: syntax graphs are acyclic, which ranks witness; the code breaks cycles through fields, typedefs and enums by feeding names instead.
- Futures.AllGettersReturn: condition variables wake sleepers only when notified; a spurious wake-up would lead back to the locked test.
- CompareLogs.ReadLog: the test `is "None"` is left out; it compares identities and never holds for a field that was read from a line.
- Murmur.MurMurHash3.ProcessBlock: the host is little-endian, as the cast of the buffer to words assumes.
- StreamHash.Hash.AddHash: the host is little-endian, so the bytes of an absorbed digest are those of its two words, lowest first.
- The Clang and GCC syntax trees, the data collectors and the order of RecursiveASTVisitor: foreign code.
- MD5 is an arbitrary function on strings; only the fixed length of its output is ever used. What the compiler writes is a function of the hash.
- Command lines, the `--local` branch, reading `.info` files and printing results, hexadecimal digest strings, and `compare_logs_seq`, which only calls the comparison for neighbouring logs.
- `gcc-plugin/chash.cc`, `dump.cc` and the generated headers: printing and boilerplate.
- `gcc-show-ast` (its search repeats the visited-set property above) and everything in `experiments/`.
