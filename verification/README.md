# A verified model of the memory-hierarchy simulator

The simulator translates virtual addresses through page tables and TLBs and serves
reads and writes through a two-level cache. Each part has a far simpler meaning: a TLB
answers what the page walk would, a cache returns what memory holds, a linked list or a
set of ages keeps an order of use. This project models the parts as the source has them
and proves that they agree with those meanings, over every input and every run.

Memory is an array of bytes, a `word_t` is its four bytes in little-endian order and a
cache line its sixteen, so a `memcpy` is a splice. Bit fields are bounded integers;
shifts and masks are quotients and remainders.

## How the model is laid out

- `Addresses`, `PageWalk`: virtual and physical addresses, the four-level walk.
- `LinkedList`: the doubly linked list, with nodes on the heap.
- `FullTlb` (in place) and `FullTlbSpec` (what one search does, and whole runs): the fully
  associative TLB, for any number of lines; the source has 128.
- `Hierarchy` and `HierarchySpec`: the two-level TLB.
- `Recency`: LRU replacement on sequences, which both implementations of LRU refine.
- `CacheLevel`, `AgeSets`, `VictimSets`, `SetLookup`, `LineNames`: one level of cache in
  place, its sets with ages, holes and lookups, and the names of lines.
- `FlatMemory`: the four calls of the cache over a flat array of bytes, the reference.
- `CacheStore`: an L1, an L2 and memory in place.
- `ExclusiveCache` (in place), `ExclusiveSpec`, `ExclusiveRuns`: the two-level cache that the
  headers describe. `VictimLists`, `VictimRuns`: replacement in its L2.
- `SplitSpec`, `SplitRuns`: the same with an L1 for instructions and an L1 for data.
- `WrittenCache` (in place), `WrittenSpec`: the two-level cache as the code has it;
  `WrittenCalls`, `WrittenBytes`, `WrittenRuns`, `WrittenSplit`: when it is transparent, and
  what wrong writes do; `WrittenVictims`: what becomes of its victims;
  `WrittenLru`, `WrittenContents`, `WrittenLruRuns`, `WrittenReads`: when it is LRU; `Bits`:
  `|` on bytes.
- `LruAgreement`: list-based and age-based LRU against each other.
- `Mmu`, `Storage`, `Machine`, `MachineRuns`: command lists through any of three
  translations and three versions of the caches.

A class holds the state that the source changes in place; each of its methods is proved
against a function on values, and the properties are proved about those functions.

## The cache: what is documented and what is written

The headers promise an exclusive, write-through, write-allocate two-level cache with LRU
replacement. The code does not do that, so there are two models.

`ExclusiveSpec` is the documented policy with the structure of the code. Its comment lists
every repair with the lines concerned. One of them needs a rule that the source does not
spell out: a promotion leaves a hole in a set of L2, and the way that takes the next victim
may be such a hole or a way never used; the model grows all ages when the way has the
greatest age of its set and applies LRU_age_update otherwise (`VictimSets.Refill`). Each
call knows one L1. The test program has two over one L2, and nothing keeps them coherent:
that is transparent exactly if no line that is fetched is written.

`WrittenSpec` follows the statements of cache_read, cache_write and their byte versions.
What C leaves open, the content of an entry that malloc returns, is a parameter. A state is
sound if nothing is valid in L2 and the valid ways of every set of L1 come first, differ in
their tags and equal memory. What is proved:

- L2 stays empty for ever: the read miss forgets its victim and the write miss stores its
  victim marked invalid. "This is the only way L2 gets populated" (cache.h:67) never happens.
- In a sound state a read of a word or a byte is right exactly on a line base or on a hit,
  and a write of a word exactly on a line base. Read misses elsewhere insert an uninitialised
  entry, because both callers ignore the error of cache_entry_init; writes elsewhere put the
  line at the wrong place in memory.
- Writing a byte ORs it into its word. A byte that clears no bit is written rightly in every
  sound state exactly if its address is a line base; at a line base a byte is written rightly
  exactly if it clears no bit.
- A set of L1 holds the lines used last with ages that are their ranks, after every call of
  a run, exactly if every call uses a line used before, or its address is a line base and it
  is the first of its set or writes a word into a set with fewer than four lines used. A
  read that brings a second line into a set, or a fifth line in any way, gives two lines the
  age 0.
- What a set holds may still be what LRU would hold. At line bases it is so exactly if each
  miss in a full set finds the line used least recently in the last way of greatest age; the
  first eviction from a set with right ages does.
- On reads at line bases or of held lines, ages never leave 0, so the first three lines of a
  set are never evicted. A set then ends with the lines of LRU exactly if those three are
  among its last four.

In the two-level TLB a data access that hits in L2 refills the ITLB, not the DTLB
(tlb_hrchy_mng.c:237-247). The model keeps that; it changes no answer.

## Model

| member | source | states |
|---|---|---|
| Addresses.PatternRoundTrip | addr_mng.c:34-46 | reading a 64-bit pattern into a virtual address and writing it out again keeps exactly its 48 low bits |
| Addresses.StructRoundTrip | addr_mng.h:52-56 | the two conversions are reciprocal on a structure if and only if its reserved bits are zero |
| Addresses.ConstructorsAgree | addr_mng.c:8-31 | init_virt_addr succeeds if and only if all five fields fit, and then packs the address that init_virt_addr64 reads back |
| Addresses.PageNumberInjective | addr_mng.c:64-76 | a 36-bit virtual page number determines the four table indices |
| Addresses.PhysicalRoundTrip | addr_mng.c:49-61 | init_phy_addr succeeds if and only if the page begins on a page and the offset fits; phy_addr_t_to_uint32_t then gives their sum |
| Addresses.PackedFields | cache_mng.c:13-21 | page number and offset can be read back from the packed 32-bit address |
| Bytes.ShiftAndMask | cache_mng.c:587 | shifting a word right by 8 * k and masking picks byte k of its little-endian bytes |
| Bits.OrShifted | cache_mng.c:616 | ORing a byte shifted left by 8 * k into the 32-bit number of a word ORs it into byte k and leaves the other bytes |
| PageWalk.WalkByPage | page_walk.c:29-43 | all addresses of a page have the same walk, error included, and the offset passes through |
| PageWalk.WalkFrame | page_walk.c:21-43 | a walk depends on nothing but the four table entries it reads |
| PageWalk.WalkFollowsPath | page_walk.c:29-43 | in numbers: where the words at 4 * pgd, a + 4 * pud, b + 4 * pmd and c + 4 * pte hold a, b, c and f, each table address rounded down to a word, the walk gives frame f / 0x1000 and the address's offset if f is a multiple of 0x1000, and an error otherwise |
| PageWalk.WalkHasPath | page_walk.c:21-43 | every walk that stays in memory has such four words |
| PageWalk.FirstPageToFrameFour | page_walk.c:29-43 | with words 0x1000, 0x2000, 0x3000 and 0x4000 at 0, 0x1000, 0x2000 and 0x3000 the first page is frame 4 |
| LinkedList.List.PushBack | list.c:66-98 | a well-formed list stays well formed and gains the value at the back, in a fresh node |
| LinkedList.List.PushFront | list.c:100-130 | the same at the front |
| LinkedList.List.PopFront | list.c:164-186 | the first value goes, the chains stay mirror images; the empty list is left alone |
| LinkedList.List.MoveBack | list.c:188-226 | in each of its branches the list stays well formed and the value at the node's position moves to the end of the value sequence |
| LinkedList.List.Relink | list.c:215-223 | the six pointer assignments cut an inner node out and hang the same node behind the back |
| FullTlb.Tlb.Hit | tlb_mng.c:54-81 | the backward loop finds the match nearest the back, returns its frame with the address's offset and moves its node back; otherwise nothing changes |
| FullTlb.Tlb.Search | tlb_mng.c:84-111 | reply, lines and list after a search are those of the value-level search that the run theorems are about |
| FullTlb.Tlb.Flush | tlb_mng.c:39-52 | all lines become empty and the list keeps its order |
| FullTlbSpec.SearchStep | tlb_mng.c:84-111 | from any state that holds a list of pages, the reply is the page walk's with a hit exactly on those pages; a failed walk changes neither lines nor list, any other search is one access of an LRU buffer |
| FullTlbSpec.RunIsLru | tlb_mng.c:54-111 | after any run the valid lines read along the list from the back are exactly the n most recently translated distinct pages in order, every reply is the page walk's, and hit means membership |
| FullTlbSpec.LargerTlbKeepsHits | tlb_mng.c:84-111 | on any run a TLB with fewer lines holds the most recent of the pages held by a larger one; each of its hits is a hit there, with the same physical address |
| FullTlbSpec.ReachableWellKept | tlb_mng.c:65-107 | in every reachable state the list is a permutation of the line numbers, valid lines have different tags and right frames, and lines never used stand in front in index order |
| FullTlbSpec.HitsIgnoreTables | tlb_mng.c:54-81 | a hit gives the frame stored, whatever the page tables say by then |
| Recency.MostRecentByLastUse | tlb_mng.h:52 | the recency list of a run has exactly its elements, once each, in decreasing order of last use |
| Recency.StackProperty | tlb_mng.h:52 | for every run a smaller LRU buffer holds a prefix of a larger one |
| Hierarchy.Tlbs.Hit | tlb_hrchy_mng.c:106-142 | a hit needs a valid line whose tag is the page number without its index bits, in any of the three arrays |
| Hierarchy.Tlbs.ClearOther | tlb_hrchy_mng.c:154-183 | an instruction miss clears at most a line of the DTLB, a data miss at most a line of the ITLB |
| Hierarchy.Tlbs.Search | tlb_hrchy_mng.c:186-284 | reply and all three arrays after a search are those of the value-level search that the run theorems are about |
| HierarchySpec.InvalidationIsExact | tlb_hrchy_mng.c:146-177 | although the comparison keeps 32 of 36 bits and ignores the valid bit of L2, under inclusion it succeeds if and only if the L1 line holds exactly the page being evicted from L2 |
| HierarchySpec.InvalidationSpares | tlb_hrchy_mng.c:146-151 | under inclusion invalidation takes out of an L1 the page whose L2 line is overwritten, if it is there, and no other page, and touches no other line |
| HierarchySpec.SearchKeepsInclusion | tlb_hrchy_mng.c:221-281 | every valid ITLB or DTLB line stays present in L2 with the same frame, through refill, overwrite and invalidation |
| HierarchySpec.SearchRefinesTable | tlb_hrchy_mng.c:186-284 | under inclusion one search of the three arrays is one search of a single table of 64 entries |
| HierarchySpec.RunIsOneTable | tlb_hrchy_mng.c:186-284 | on any run every reply is the page walk's and hits if and only if the last page translated in its class modulo 64 is the same one; inclusion holds at the end |
| HierarchySpec.AccessKindIsInvisible | tlb_hrchy_mng.c:205-248 | two runs with the same addresses answer the same, whatever their mix of instruction and data accesses |
| HierarchySpec.FailedWalkChangesNothing | tlb_hrchy_mng.c:250-255 | in a state reached with these page tables a failed walk leaves all three arrays as they were |
| HierarchySpec.SearchFrame | tlb_hrchy_mng.c:186-284 | in indices, tags and valid bits, from any state with inclusion: an L1 hit and a failed walk change nothing; an L2 hit changes ITLB line page % 16 alone; any other search changes line page % 64 of L2 and page % 16 of the own L1, and takes out of the other L1 exactly the page displaced from L2 |
| HierarchySpec.HitsIgnoreTables | tlb_hrchy_mng.c:205-248 | a hit in the own L1 or in L2 does not look at the page tables |
| HierarchySpec.WherePagesGo | tlb_hrchy_mng.c:221-279 | the L1 that holds a page after each kind of access, with the data refill into the ITLB after which the DTLB misses again |
| LineNames.NamesOfLine | cache.h:14-33 | a 28-bit line number is one 22-bit tag and 6-bit index in L1 and one 19-bit tag and 9-bit index in L2, and the L2 name is computed from the L1 name as in cache_mng.c:522-529 |
| LineNames.Capacities | cache.h:39-57 | 64 sets of 4 ways are 4 KiB and 512 sets of 8 ways are 64 KiB |
| LineNames.PutWordInMemory | cache.h:47-48 | write-through of a line at its own base: writing back a line of memory with one word replaced is writing that word to flat memory |
| CacheLevel.Level.Increase | lru.h:5-9 | the loop makes the set that the value-level increase gives, and no other set changes |
| CacheLevel.Level.Update | lru.h:13-18 | the same for the update relative to one way's age |
| CacheLevel.Level.OldestWay | cache.h:199-207 | the loop returns the last way among those of greatest age |
| CacheLevel.Level.Scan | cache.h:212-228 | the loop returns the first way with the tag before any invalid way |
| AgeSets.ScanEnds | cache.h:212-228 | the scan ends at the first way that is invalid or has the tag, and reports it only if it is valid |
| AgeSets.HoldsMeaning | cache.h:73-101 | in a set that holds a list of k tags the first k ways are the valid ones, their ages are different numbers below k and the ranks of their tags, and the other ways have age k |
| AgeSets.ProbeIsHeld | cache.h:212-228 | stopping at the first invalid way loses nothing: the scan hits if and only if some way is valid with the tag |
| AgeSets.HitStep | lru.h:13-18 | LRU_age_update on a hit is one access of an LRU buffer |
| AgeSets.ColdStep | lru.h:5-9 | find_place finds the first way never used, and filling it with LRU_age_increase is one access of an LRU buffer |
| AgeSets.EvictStep | cache.h:199-207 | in a full set apply_lru returns the one way of greatest age, which holds the least recently used tag; replacing it at its age and updating is one access of an LRU buffer |
| LruAgreement.ListAndAgesAgree | tlb_mng.c:95-107 | on any run of translatable pages the list-based TLB and an age-based set of the same size hit at the same accesses and choose the same way every time |
| LruAgreement.EventMeaning | cache.h:188-228 | the way of an event is the one that has the tag afterwards, and had it before if the event is a hit |
| LruAgreement.TlbEventMeaning | tlb_mng.c:84-111 | the same for the list-based TLB, whose other lines stay as they are |
| LruAgreement.SetRunIsLru | lru.h:5-18 | after any run a set holds exactly the n most recently used tags, and the next access hits on exactly those |
| VictimSets.PlaceFinds | cache.h:150-163 | a victim sent to a set of L2 is found there; a line is lost if and only if no way is invalid, it is the only one of greatest age, and every other line stays; the age invariant holds again |
| VictimSets.RefillHole | lru.h:13-18 | a way that was left invalid by a promotion is aged as a line of its age would be |
| VictimSets.KeptMeaning | cache.h:93-101 | in a set of L2 with holes all ages are below the number of ways, and valid ways have different ages and different tags |
| VictimLists.OrdersMeaning | lru.h:13-18 | the list of a set of L2 has exactly the tags of its valid ways, in the order of their ages |
| VictimLists.PromoteOrders | cache.h:60-64 | a line that leaves for L1 is taken out of the list and the others keep their order |
| VictimLists.PlaceOrders | cache.h:150-163 | a victim of L1 goes to the front of the list, whether it takes a hole, a way never used or the oldest way, and a full list loses its last |
| VictimRuns.L2KeepsTheLastVictims | cache.h:60-71 | in every reachable state the lines of each set of L2, by age, are the lines that L1 evicted and that have not come back, the last one first, and no more than eight: the list is computed from the accesses alone |
| VictimRuns.VictimsByEviction | cache.h:64-71 | that list is in decreasing order of the last eviction from L1 |
| VictimRuns.DroppedIsEarliest | cache.h:157-163 | a line that a read or write drops from L2 was evicted from L1 earlier than every other line of its set |
| ExclusiveCache.Read | cache_mng.h:98-128 | word, both levels and memory after a read are those of the value-level read of the documented policy |
| ExclusiveCache.Write | cache_mng.h:151-169 | the same for a write, memory included |
| ExclusiveCache.FillL1 | cache.h:60-71 | a line enters L1 and the line evicted by it moves to its own set of L2 |
| ExclusiveCache.ReadByte | cache_mng.h:130-149 | the same for a byte, read from the word little-endian |
| ExclusiveCache.WriteByte | cache_mng.h:171-188 | the same for a byte written by replacing it in its word |
| ExclusiveSpec.ReadStep | cache_mng.h:98-121 | from any reachable state a read returns the word of flat memory, changes no memory and keeps the invariant |
| ExclusiveSpec.WriteStep | cache.h:47-48 | write-through and write-allocate: from any reachable state a write leaves memory as a flat write does and keeps every line held equal to memory |
| ExclusiveSpec.HitsDoNotReadMemory | cache.h:60-64 | with any other bytes in memory a hit in L1 or L2 reads the same word, and reads and writes leave the same lines |
| ExclusiveSpec.ReadMoves | cache.h:60-71 | after a read the line is in L1 and not in L2; all other lines of L1 stay but at most one victim, which is in L2; all other lines of L2 stay but at most one, dropped from the victim's set if that was full; nothing else enters either level |
| ExclusiveSpec.WriteMoves | cache_mng.h:151-162 | exactly the same movements for writes |
| ExclusiveSpec.FillAtL2 | cache.h:64-71 | the victim keeps its content in L2, at most one line of a full set is dropped for it, and every other line of L2 stays as it was |
| FlatMemory.CallMeaning | cache_mng.h:98-188 | the reference in numbers: a word read gives bytes p / 4 * 4 to p / 4 * 4 + 3 and a byte read byte p, memory unchanged; a word write replaces those four bytes and a byte write that byte |
| ExclusiveRuns.CacheIsTransparent | cache_mng.h:98-188 | over every run of word and byte reads and writes from flushed caches, all values read and the memory behind are those of a flat array of bytes |
| ExclusiveRuns.LevelsAreExclusive | cache.h:60-71 | in every reachable state no line is valid in both levels and no set of either level holds a line twice |
| ExclusiveRuns.L1HoldsTheLastFour | cache.h:39-48 | in every reachable state each set of L1 holds exactly the four lines of its class used last, aged by rank |
| ExclusiveRuns.FieldsFit | cache.h:73-101 | in every reachable state with at most 4 GiB of memory the ages of all entries, valid or not, and the tags of valid entries fit their bit fields |
| SplitRuns.SplitStepIsFlat | test-cache.c:41-75 | one call on the instruction or the data cache over a shared L2 does what flat memory does, and both stay LRU on their own accesses, as long as no line written is fetched |
| SplitRuns.OtherCacheStays | test-cache.c:56 | an instruction read leaves the data cache as it was, and every other call the instruction cache |
| SplitRuns.OwnCacheIsOneL1 | test-cache.c:56-71 | to its own cache, L2 and memory a call does what it does in a machine with one L1 |
| SplitRuns.SplitL1sAreLru | test-cache.c:56-71 | in every state that a run without instruction reads of written lines reaches, each set of either L1 holds the last four lines of its class that its own calls used, aged by rank |
| SplitRuns.DataRunIsOneL1 | test-cache.c:56-66 | a run without instruction requests is a run of the machine with one L1, replies, caches and memory |
| SplitRuns.DataRunsAreTransparent | test-cache.c:56-66 | a run without instruction requests gives the replies and memory of flat memory, whatever its lines |
| SplitRuns.SplitIsTransparent | test-cache.c:41-75 | over every run that fetches no line it writes, all values read through the two L1 caches and the memory behind are those of a flat array of bytes |
| SplitRuns.FetchIsStale | cache_mng.c:362-371 | for any memory, address and word, an instruction fetched, overwritten as data and fetched again is the old one, while memory has the new one |
| SplitRuns.SplitIsTransparentExactly | test-cache.c:56-66 | all runs that fetch lines of one set and write lines of another are transparent, whatever the memory, if and only if the two sets have no line in common |
| WrittenCache.Read | cache_mng.c:277-361 | word, both levels and memory after cache_read as written are those of the value-level function |
| WrittenCache.Write | cache_mng.c:362-554 | the same for cache_write as written |
| WrittenCache.ReadByte | cache_mng.c:560-590 | the same for cache_read_byte as written |
| WrittenCache.WriteByte | cache_mng.c:592-624 | the same for cache_write_byte as written |
| WrittenSpec.L2IsNeverPopulated | cache.h:171-178 | from flushed caches, whatever words and bytes are read and written and at whatever addresses, no way of L2 is ever valid and the L2-hit branches are never entered |
| WrittenSpec.UndefinedWrites | cache_mng.c:412 | a write has no meaning if and only if it misses in L1 and entry index * 4 of the array of L2, which cache_hit looks at with the geometry of L1, is valid |
| WrittenVictims.WriteStacks | cache_mng.c:511-545 | what a write does to L2: if it misses in a full set of L1, the set of the line asked for gets the victim in its first way, marked invalid, and its other ways age; nothing else changes |
| WrittenVictims.L2RemembersTheLastVictim | cache_mng.c:519-545 | in every reachable state each set of L2 has at most one way ever written, the first, with the last victim sent there; the ages of the others count the victims up to 7 |
| WrittenCalls.ReadIsRightExactly | cache_mng.c:88-116 | in a sound state a read returns the word of flat memory, whatever the allocator left in the new entry, if and only if its address is a line base or it hits |
| WrittenCalls.WriteIsRightExactly | cache_mng.c:487-505 | in a sound state a write does to memory what a flat write does, for every word, if and only if its address is a line base |
| WrittenCalls.ReadHitBytes | cache_mng.c:301-313 | at any address a read that hits gives four bytes of the line held, whatever memory holds, and changes ages only |
| WrittenCalls.WriteHitBytes | cache_mng.c:396-405 | byte by byte, at any address, whenever nothing is valid in L2: on a hit the line held gets the word, and the sixteen bytes from the address on become that line; no other byte of memory changes |
| WrittenCalls.WriteMissBytes | cache_mng.c:493-495 | on a miss only the four bytes at the address plus the offset of the word in its line change |
| WrittenBytes.ByteReadIsRightExactly | cache_mng.c:560-590 | in a sound state a byte read is right, whatever the allocator left in the new entry, if and only if its address is a line base or it hits |
| WrittenBytes.ByteWriteIsRightExactly | cache_mng.c:592-624 | for every address: a byte that clears no bit is stored, and nothing else changes, in every sound state and whatever the allocator leaves, if and only if the address is a line base |
| WrittenBytes.ByteWriteOffBase | cache_mng.c:405 | the input that shows it off a line base: with memory all zero and flushed caches the byte 255 is not stored alone, whatever the allocator leaves |
| WrittenBytes.ByteWriteAtBase | cache_mng.c:616 | at a line base exactly the OR of old and new is stored; it is the new byte if and only if that has every bit of the old one |
| WrittenBytes.ByteHitBytes | cache_mng.c:608-618 | byte by byte, at any address: on a hit the sixteen bytes from the address on become the line held with the byte ORed in at its place; no other byte changes |
| WrittenBytes.ByteWriteIsWrong | cache_mng.c:616 | from flushed caches, writing 2 over a byte 1 leaves memory with 3 there |
| WrittenBytes.ReadIsWrong | cache_mng.c:97 | from flushed caches, reading the word at address 4 returns what the allocator left |
| WrittenBytes.WriteIsWrong | cache_mng.c:493-495 | from flushed caches, writing the word at address 4 leaves that word as it was and changes the word at address 8 |
| WrittenBytes.HitWriteIsWrong | cache_mng.c:396-405 | reading the word at 0 and writing the word at 4 copies bytes 0 to 3 to 4 and bytes 8 to 15 to 12, and puts the word at 8 |
| WrittenBytes.ByteWriteMissesTwice | cache_mng.c:592-624 | from flushed caches a byte write at address 4 whose read gets an invalid entry misses again: memory gets the OR with what the allocator left in the first entry, and the set keeps the second |
| WrittenRuns.SafeRunsAreTransparent | cache_mng.c:277-624 | a run of word and byte calls from flushed caches, each meeting its condition in the state it meets, gives the replies of flat memory and leaves flat memory behind |
| WrittenRuns.LineBasesAreRightExactly | cache_mng.c:97 | a run on line bases gives the replies and the memory of flat memory after each of its calls if and only if no byte write clears a bit of flat memory |
| WrittenLru.CallIsLruExactly | cache.h:167-178 | for any call at any address, from a set whose valid ways have their ranks as ages: whatever the allocator leaves, the set makes one access of an LRU buffer and has ranks as ages again, if and only if the line is held, or the address is a line base and the set is empty or a word is written into a set not full |
| WrittenContents.AgedKeeps | cache.h:199-207 | in a full set whose ages are ranks the line to be dropped is LRU's |
| WrittenContents.CallContentsAreLruExactly | cache.h:167-207 | for any call at any address, from a set with any ages: whatever the allocator leaves, the set then holds the lines that an LRU buffer would hold, if and only if the line was held, or the address is a line base and the set had room or the last way of greatest age held LRU's line |
| WrittenLruRuns.RunKeepsRanksExactly | cache_mng.c:502-527 | for any run of word and byte calls from flushed caches: after every call, whatever the allocator leaves, each set of L1 holds the lines used last with their ranks as ages, if and only if every call uses a line used before, or its address is a line base and it is the first of its set or writes a word into a set with fewer than four lines used |
| WrittenLruRuns.RunContentsAreLruExactly | cache.h:167-207 | for any run of word and byte calls at line bases: after every call each set of L1 holds the lines that LRU would hold, if and only if every call that misses finds room or finds LRU's line in the last way of greatest age |
| WrittenReads.ReadsStick | cache.h:167-178 | on any run of word and byte reads at line bases or of held lines, each set of L1 ends with the first three lines of its class and the last one read that is none of those, way by way, all ages 0 |
| WrittenReads.ReadsAreLruExactly | cache.h:167-207 | on any such run a set ends with the lines that LRU would leave if and only if its first three lines are among its last four |
| WrittenReads.ReadsAreNotLru | cache.h:199-207 | after reads at 0x000, 0x400, 0x800, 0xC00 and 0x1000 from flushed caches line 0 of set 0 still hits and line 3 misses; LRU would have it the other way round |
| WrittenSplit.SplitCallIsFlat | test-cache.c:56-66 | the code as written with its two L1 caches: a call at a line base that clears no bit, fetches no line written and writes only such lines does what flat memory does and keeps both caches sound |
| WrittenSplit.OtherCacheStaysW | test-cache.c:56 | as written too, an instruction read leaves the data cache as it was, and every other call the instruction cache |
| WrittenSplit.OwnCacheIsOneL1W | test-cache.c:56-71 | to its own cache, L2 and memory a call as written does what it does in a machine with one L1 |
| WrittenSplit.DataRunIsOneL1W | test-cache.c:56-66 | a run without instruction requests is a run of the one-L1 model of the code as written |
| WrittenSplit.SplitRunsAreRightExactly | test-cache.c:56-71 | a run at line bases on the two L1 caches as written, that reads no instruction in a line it writes or no instruction at all, has the replies and memory of flat memory after each call if and only if no byte write clears a bit |
| Mmu.AgreeingTranslation | tlb_hrchy_mng.c:186-284 | the page walk, and either TLB whose content agrees with the page tables, answers with the page walk's address or failure and agrees with them afterwards |
| Machine.MachineIsFlat | test-cache.c:41-75 | execute_command end to end: page walk, two-level TLB or fully associative TLB of any size, in front of one or two L1 caches of the documented policy or the two of the code as written: on every command list that keeps the conditions of its caches and, with a TLB, writes no table entry its walks read, all effects and the memory after each command are those of page walk over flat memory |
| MachineRuns.ProgramIsRun | test-cache.c:41-75 | after such a command list the caches are exactly those that the run of its physical accesses leaves, and the TLB is the one that the run of its translations leaves, so what is proved of those runs holds of command lists |
| Machine.CommandAtPath | test-cache.c:41-75 | the reference in numbers: where the page tables lead a command to the page at f, a word or byte is read or written at f plus the offset, as its order says |
| Machine.StepMeaning | test-cache.c:53-71 | from every state that a program reaches, the machine carries out the order of a command that suits it at page number * 0x1000 + offset |
| Machine.OtherL1Stays | test-cache.c:56 | with two L1 caches an instruction read leaves the data cache as it was, and every other command the instruction cache |
| Machine.ReadersAreFlat | test-cache.c:53-62 | a program that only reads behaves as flat memory with any translation and any caches, at line bases for the code as written |
| Machine.WrittenMachineIsFlatExactly | test-cache.c:41-75 | the code as written behind any of the three translations: a command list whose translated addresses are line bases and that fetches no line it writes behaves as flat memory after each command if and only if no byte write clears a bit |
| Machine.CachedProgramIsFlat | test-cache.c:41-75 | special case, one L1 of the documented policy and the page walk: no condition at all, even for a command list that writes its own page tables |

## Left out

- Command files (commands.c): a program is an abstract sequence of commands; reading, printing and the growable array are not modelled.
- Memory files and dumps (memory.c): memory is an arbitrary array of bytes.
- Printing of caches, lists and addresses, and the test programs' main functions, which only produce output.
- pop_back, clear_list and pop_front on a one-element list: they use freed nodes, and no TLB path reaches them; PopFront requires another length.
- is_empty_list on a list with only one of its two ends null: not a well-formed list, so its error code is not modelled.
- Null pointers, failed allocation and leaks: allocation succeeds and every pointer is set.
- Accesses outside the simulated memory: a walk, a line read and the sixteen bytes that a write copies as written are required to lie in memory; a read off a line base that misses does not look at memory, and is still required to ask for a line of it.
- Machine.MachineIsFlat: a program that fetches a line it writes, but not after writing it, may still be flat; the exact condition on the lines is stated on sets of lines, in SplitRuns.SplitIsTransparentExactly.
- The byte that the test program writes: test-cache.c:67-68 passes `(uint8_t)command->write_data` where cache_write_byte takes a pointer; the model writes that byte.
- A failed walk in the test program: the assert on page_walk (test-cache.c:48) aborts; the model reports NoTranslation and goes on.
- WrittenLruRuns.RunContentsAreLruExactly: the condition is on the states met; only for reads is it stated on the accesses alone.
- CacheStore.Store: has one L1, as each call of the interface does.
- The tail assignments of the flush macro after its unbraced loop (cache.h:241-246): a flush makes every line empty.
- The L2-hit branches of the code as written: their strides leave the array; they are one outcome, Undefined, which is proved unreachable from flushed caches.
- CacheLevel.Level.Insert: the index check that returns without inserting is not modelled, since no caller is out of range.
- CacheLevel.Level.Update: a set is one element of an array and its ways are a sequence value replaced in place; flat pointer arithmetic over the entries is not captured.
- Hierarchy.Tlbs.Search: tlb_insert's index check and the unknown-type cases of the switches are not modelled, since no caller reaches them.
- LinkedList.List.MoveBack: a node that is not in the list, or null, is not modelled.
- Addresses.ConstructorsAgree: structures are returned as values and not written through an out-pointer.
