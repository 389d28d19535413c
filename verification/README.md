# Proofs about an operating-systems course repository

The repository collects independent assignments. This project models the parts of them that carry an
algorithm or a protocol, and proves what those are for. Each group of files stands alone.

**Shortest paths under growth** (`Graph`, `Dijkstra`, `Growth`, `Patch`, `Consumer`, `Producer`,
`AsWrittenRuns`, `Together`). A consumer process keeps a table of distances while a producer adds nodes and
edges in rounds. It searches only from the new nodes and patches old pairs through them. The model has the
lazy-deletion search with its heap, parent pointers and path printing, the table, the rounds, and how the
producer deals nodes out to ten consumers. The datatype `Reading` says how two lines of the code are read.
`Intended`: the guard at consumer.cpp:244 compares the node `mapped_nodes[i]` with `j`, and the sum at 248
stops at INT_MAX. `AsWritten`: the guard compares the index `i`, and the sum is a 32-bit one. For the
intended reading the rows stay exact for ever. For the reading as written two graphs show how they do not,
and the exact condition under which they do is proved, for one pair, for a round and for whole runs.

**A paged store and a sort on it** (`Bytes`, `PageTables`, `GoodMalloc`, `StoreRuns`, `IntAddressing`,
`MergeSort`, and `MapOrder` and `Finite`). Lists of ints live on pages of a byte memory and are found
through a symbol table with scopes. The store refines a plain map over every run. Merge sort uses it only
through its calls. Ghost fields follow what the program does not record: the order of the free chain, the
contents of lists, pages no operation can reach any more, and the true peak of pages in use.

**A hotel** (`HotelProtocol`, `HotelSafety`, `HotelLimits`, `HotelFacts`, `Hotel`, and `Tally`). Guests and
cleaners move rooms between four queues. Each critical section is one step of a state machine over any
numbers of guests, cleaners and rooms. The class `Hotel.Shared` has the sections as methods, each proved to
do its step, to keep the invariant and to leave its thread what that relies on. Called in any order they
make exactly the runs of the protocol.

**A feed pipeline** (`FeedProtocol`, `FeedSafety`, `FeedRuns`, `FeedLimits`, `FeedFacts`, `Feed`). A
simulator, pushers and readers share queues and a shutdown counter. Steps interleave freely,
`thread_to_join++` being a load and a store.

**Smaller algorithms**: longest common subsequences (`Lcs`), a sieve with factorisation (`Sieve`), greatest
common divisors and a least common multiple (`Lcm`, both with `Arithmetic`), the shell's pipe splitter and
command parser (`Parser`, `ParserLexemes`, `ParserItems`, `ParserPipes`, `ParserRoundTrip`, `ParserPrinting`), and clipped n-gram counts (`Bleu`).

`dafny verify dfyconfig.toml` checks all files.

## Model

| member | source | states |
|---|---|---|
| Graph.DistanceUnique | asgn3_shared_memory/code/consumer.cpp:65-87 | a pair of nodes has one shortest distance, INT_MAX standing for none |
| Graph.DistanceSymmetric | asgn3_shared_memory/code/consumer.cpp:150-151 | in an undirected graph the distance from s to t is that from t to s, which is why one search may fill a row and a column |
| Graph.AppendConnects | asgn3_shared_memory/code/consumer.cpp:259-265 | walks put end to end connect the outer ends, and their lengths add up |
| Graph.ReverseConnects | asgn3_shared_memory/code/consumer.cpp:99 | a walk in an undirected graph, reversed, is a walk of the same length the other way |
| Dijkstra.PopMin | asgn3_shared_memory/code/consumer.cpp:72-73 | the heap gives some least entry and removes exactly one copy of it |
| Dijkstra.RelaxEdge | asgn3_shared_memory/code/consumer.cpp:76-85 | distances only fall, those of settled nodes not at all, and after the look the edge is relaxed |
| Dijkstra.ScanEdges | asgn3_shared_memory/code/consumer.cpp:76-86 | after a scan all settled nodes, u among them, are relaxed; a scan after a stale pop changes nothing |
| Dijkstra.PopKeeps | asgn3_shared_memory/code/consumer.cpp:71-73 | the first pop of a node finds its final distance, every later pop is stale; the search invariant survives both |
| Dijkstra.RelaxedIsLowerBound | asgn3_shared_memory/code/consumer.cpp:81-82 | relaxed distances are lower bounds for the length of every walk from the source |
| Dijkstra.SearchEnds | asgn3_shared_memory/code/consumer.cpp:71-87 | when the heap is empty every distance is the length of a shortest walk, or INT_MAX exactly for nodes without any |
| Dijkstra.Search | asgn3_shared_memory/code/consumer.cpp:59-87 | the whole search ends for every graph with non-negative weights whose path lengths fit an int, with shortest distances and parent pointers that trace walks of those lengths |
| Dijkstra.TracePath | asgn3_shared_memory/code/consumer.cpp:93-99 | following the parents from a reached node ends, and the reversed list is a walk from the source of the distance found |
| Growth.DetoursSuffice | asgn3_shared_memory/code/consumer.cpp:246-252 | when every added edge touches a new node, the best of the old distance and all sums through one new node is the new distance |
| Patch.IntendedIsBest | asgn3_shared_memory/code/consumer.cpp:246-252 | the loop over new nodes, with sums that stop at INT_MAX, ends with the least of the old value and all sums |
| Patch.IntendedPatchIsExact | asgn3_shared_memory/code/consumer.cpp:242-252 | with the guard comparing nodes and sums that stop at INT_MAX, a patched pair has its true distance in the grown graph |
| Patch.AsWrittenPatchIsExactIff | asgn3_shared_memory/code/consumer.cpp:244-252 | with the guard and the 32-bit sum as the code has them, a patched pair is right if and only if SafeToPatch holds, a condition on the stored numbers |
| Patch.GuardSkipsAPair | asgn3_shared_memory/code/consumer.cpp:244 | a graph that grows by one new node, with the exact old distance of a pair and the exact distances to the new node, on which comparing the index i with the node j leaves a wrong distance; the pair is not safe to patch |
| Patch.SumWrapsAround | asgn3_shared_memory/code/consumer.cpp:248 | the same for the sum: INT_MAX + 1 wraps around and a negative distance is stored |
| Patch.WrappedSums | asgn3_shared_memory/code/consumer.cpp:248-249 | a 32-bit sum patches like a saturating one if all entries read are finite, and otherwise leaves a negative number |
| Patch.SplicedPath | asgn3_shared_memory/code/consumer.cpp:259-265 | the path printed for a patched pair is a walk between the two nodes whose length is the sum stored |
| Consumer.GraphOfEdges | asgn3_shared_memory/code/consumer.cpp:339-342 | an edge is in the adjacency lists exactly if the pair or its mirror is in shared memory |
| Consumer.GraphGrows | asgn3_shared_memory/code/consumer.cpp:403-406 | edges with a new end leave all lists among old nodes as they were |
| Consumer.Process.constructor | asgn3_shared_memory/code/consumer.cpp:327-346 | a process starts with the first graph, its share of nodes, and a table in which every entry is INT_MAX |
| Consumer.Process.AddEdges | asgn3_shared_memory/code/consumer.cpp:403-406 | the lists become those of all edges, old and new |
| Consumer.Process.SearchFrom | asgn3_shared_memory/code/consumer.cpp:114-177 | row and column of the source hold the true distances, the paths kept are walks of those lengths, and no other entry changes |
| Consumer.Process.ComputeInitialRows | asgn3_shared_memory/code/consumer.cpp:215-220 | after flag 0 the rows of all mapped nodes are exact |
| Consumer.Process.ComputeNewRows | asgn3_shared_memory/code/consumer.cpp:223-234 | after the searches every new node's row and column are exact and distances between old nodes are untouched |
| Consumer.DetourStep | asgn3_shared_memory/code/consumer.cpp:246-252 | one turn of the loop over k keeps the entry equal to the patched value of the detours seen, and min_idx a detour that gives it |
| Consumer.Process.TakeDetours | asgn3_shared_memory/code/consumer.cpp:245-252 | only the one entry changes, to the patched value; min_idx is INT_MAX or a detour realising it |
| Consumer.Process.PatchPair | asgn3_shared_memory/code/consumer.cpp:245-268 | the pair gets its patched value; if that is less than before, one line is printed, which names the new distance and a walk of that length, and otherwise none |
| Consumer.Process.PatchRow | asgn3_shared_memory/code/consumer.cpp:238-271 | all old entries of one row are patched, each from the table as it was before the row, and no other row changes; exactly the entries that fell have a line, one each |
| Consumer.Process.PatchRows | asgn3_shared_memory/code/consumer.cpp:238-271 | the rows of all old mapped nodes are patched and no row of a new node changes; over all of them, exactly the entries that fell have a line, one each |
| Consumer.PatchedRow | asgn3_shared_memory/code/consumer.cpp:238-271 | a patched row is exact for the grown graph as intended, and as written if and only if all its pairs are safe |
| Consumer.UpdateDone | asgn3_shared_memory/code/consumer.cpp:204-272 | over one update the table goes from exact rows to exact rows as intended; as written it does if and only if every pair is safe to patch |
| Consumer.Process.SearchNew | asgn3_shared_memory/code/consumer.cpp:384-406 | new nodes are mapped, new edges added, and the new rows searched |
| Consumer.Process.TakeUpdate | asgn3_shared_memory/code/consumer.cpp:370-418 | one update of a changed graph: exact rows stay exact as intended; of the old pairs exactly those whose distance fell have a line, one each, which names the new distance and a walk of that length |
| Consumer.Process.Round | asgn3_shared_memory/code/consumer.cpp:370-421 | one turn of main's loop, the unchanged graph included, with the same lines; as written the rows stay exact if and only if all pairs are safe |
| Consumer.Process.RunRounds | asgn3_shared_memory/code/consumer.cpp:370-421 | after any number of rounds of growth the mapped nodes are those of the start and of all updates in order, and each of their rows holds the true distances of the current graph |
| Consumer.Process.Recompute | asgn3_shared_memory/code/consumer.cpp:181-201 | the unoptimised program finds, row by row, the very numbers the incremental table holds |
| AsWrittenRuns.SpoiledStays | asgn3_shared_memory/code/consumer.cpp:238-271 | an entry that is negative, or skipped by the index comparison and too large, stays wrong over every later update as written |
| AsWrittenRuns.UnsafeRoundSpoils | asgn3_shared_memory/code/consumer.cpp:238-271 | an update as written of exact rows with some pair not safe to patch leaves such an entry |
| AsWrittenRuns.RoundAsWritten | asgn3_shared_memory/code/consumer.cpp:370-421 | one turn of main's loop as written, from exact rows or spoiled ones |
| AsWrittenRuns.RunAsWritten | asgn3_shared_memory/code/consumer.cpp:370-421 | after any number of rounds as written the rows are exact if and only if in every round all pairs were safe to patch |
| Producer.CountDegrees | asgn3_shared_memory/code/producer.cpp:24-35 | each node's degree is the number of edges it is an end of, loops counting once |
| Producer.DegreeCounts | asgn3_shared_memory/code/producer.cpp:24-35 | the degree used by the proofs is the number of edges, by position in the list, that touch the node |
| Producer.DegreesSum | asgn3_shared_memory/code/producer.cpp:41-43 | the degrees add up to twice the number of edges, less the loops |
| Producer.SharesEven | asgn3_shared_memory/code/producer.cpp:64-89 | the cuts run from 0 to n, and shares differ by at most one node |
| Producer.ShareHas | asgn3_shared_memory/code/producer.cpp:86-93 | a node is in its owner's share once and in no other |
| Producer.OneConsumer | asgn3_shared_memory/code/producer.cpp:62-117 | after any number of rounds each node is in exactly one of the ten mapped lists, once, and no other number is in any |
| Producer.MapInitialNodes | asgn3_shared_memory/code/consumer.cpp:25-43 | the initial share of a consumer is the same consecutive slice of 0..n-1 |
| Producer.WriteSegment | asgn3_shared_memory/code/producer.cpp:86-97 | a segment holds the count, the first nodes left, and -1 behind them |
| Producer.ReadSegment | asgn3_shared_memory/code/consumer.cpp:384-389 | a consumer reads back from its segment exactly the nodes dealt to it |
| Producer.MapNodesToCons | asgn3_shared_memory/code/producer.cpp:62-117 | consumer c gets the consecutive slice between cuts c and c + 1, and nothing is left over |
| Producer.SliceIsShare | asgn3_shared_memory/code/producer.cpp:91-100 | the slice of the new ids is the consumer's share of the range they form |
| Producer.Draw | asgn3_shared_memory/code/producer.cpp:189-217 | a round adds consecutive new ids, and from the i-th of them as many edges to an existing node as that node was drawn for it, and no other edges |
| Producer.NewEdgesCount | asgn3_shared_memory/code/producer.cpp:205-217 | an edge from the i-th new node to v is added as often as v was drawn for it |
| Producer.NewEdgesJoin | asgn3_shared_memory/code/producer.cpp:213-215 | every added edge joins a new node to an older one |
| Producer.RoundIsUpdate | asgn3_shared_memory/code/producer.cpp:189-238 | what a consumer finds after a round is an update of the kind the consumer's proof asks for |
| Producer.Board.AppendEdges | asgn3_shared_memory/code/producer.cpp:222-225 | the new edges stand behind the old ones in both arrays, the old ones unchanged |
| Producer.Board.Round | asgn3_shared_memory/code/producer.cpp:155-238 | a round grows node count and edge list by what was drawn and leaves in each segment that consumer's share |
| Together.ReadUpdate | asgn3_shared_memory/code/consumer.cpp:372-389 | a consumer reads from shared memory the node count, the edges and its share |
| Together.StartConsumer | asgn3_shared_memory/code/consumer.cpp:327-366 | a consumer that starts from shared memory has mapped its initial share and has exact rows |
| Together.OneRound | asgn3_shared_memory/code/consumer.cpp:370-421 | a producer's round and a consumer's turn: graph and edges agree again, the share is mapped, all rows are exact |
| Together.RoundsAreUpdates | asgn3_shared_memory/code/producer.cpp:189-238 | any number of producer rounds give each consumer admissible updates, whose nodes are that consumer's shares |
| Together.WholeRun | asgn3_shared_memory/code/consumer.cpp:319-421 | over a whole run, from the start of a consumer through any number of rounds, it maps exactly its shares of all rounds, and its rows are exact for the graph in shared memory |
| Bytes.DecodeEncode | asgn6_memory_management/code/goodmalloc.cpp:351 | an int written byte by byte reads back as itself |
| Bytes.EncodeDecode | asgn6_memory_management/code/goodmalloc.cpp:438 | any four bytes are the encoding of the int they decode to |
| PageTables.PagesForIsFewest | asgn6_memory_management/code/goodmalloc.cpp:274-277 | a list takes the fewest pages of 20 ints that hold it: n is at most 20 times their number, and more than 20 times one page less |
| PageTables.FitsIff | asgn6_memory_management/code/goodmalloc.cpp:275-277 | a list fits into the free pages if and only if its size is at most 20 times their number |
| PageTables.TakeFirst | asgn6_memory_management/code/goodmalloc.cpp:144-156 | taking the first free entry keeps the free chain acyclic, as long as num_free_entries, and made of exactly the entries not in list_map |
| PageTables.GiveBack | asgn6_memory_management/code/goodmalloc.cpp:466-486 | giving an entry back to the front of the chain keeps the same |
| PageTables.FreshChain | asgn6_memory_management/code/goodmalloc.cpp:107-126 | after init the chain is all entries in order |
| PageTables.AllocateKeepsPages | asgn6_memory_management/code/goodmalloc.cpp:289-304 | free pages, pages of live lists and leaked pages still partition all pages after an allocation |
| PageTables.RemoveKeepsPages | asgn6_memory_management/code/goodmalloc.cpp:474-481 | and after a list is removed, whether its pages are given back or leaked |
| PageTables.AddressesDisjoint | asgn6_memory_management/code/goodmalloc.cpp:408-425 | different cells, of one list or of two, lie on disjoint 4-byte ranges |
| PageTables.AddressInMemory | asgn6_memory_management/code/goodmalloc.cpp:408-425 | an offset in bounds gives four bytes inside the memory |
| PageTables.WriteKeepsData | asgn6_memory_management/code/goodmalloc.cpp:346-351 | writing one cell changes that element of that list and no other element of any list |
| PageTables.CreateKeeps | asgn6_memory_management/code/goodmalloc.cpp:259-317 | a created list leaves a well-formed store |
| PageTables.RemoveKeeps | asgn6_memory_management/code/goodmalloc.cpp:459-493 | so does a removed list |
| PageTables.AssignKeeps | asgn6_memory_management/code/goodmalloc.cpp:319-363 | and an assigned element |
| IntAddressing.CellInsideIff | asgn6_memory_management/code/goodmalloc.cpp:351 | used as an index of an int array, as the code has it, an address is four times the number of its cell, so it is inside the memory exactly for cells of the first quarter |
| IntAddressing.ListInsideIff | asgn6_memory_management/code/goodmalloc.cpp:332-438 | in any store, as written, all elements of a live list are inside the memory if and only if all its cells are in the first quarter |
| IntAddressing.FirstListInsideIff | asgn6_memory_management/code/goodmalloc.cpp:408-425 | the first list of a fresh memory, as written, stays inside it if and only if its size is at most a quarter of the memory's ints |
| IntAddressing.FirstList | asgn6_memory_management/code/goodmalloc.cpp:259-317 | the same as a program: createMem, initScope, createList |
| IntAddressing.OnePageWitness | asgn6_memory_management/code/goodmalloc.cpp:351 | element 5 of a list of 20 in a memory of one page has int index 20, one past the end |
| GoodMalloc.Store.constructor | asgn6_memory_management/code/goodmalloc.cpp:16-65 | createMem: the fewest whole pages that hold the bytes asked for, all free, all bytes 0, no lists |
| GoodMalloc.Store.InitPages | asgn6_memory_management/code/goodmalloc.cpp:48-65 | all pages are free and counted, and every byte is 0 |
| GoodMalloc.Store.InitEntries | asgn6_memory_management/code/goodmalloc.cpp:107-128 | each entry leads to the next and the last to -1 |
| GoodMalloc.Store.AllocatePages | asgn6_memory_management/code/goodmalloc.cpp:289-300 | so many distinct pages, the lowest there are, leave the free list |
| GoodMalloc.Store.AddEntry | asgn6_memory_management/code/goodmalloc.cpp:131-160 | the first free entry is taken; refused exactly when there is none or the name is in use, and then nothing changes |
| GoodMalloc.Store.CreateList | asgn6_memory_management/code/goodmalloc.cpp:259-317 | returns 1 if and only if there is a free entry, the name is new in the scope and the size is at most 20 times the number of free pages; then the list is on the lowest free pages and takes the fewest that hold it. Otherwise returns -1 with the whole store unchanged |
| GoodMalloc.Store.ComputeMemAddress | asgn6_memory_management/code/goodmalloc.cpp:408-425 | -1 out of bounds, otherwise the address at which the element lies |
| GoodMalloc.Store.AssignVal | asgn6_memory_management/code/goodmalloc.cpp:319-363 | one element of the list the name means in this scope, or else globally, is set; an unknown name changes nothing |
| GoodMalloc.Store.GetVal | asgn6_memory_management/code/goodmalloc.cpp:428-457 | reads the element last assigned there |
| GoodMalloc.Store.FreeList | asgn6_memory_management/code/goodmalloc.cpp:459-493 | a list of the current scope goes, its pages are free again, its entry is first in the chain; other names are ignored |
| GoodMalloc.Store.DeleteEntry | asgn6_memory_management/code/goodmalloc.cpp:162-183 | the list goes but its pages are leaked |
| GoodMalloc.Store.InitScope | asgn6_memory_management/code/goodmalloc.cpp:226-228 | only the scope number changes |
| GoodMalloc.Store.EndScope | asgn6_memory_management/code/goodmalloc.cpp:230-257 | deletes the first list of the scope in the order of list_map, if there is one, and steps back |
| StoreRuns.StepRefines | asgn6_memory_management/code/goodmalloc.cpp:226-493 | every call on the paged store is the same call on a plain map from scope and name to a sequence of ints |
| StoreRuns.RunRefines | asgn6_memory_management/code/goodmalloc.cpp:226-493 | over every run the store stays well-formed and answers as the plain map does |
| StoreRuns.LeaveLeaksIff | asgn6_memory_management/code/goodmalloc.cpp:236-248 | leaving a scope leaks pages if and only if the first list that still lives there has elements |
| StoreRuns.Execute | asgn6_memory_management/code/goodmalloc.cpp:226-493 | the methods of the class are exactly the steps of the run model |
| MergeSort.MergeSorted | asgn6_memory_management/code/mergesort.cpp:35-64 | merging sorted halves gives a sorted result |
| MergeSort.MergeKeepsAll | asgn6_memory_management/code/mergesort.cpp:35-64 | merging keeps every element, as often as it was there |
| MergeSort.SortSorts | asgn6_memory_management/code/mergesort.cpp:14-77 | the recursive sort gives a sorted permutation |
| MergeSort.SortedCellsAre | asgn6_memory_management/code/mergesort.cpp:14-77 | what merge_sort leaves in the list: the cells in order, the same elements as often as before, and all other cells as they were |
| MergeSort.SmallerHead | asgn6_memory_management/code/mergesort.cpp:36-46 | the element chosen by val1 < val2 is the next of the merge |
| MergeSort.MergeHeads | asgn6_memory_management/code/mergesort.cpp:35-48 | the first loop: what is done, followed by the merge of the rests, is the merge of the halves |
| MergeSort.CopyRest | asgn6_memory_management/code/mergesort.cpp:50-64 | the second and third loop put the rest behind what is done and change nothing else |
| MergeSort.MergeHalves | asgn6_memory_management/code/mergesort.cpp:35-64 | together the three loops leave the merge in the temporary, all other lists as they were |
| MergeSort.CopyBack | asgn6_memory_management/code/mergesort.cpp:66-70 | the merged elements replace the cells they came from |
| MergeSort.FreeUndoesCreate | asgn6_memory_management/code/mergesort.cpp:29-72 | freeing the temporary restores free pages, symbol table, free chain and every list but the one written |
| MergeSort.MergeThroughTemp | asgn6_memory_management/code/mergesort.cpp:29-72 | one merge through the temporary changes the cells of the list and nothing else; the peak counts the fewest pages that hold the temporary on top of those in use |
| MergeSort.HalvesMakeWhole | asgn6_memory_management/code/mergesort.cpp:26-70 | sorting both halves in place and merging them sorts the whole range |
| MergeSort.MergeSort | asgn6_memory_management/code/mergesort.cpp:14-77 | the cells start..start+n-1 are sorted, every other cell, list, page, entry and the scope are as before; for n >= 2 MAX_PAGES_USED is the true peak, pages in use before plus the fewest that hold n ints |
| HotelSafety.MoveInKeeps | asgn5_semaphores/code/guest.cpp:69-80 | a guest who takes an empty room while the round is open keeps rooms, uses and threads in balance |
| HotelSafety.MoveInKeepsIff | asgn5_semaphores/code/guest.cpp:69-80 | taking an empty room keeps the balance if and only if the round is open |
| HotelSafety.TryOneFreeKeeps | asgn5_semaphores/code/guest.cpp:159-179 | so does a guest who takes a room of one_free_q |
| HotelSafety.TryEvictingKeeps | asgn5_semaphores/code/guest.cpp:238-271 | and one who evicts the guest of least priority |
| HotelSafety.LeaveOneOccKeeps | asgn5_semaphores/code/guest.cpp:123-139 | going through one_occ_q removes exactly the guest's own room, if it is still there |
| HotelSafety.SignalCleanersKeeps | asgn5_semaphores/code/guest.cpp:5-32 | counting a second use, the last one included, keeps the balance |
| HotelSafety.CountCleanedKeeps | asgn5_semaphores/code/cleaner.cpp:66-71 | counting a cleaned room, the last one included, keeps the balance |
| HotelSafety.RegisteredKeeps | asgn5_semaphores/code/guest.cpp:69-276 | through every step an entry of one_occ_q keeps the priority of the guest registered in its room, and whoever has the use of a room is registered there |
| HotelSafety.StepKeeps | asgn5_semaphores/code/guest.cpp:34-310 | every step of every guest and cleaner keeps the whole invariant: the balance and who is registered where |
| HotelSafety.InitInv | asgn5_semaphores/code/guest.cpp:34-40 | it holds when all rooms are empty and all threads at their start |
| HotelSafety.RunKeeps | asgn5_semaphores/code/guest.cpp:34-310 | it holds in every state of every run, for any numbers of guests, cleaners and rooms |
| HotelSafety.EveryRoomInOnePlace | asgn5_semaphores/code/guest.cpp:69-276 | at every moment each room is in exactly one queue or held by exactly one thread, and the error exits are never taken |
| HotelSafety.UsesAreCounted | asgn5_semaphores/code/guest.cpp:82-84 | use_count is the sum of all rooms' uses less those about to be counted |
| HotelSafety.LastUse | asgn5_semaphores/code/guest.cpp:8-29 | the 2n-th use is counted in signal_cleaners, with all rooms in two_occ_q and nobody left to count |
| HotelSafety.ResetOnlyWhenClean | asgn5_semaphores/code/cleaner.cpp:66-71 | use_count returns to 0 only when all rooms are back in empty_q with count 0 |
| HotelLimits.LateGuestLosesAUse | asgn5_semaphores/code/guest.cpp:43-84 | without a guard on taking an empty room there is a run in which a use is lost: use_count is reset with the room taken |
| HotelLimits.LateCleanerLosesUses | asgn5_semaphores/code/cleaner.cpp:11-47 | with only the guard that uses are left there is one as well: a cleaner of the last round takes a room of this one before its second use is counted |
| HotelFacts.HasItAlone | asgn5_semaphores/code/guest.cpp:69-276 | a room in a guest's hands is in no queue and with no other thread |
| HotelFacts.CleansItAlone | asgn5_semaphores/code/cleaner.cpp:34-63 | so is a room in a cleaner's hands |
| HotelFacts.LastIffAllUsed | asgn5_semaphores/code/guest.cpp:8-29 | a use is counted as the last if and only if then all rooms are in two_occ_q, used twice, and no guest has a use left to count |
| HotelFacts.CleanersFind | asgn5_semaphores/code/cleaner.cpp:11-47 | a cleaner that goes on finds no room waiting for a second guest, and no guest with a room in hand or a use to count |
| HotelFacts.EntryHasPriority | asgn5_semaphores/code/guest.cpp:87-89 | an entry of one_occ_q has the priority of the guest registered in its room, and of no other |
| HotelFacts.EvictsIffGuestBelow | asgn5_semaphores/code/guest.cpp:238-243 | the entry on top is of lower priority if and only if some room of one_occ_q has a registered guest of lower priority, and it is a room whose guest has the least |
| Hotel.Shared.TryEmpty | asgn5_semaphores/code/guest.cpp:69-80 | takes the first room of empty_q, if there is one; the guest is then registered in it and has it to itself |
| Hotel.Shared.LeaveOneOcc | asgn5_semaphores/code/guest.cpp:123-139 | the loop over one_occ_q removes exactly the own room; if it was there, the guest has it to itself |
| Hotel.Shared.TryOneFree | asgn5_semaphores/code/guest.cpp:159-179 | takes the first room of one_free_q, if there is one; the guest is then registered in it and has it to itself, and the error exit is never taken |
| Hotel.Shared.TryEvicting | asgn5_semaphores/code/guest.cpp:238-271 | evicts if and only if some room of one_occ_q has a registered guest of lower priority; the room is then one whose guest had the least, the newcomer is registered there and has it to itself, one token is posted for it, and the error exit is never taken |
| Hotel.Shared.SignalCleaners | asgn5_semaphores/code/guest.cpp:5-32 | returns 1 if and only if all rooms are used twice and no guest has a use left to count |
| Hotel.Shared.Check | asgn5_semaphores/code/cleaner.cpp:11-12 | goes on if and only if use_count is at least 2n, and then nothing is left to use |
| Hotel.Shared.Wake | asgn5_semaphores/code/cleaner.cpp:18-28 | the same after waking, and empty_q is empty |
| Hotel.Shared.TakeRoom | asgn5_semaphores/code/cleaner.cpp:34-47 | a cleaner that finds a room has it to itself and leaves it clean; if none is left it waits |
| Hotel.Shared.CountCleaned | asgn5_semaphores/code/cleaner.cpp:66-71 | use_count is 0 afterwards if and only if this was the n-th room, and then all rooms are clean and in empty_q |
| Hotel.Shared.constructor | asgn5_semaphores/code/main.cpp:29-86 | main starts in an initial state of the protocol |
| Hotel.FilterOut | asgn5_semaphores/code/guest.cpp:126-139 | the loop keeps the entries of other rooms and finds out whether the own one was there |
| Hotel.Shared.Run | asgn5_semaphores/code/guest.cpp:34-310 | the methods, called in any order whatever, make a run of the protocol: each room in one place, no error exit, uses counted |
| Hotel.PlaysEveryRun | asgn5_semaphores/code/guest.cpp:34-310 | and every run of the protocol is made by calling the methods in its order |
| FeedSafety.ConservedKeeps | asgn4__social_media_feed_system_thread_synchronization/code/sns.cpp:213-311 | no step loses or doubles an action |
| FeedSafety.NumberedKeeps | asgn4__social_media_feed_system_thread_synchronization/code/sns.cpp:197-201 | the per-user counters make every generated action a new one |
| FeedSafety.LineKeeps | asgn4__social_media_feed_system_thread_synchronization/code/sns.cpp:195-290 | every action of the batch is of the user being simulated, every action has its number, and new_action_q with the batch behind it is the rest of the actions in order of generation; every step keeps that |
| FeedSafety.DeliveredKeeps | asgn4__social_media_feed_system_thread_synchronization/code/sns.cpp:293-311 | what each user got stays exactly what pushers owe for the neighbours they have passed |
| FeedSafety.ReadKeeps | asgn4__social_media_feed_system_thread_synchronization/code/sns.cpp:372-423 | what was delivered stays exactly what was read and what is queued, chronological feeds in order |
| FeedSafety.QueueKeeps | asgn4__social_media_feed_system_thread_synchronization/code/sns.cpp:349-370 | what was notified stays exactly what was taken and what is queued |
| FeedSafety.AnnouncedKeeps | asgn4__social_media_feed_system_thread_synchronization/code/sns.cpp:297-310 | each delivery stays matched by an earlier notification of its own |
| FeedSafety.JoinKeeps | asgn4__social_media_feed_system_thread_synchronization/code/sns.cpp:242-248 | although written under two mutexes, thread_to_join loses no increment: each write is a load and a store, and the steps between are possible |
| FeedSafety.ExitKeeps | asgn4__social_media_feed_system_thread_synchronization/code/sns.cpp:349-361 | once a reader has left nobody can notify, and it stays so |
| FeedSafety.StepKeeps | asgn4__social_media_feed_system_thread_synchronization/code/sns.cpp:160-431 | every step keeps the whole invariant |
| FeedSafety.InitInv | asgn4__social_media_feed_system_thread_synchronization/code/sns.cpp:434-448 | it holds at the start |
| FeedRuns.RunKeeps | asgn4__social_media_feed_system_thread_synchronization/code/sns.cpp:160-431 | it holds in every state of every run, under every interleaving of any number of threads |
| FeedRuns.OneStage | asgn4__social_media_feed_system_thread_synchronization/code/sns.cpp:195-320 | a generated action is in exactly one of pending batch, new_action_q, one pusher's hands, done; nothing else is anywhere |
| FeedRuns.DeliveredOnce | asgn4__social_media_feed_system_thread_synchronization/code/sns.cpp:293-311 | an action served to k neighbours has reached exactly those, each once, with the priority of that edge; done means all of them |
| FeedRuns.NeverTwice | asgn4__social_media_feed_system_thread_synchronization/code/sns.cpp:293-311 | no entry is ever twice with a user, and whoever has it is a neighbour of the action's user with that priority |
| FeedRuns.DeliveredExactly | asgn4__social_media_feed_system_thread_synchronization/code/sns.cpp:293-311 | the same as multisets, also for graphs that list neighbours twice |
| FeedRuns.ReadInOrder | asgn4__social_media_feed_system_thread_synchronization/code/sns.cpp:372-423 | a chronological feed is read in the order of delivery, and nothing is read that was not delivered |
| FeedRuns.JoinCounts | asgn4__social_media_feed_system_thread_synchronization/code/sns.cpp:242-328 | thread_to_join is the number of finished threads, so the readers' test passes exactly when simulator and pushers are done |
| FeedRuns.ExitIsSafe | asgn4__social_media_feed_system_thread_synchronization/code/sns.cpp:349-361 | when a reader has left, nothing is queued, nothing ever will be, and every notification made was taken |
| FeedRuns.DeliveriesAnnounced | asgn4__social_media_feed_system_thread_synchronization/code/sns.cpp:297-310 | deliveries never outnumber notifications, and once a reader has left the numbers agree for every user |
| FeedRuns.BatchIsOwn | asgn4__social_media_feed_system_thread_synchronization/code/sns.cpp:195-220 | in every state of every run the batch is of the one user being simulated, and empty between users |
| FeedRuns.NumberedInOrder | asgn4__social_media_feed_system_thread_synchronization/code/sns.cpp:197-201 | the k-th action generated has as its id one more than the number of actions of its user and kind before it |
| FeedRuns.PoppedInOrder | asgn4__social_media_feed_system_thread_synchronization/code/sns.cpp:213-290 | pushers get the actions in the order of generation, none left out: the one popped is the first that no pusher has got before |
| FeedLimits.ActionLeftBehind | asgn4__social_media_feed_system_thread_synchronization/code/sns.cpp:266-278 | a run in which everybody has left and an action is still in new_action_q: a woken pusher leaves without looking at the queue |
| FeedLimits.ItemNeverRead | asgn4__social_media_feed_system_thread_synchronization/code/sns.cpp:297-303 | a run in which everybody has left and a delivered action is never read: the notification comes before the push |
| FeedLimits.AllPushedIff | asgn4__social_media_feed_system_thread_synchronization/code/sns.cpp:266-311 | once the pushers have left, every generated action was pushed to all neighbours if and only if new_action_q was empty when the last of them decided to leave |
| FeedLimits.AllReadIff | asgn4__social_media_feed_system_thread_synchronization/code/sns.cpp:372-423 | once the readers have left, everything delivered to a user was read if and only if no pusher was between its notification and its push to that user when the feed was read for the last time |
| FeedLimits.NeverReadIsEmpty | asgn4__social_media_feed_system_thread_synchronization/code/sns.cpp:297-423 | a user whose feed was never read was delivered nothing |
| FeedLimits.SomeoneLeft | asgn4__social_media_feed_system_thread_synchronization/code/sns.cpp:266-278 | if all pushers have left there was a last one to decide so |
| Feed.Shared.Generate | asgn4__social_media_feed_system_thread_synchronization/code/sns.cpp:195-204 | the action is of the user being simulated, of the kind and time given; its id is one more than the number of actions of that user and kind generated before, so it is unlike any of them; it is last in the batch and in the log |
| Feed.Shared.SimStore | asgn4__social_media_feed_system_thread_synchronization/code/sns.cpp:244 | thread_to_join is then 1, the number of threads that are done |
| Feed.Shared.TakeAction | asgn4__social_media_feed_system_thread_synchronization/code/sns.cpp:262-290 | the action popped is the next in order of generation; it is in no queue any more, not done, and with no other pusher |
| Feed.Shared.WakePusher | asgn4__social_media_feed_system_thread_synchronization/code/sns.cpp:266-281 | leaves if and only if the simulator has left, even with actions queued; otherwise what it pops is the next in order of generation, and it has it alone |
| Feed.Shared.Finish | asgn4__social_media_feed_system_thread_synchronization/code/sns.cpp:293-311 | the action is done for the only time, and if no neighbour is listed twice, each neighbour of its user has got it once and nobody else has |
| Feed.Shared.PusherStore | asgn4__social_media_feed_system_thread_synchronization/code/sns.cpp:326-328 | the value read earlier plus one is the number of threads that are done |
| Feed.Shared.WakeReader | asgn4__social_media_feed_system_thread_synchronization/code/sns.cpp:349-361 | leaves if and only if simulator and pushers are done and nothing is queued, and then every notification was taken |
| Feed.Shared.Drain | asgn4__social_media_feed_system_thread_synchronization/code/sns.cpp:372-423 | the whole feed is read, in order or by falling priority; everything delivered so far is read then |
| Feed.InOrder | asgn4__social_media_feed_system_thread_synchronization/code/sns.cpp:376-391 | first in, first out, everything |
| Feed.ByPriority | asgn4__social_media_feed_system_thread_synchronization/code/sns.cpp:400-421 | everything, by falling priority |
| Feed.Shared.JoinReader | asgn4__social_media_feed_system_thread_synchronization/code/sns.cpp:477-480 | thread_to_join stays the number of threads that are done |
| Feed.Shared.constructor | asgn4__social_media_feed_system_thread_synchronization/code/sns.cpp:434-448 | main starts in an initial state of the protocol |
| Feed.Shared.Run | asgn4__social_media_feed_system_thread_synchronization/code/sns.cpp:160-480 | the methods, called in any order whatever, make a run of the protocol |
| Lcs.AtMost | asgn1_bash_scripts/shell_scripts/Q5/nmt-master/nmt/scripts/rouge.py:84-94 | no common subsequence of two prefixes is longer than the table entry |
| Lcs.FillTable | asgn1_bash_scripts/shell_scripts/Q5/nmt-master/nmt/scripts/rouge.py:70-94 | every entry is the greatest length of a common subsequence of the two prefixes, and there are no other entries |
| Lcs.LengthOfLcs | asgn1_bash_scripts/shell_scripts/Q5/nmt-master/nmt/scripts/rouge.py:52-67 | the length of a longest common subsequence |
| Lcs.ReconstructIsCommon | asgn1_bash_scripts/shell_scripts/Q5/nmt-master/nmt/scripts/rouge.py:112-121 | the reconstruction from any entry is a common subsequence of the two prefixes, as long as the entry says |
| Lcs.ReconstructPlaces | asgn1_bash_scripts/shell_scripts/Q5/nmt-master/nmt/scripts/rouge.py:117 | the positions beside the words are their rising places in x |
| Lcs.ReconstructLcs | asgn1_bash_scripts/shell_scripts/Q5/nmt-master/nmt/scripts/rouge.py:97-124 | a common subsequence of both inputs, and none is longer |
| Sieve.LeastIsSmallestPrimeFactor | asgn1_bash_scripts/shell_scripts/Q6/Assgn1_6_17.sh:12-25 | the least divisor above 1 is prime and no prime divisor is smaller |
| Sieve.CompositeIsLarge | asgn1_bash_scripts/shell_scripts/Q6/Assgn1_6_17.sh:17 | starting at i*i misses nothing |
| Sieve.MarkMultiples | asgn1_bash_scripts/shell_scripts/Q6/Assgn1_6_17.sh:17-23 | the inner loop, which never overwrites, marks exactly the numbers whose smallest factor is i |
| Sieve.Fill | asgn1_bash_scripts/shell_scripts/Q6/Assgn1_6_17.sh:5-25 | after the loops the entry for each k from 2 to limit is its smallest prime factor |
| Sieve.TakeFactor | asgn1_bash_scripts/shell_scripts/Q6/Assgn1_6_17.sh:31-33 | dividing the factor out leaves a smaller number with no smaller factor |
| Sieve.Factorise | asgn1_bash_scripts/shell_scripts/Q6/Assgn1_6_17.sh:29-34 | for every input from 1 to limit the loop ends; it prints primes, in rising order, with the input as their product |
| Lcm.Bezout | asgn1_bash_scripts/shell_scripts/Q1/Assgn1_1_17.sh:1-3 | Euclid's recursion ends with an integer combination of its arguments |
| Lcm.GcdIsGreatest | asgn1_bash_scripts/shell_scripts/Q1/Assgn1_1_17.sh:1-3 | it divides both arguments, and every common divisor divides it |
| Lcm.StepIsLeast | asgn1_bash_scripts/shell_scripts/Q1/Assgn1_1_17.sh:8 | one step of the loop gives a divisor of every common multiple |
| Lcm.StepKeepsLeast | asgn1_bash_scripts/shell_scripts/Q1/Assgn1_1_17.sh:6-9 | reading one more number keeps the least common multiple |
| Lcm.Accumulate | asgn1_bash_scripts/shell_scripts/Q1/Assgn1_1_17.sh:5-10 | the loop ends with the least common multiple; no value on the way is larger than the last |
| Parser.SplitAtPipes | asgn2_custom_Unix-based_shell/code/parser.c:237-308 | the index loop computes the split that the lemmas below speak about, errors included |
| Parser.TokeniseOnPipe | asgn2_custom_Unix-based_shell/code/parser.c:237-352 | the parts with their background flags; & in any part but the last is an error |
| Parser.Tokenise | asgn2_custom_Unix-based_shell/code/parser.c:43-122 | the token loop computes what the lemmas below speak about, with redirection signs, quotes, the quote after a slash, and backslashes |
| Parser.Cmd.Parse | asgn2_custom_Unix-based_shell/code/parser.c:43-218 | the fields of the command after parsing and the error, also when parsing stops half way |
| ParserLexemes.LexemesRead | asgn2_custom_Unix-based_shell/code/parser.c:47-122 | characters, escaped characters, quoted stretches, blanks and signs are read one after the other, whatever follows: a blank or sign ends the word before it, and a sign is a token of its own |
| ParserLexemes.TokeniserDecides | asgn2_custom_Unix-based_shell/code/parser.c:43-122 | every text is either such a list, and then accepted with the tokens it means, or ends in a lone backslash or an open quote, and then refused with that error |
| ParserItems.ItemsRead | asgn2_custom_Unix-based_shell/code/parser.c:137-215 | arguments, patterns and redirections are added to the command in order, whatever follows |
| ParserItems.SortedDecides | asgn2_custom_Unix-based_shell/code/parser.c:137-215 | every list of tokens is such items followed by nothing, by a last &, or by one of the errors, and that decides the outcome: the matches of a pattern stand behind the arguments before it, and the last redirection counts |
| ParserPipes.PartCopied | asgn2_custom_Unix-based_shell/code/parser.c:242-263 | a part is copied whole, so a pipe in quotes does not split |
| ParserPipes.SplitterDecides | asgn2_custom_Unix-based_shell/code/parser.c:237-308 | every line is split at each pipe outside quotes, and refused if and only if a pipe stands directly before the newline, a part is empty, or a quote stays open |
| ParserRoundTrip.TextTokens | asgn2_custom_Unix-based_shell/code/parser.c:47-122 | tokens written in any way, words quoted, escaped or bare, with any number of blanks around signs, none included, are read as just these tokens |
| ParserRoundTrip.TextParses | asgn2_custom_Unix-based_shell/code/parser.c:43-218 | a command written in any such way parses to what its items mean, with the background flag if & is last |
| ParserRoundTrip.LineSplits | asgn2_custom_Unix-based_shell/code/parser.c:237-308 | a pipeline so written is split into the texts of its commands; a pipe at the end is refused if and only if the newline follows at once |
| ParserRoundTrip.PipelineParses | asgn2_custom_Unix-based_shell/code/parser.c:237-352 | a pipeline so written gives back what its commands mean; it is refused for an & before its end, and a pipe followed only by blanks is overlooked, for the test at 283 never succeeds |
| ParserPrinting.PrintedLineParses | asgn2_custom_Unix-based_shell/code/parser.c:237-352 | plain commands printed with their pipes parse back to the same commands, arguments, redirections and background flag |
| ParserPrinting.ItemsMean | asgn2_custom_Unix-based_shell/code/parser.c:137-215 | what is printed for a command means the command |
| Bleu.CountsSum | asgn1_bash_scripts/shell_scripts/Q5/nmt-master/nmt/scripts/bleu.py:41-44 | the counts of the k-grams of a segment sum up to max(0, len - k + 1) |
| Bleu.AllGramsAt | asgn1_bash_scripts/shell_scripts/Q5/nmt-master/nmt/scripts/bleu.py:40-45 | the counter of all orders has each n-gram as often as its own order has it |
| Bleu.GramsCount | asgn1_bash_scripts/shell_scripts/Q5/nmt-master/nmt/scripts/bleu.py:40-45 | a k-gram is counted as often as there are positions at which it stands |
| Bleu.GetNgrams | asgn1_bash_scripts/shell_scripts/Q5/nmt-master/nmt/scripts/bleu.py:28-45 | the loops count, for each n-gram of up to max_order words, the positions of the segment at which it stands |
| Bleu.MatchesAtMostPossible | asgn1_bash_scripts/shell_scripts/Q5/nmt-master/nmt/scripts/bleu.py:77-83 | clipped matches never exceed possible matches, and reach them if and only if no n-gram occurs more often than in every reference |
| Bleu.AddMatches | asgn1_bash_scripts/shell_scripts/Q5/nmt-master/nmt/scripts/bleu.py:73-79 | the loop over the overlap adds to each order the clipped matches of that order |
| Bleu.CountMatches | asgn1_bash_scripts/shell_scripts/Q5/nmt-master/nmt/scripts/bleu.py:64-83 | for each order the matches and possible matches of the whole corpus |
| Bleu.PrecisionInRange | asgn1_bash_scripts/shell_scripts/Q5/nmt-master/nmt/scripts/bleu.py:85-95 | every precision is between 0 and 1, smoothed or not; a corpus of translations that are their own references has only matches |
| Bleu.Precisions | asgn1_bash_scripts/shell_scripts/Q5/nmt-master/nmt/scripts/bleu.py:85-95 | each precision is the quotient of matches by possible matches, both raised by one when smoothing, and 0 when nothing is possible |

## Left out

Everywhere: printing, log and result files, shared-memory and semaphore calls, processes, clocks and random
numbers. Random choices and timeouts are choices of the environment.

- asgn3 timing: a producer round and a consumer's update are each one step and alternate; that the producer publishes counts before the node maps (producer.cpp:231-238), and that a slow consumer can miss a round, are not modelled.
- asgn3 sampling: the sort by degree, the cumulative probabilities and the drawing (producer.cpp:37-57, 197-213) are floating-point sampling; the model takes any choice of existing nodes. Nodes drawn twice are allowed.
- asgn3 sizes: SHM_EDGE_SZ, SHM_NODE_MAP_SZ and MAX_NODES are kept; the code does not check that a round fits, so the methods ask for it. That num_nodes times the largest weight is below INT_MAX is asked for as well; with unit weights MAX_NODES gives it.
- Patch.AsWrittenPatchIsExactIff: signed overflow at consumer.cpp:248 is undefined in C++; two's complement wrap-around is modelled, which is what common compilers produce.
- Consumer.Process.RunRounds: states the intended reading only; AsWrittenRuns.RunAsWritten has the condition for the code as written.
- asgn3 lines: of the result files only the lines of patched pairs are modelled. For a node searched from, the row and the paths kept are what its lines are printed from.
- asgn6 addressing: the code indexes an int array with a byte address (goodmalloc.cpp:332, 351, 438). The model uses a byte memory; IntAddressing says for which lists the index used is inside the memory.
- asgn6 last entry: Sym_Table::init does not allocate the page vector of the last entry (goodmalloc.cpp:118-126); the model has one there.
- asgn6 offsets: an offset out of bounds gives the address -1, which assignVal and getVal then use (goodmalloc.cpp:332, 438). AssignVal and GetVal ask for offsets in bounds.
- asgn6 sizes: the page count is computed with a double (goodmalloc.cpp:25, 274) and exact here; 64-bit sizes do not wrap around here. The test of createMem for a second call is left out.
- MergeSort.MergeSort: is for a list of scope 0 called from scope 0 or above with no list in a scope above the caller's, and asks for the pages and the entry of the temporary; createList's refusal in the middle of a sort, which the code ignores, is not modelled. That start + n does not wrap around as an unsigned int follows from its being within the list.
- HotelSafety.StepKeeps: three guards of the steps stand for what only sleeping times ensure (a guest takes an empty room only while the round is open, guest.cpp:43; a cleaner's reset of num_cleaned_rooms comes before the first room of the round is cleaned, cleaner.cpp:20-22; a cleaner that does not wait finds it done). HotelLimits has runs that lose uses when the first is dropped, or weakened to use_count being below 2n. Nothing of the kind is shown for the other two.
- asgn5 leftovers: tokens left in room_sem by late evictions are kept but nothing is proved about them; ending a second stay by time and by broadcast is one step. No liveness.
- asgn4 liveness: that every pushed action is read, and that pushers empty new_action_q before leaving, are false (FeedLimits.ItemNeverRead, FeedLimits.ActionLeftBehind); nothing is claimed about what happens eventually. The wall queues, which nothing reads, the number of actions per user, and the computation of priorities (sns.cpp:90-158) are left out.
- Feed.Shared.Drain: reading one feed is one step, as it holds the feed's mutex; std::priority_queue may give entries of equal priority in any order, and so does the model.
- Sieve.Fill: bash's 64-bit arithmetic does not wrap around for limits below three thousand million, and the script's limit is a million. Inputs outside 1..limit, on which the loop of the script does not end or reads another element, are left out.
- Lcm.Accumulate: numbers are unbounded; the contract shows that no intermediate value exceeds the result, so 64 bits suffice when the result fits. Reversing the digits of the input lines (Assgn1_1_17.sh:4) is left out, and so are zeros, which divide by zero there.
- ParserPrinting.PrintedLineParses: words are non-empty, free of quotes, backslashes, &, * and ?, and not a bare < or >. ParserRoundTrip.PipelineParses has no such limit, except that the splitter, unlike the tokeniser, takes an escaped quote for a quote and an escaped pipe for a pipe; commands so written are left to ParserPipes.SplitterDecides.
- ParserPipes.SplitterDecides: is for lines that end in their newline, as the editor leaves them. What glob finds is a parameter. Memory management and the limits of vector_string are left out.
- Bleu.CountMatches: lengths, brevity penalty, logarithms and the score are left out; precisions are exact rationals. An empty list of references, for which the script fails at line 70, is not excluded.
- rouge.py: scores and n-gram sets; only the subsequence part is modelled.
- Not modelled at all: the terminal editor, job control in shell_main.cpp, sb.cpp, Lab_Test_1, the other bash scripts, and all TensorFlow code.
