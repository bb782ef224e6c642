# TrieDB in Dafny

TrieDB is a key-value server written in C.  Keys live in a trie whose nodes keep their children in binary search
trees; commands work on single keys and on all keys with a prefix; keys may expire; servers find each other on a
consistent-hash ring; requests travel over a binary protocol and are handed from IO threads to worker threads.  This
project models those parts and proves what they promise.

The model keeps the form of the C code.  Structures that are updated in place are classes and arrays with `modifies`
clauses, loops are loops, and each such method is proved against a function of the old state.  Pure descriptions of the
structures (`Bst.Shape`, `Trie.Tree`, `HashTable.Table`, sequences of list nodes) carry the invariants.

| file | models |
|---|---|
| `Bytes`, `Decimal`, `Items` | bytes and C strings, decimal text as C prints and reads it, `struct db_item` |
| `Bst`, `Trie`, `TrieRuns` | the children trees, the trie, whole runs of trie operations |
| `PrefixFind`, `Database` | the prefix walk with its shared buffer, the database commands over the trie |
| `Vector`, `Quicksort`, `List` | the growing array, the in-place quicksort, the linked list and its merge sort |
| `HashTable`, `HashTableRuns`, `Crc32` | the hash table, whole runs of it, the table-driven CRC |
| `Cluster` | the consistent-hash ring |
| `Pack`, `Protocol`, `Responses` | the format-string codec, the length field and PUT requests, the responses that list keys |
| `Expiry`, `ExpiryBook`, `ExpiryRuns` | the TTL command and the expiry tick; runs of PUT, DEL, TTL and ticks, on what is recorded and in the code |
| `Handoff`, `Descriptors` | the hand-over between IO threads and workers as a step system, by connections and by descriptor numbers |

Main results:

- Over every run of insert, find, delete and prefix delete the trie is a finite map with a set of remembered prefixes,
  every answer is what these say, with and without a destructor, and its size law holds exactly (`TrieRuns.Run`).
- The prefix walk, with one buffer shared by all its recursive calls, lists every bound key below a prefix exactly once
  (`PrefixFind.PrefixFind`).
- Over every admissible run the hash table, with its nested rehashes, is a finite map (`HashTableRuns.Run`); a put after
  a deletion can store a key twice, exactly when a free slot precedes the key and the table is not half full
  (`HashTable.HashTable.Put`, `HashTable.Table.PutDuplicates`, `HashTable.DeleteOpensGap`).
- The merge sort relinks exactly the given nodes into the one stable sort (`List.MergeSort`, `List.StableSortUnique`),
  so adding a server to the ring takes over exactly the hashes its points are nearest to (`Cluster.OwnerAfterAll`).
- The quicksort that swaps the contents of the records behind the pointers sorts and permutes them
  (`Quicksort.SortVector`).
- Packing and unpacking are inverse exactly on arguments in range (`Pack.RoundTrip`), the length field exactly below
  128^4 (`Protocol.LengthRoundTrip`), PUT requests exactly within their field widths (`Protocol.PutRoundTrip`); list
  responses read back exactly when every field fits its width (`Responses.MessageRead`).
- The table-driven CRC is the bit-serial one, linear, and detects every change of a single byte (`Crc32.Crc32`,
  `Crc32.CrcLinear`, `Crc32.ByteChangeDetected`).
- An expiry tick removes every other expired entry.  So k ticks drain m entries exactly when m < 2^k, and unbind exactly
  the keys of the expired entries whose position, counted from 1, is not a multiple of 2^k (`Expiry.Ticks`,
  `Expiry.LaterBinds`).
- Over every sequence of PUT, DEL and TTL commands and ticks (`ExpiryRuns.Run`), the list of expiring keys stays right
  exactly as long as no TTL sets a negative ttl and no PUT or DEL leaves an entry behind (`ExpiryBook.RunSound`); until
  then no key goes before its deadline (`ExpiryBook.RunNeverEarly`), and afterwards one can (`ExpiryBook.PutGoesEarly`,
  `ExpiryBook.DelGoesEarly`).
- The list is also complete exactly as long as no key is put with a ttl (`ExpiryBook.RunExact`), and then enough ticks
  leave exactly the keys without a ttl and those whose deadline is still to come (`ExpiryBook.DrainedRight`).  A key put
  with a ttl gets no entry, from no later TTL command either, and no tick ever takes it away (`ExpiryBook.RunUnlisted`).
- In every interleaving of IO threads, workers and expiry ticks, a client has at most one request in flight, its k-th
  reply is the handler's reply to its k-th request, and every section of a handler ran on the database that the sections
  and ticks before it left (`Handoff.AlwaysOneInFlight`, `Handoff.RepliesInOrder`).
- After every run whatever has been decoded can be served to its end, and every armed client can have its next request
  served (`Handoff.Completes`, `Handoff.ServesNext`).
- With descriptor numbers that are closed and handed out again, this survives as long as accept hands out no number
  that some thread is still going to close or re-arm for a connection that is gone: such runs are exactly the runs by
  connections (`Descriptors.Refines`, `Descriptors.Realised`, `Descriptors.PromptOneOn`).  Every accept that does can
  lead to two requests on one descriptor (`Descriptors.PromptNeeded`), and the server can come to such an accept
  (`Descriptors.ReusedTooSoon`).

Where the code and its comments disagree, the model follows the code: `1 + MAX(a, b)` in `bst_insert` is what the
preprocessor makes of it, so every stored height is 1; an expiry tick deletes at `i` and then increments `i`; `pack` does
not count the bytes of strings; a bad packet leaves the client's descriptor disarmed.

## Model

| member | source | states |
|---|---|---|
| `Bst.Insert` | src/bst.c:87-152 | inserting keeps the search tree linked in the shape it should have, allocates a node exactly when the key was absent, leaves every height at 1, and leaves a balance within the bounds of the rotation branches |
| `Bst.InsertBinds` | src/bst.c:87-152 | the tree after inserting an absent key binds exactly what it did before and the new key to the new data |
| `Bst.InsertOrdered` | src/bst.c:87-152 | insertion keeps the tree strictly ordered |
| `Bst.InsertDistinct` | src/bst.c:87-152 | insertion adds exactly one node and shares none |
| `Bst.InsertKeeps` | src/bst.c:107-109 | inserting a present key changes nothing |
| `Bst.Search` | src/bst.c:155-178 | search returns a node exactly when the key is in the tree, and then the node that binds it |
| `Bst.HeightsStayOne` | src/bst.c:32-45 | in a linked tree every node has a balance within -1 and 1, for which no rotation branch runs |
| `Bst.InsertAll` | src/bst.c:87-152 | any sequence of insertions from the empty tree gives an ordered tree that holds the first data given for each key, with every height 1 and every balance within -1 and 1 |
| `Trie.Tree.GrownValid` | src/trie.c:137-187 | hanging a new node into the children tree of a node keeps the trie a trie: rooted, prefix-closed, unshared, each edge labelled by its child's character |
| `Trie.Tree.PrunedValid` | src/trie.c:271-292 | cutting off everything strictly below a node keeps the trie a trie |
| `Trie.Trie.constructor` | src/trie.c:111-122 | a new trie is empty, in order, and its size is exact |
| `Trie.Trie.FindNode` | src/trie.c:46-68 | returns null exactly when the argument has no node, otherwise its node |
| `Trie.Trie.AddChild` | src/trie.c:164-167 | creating a missing child adds exactly one node, without data, and keeps the trie in order |
| `Trie.Trie.Reach` | src/trie.c:137-187 | walking down with creation ends at the node of the key, gives nodes to exactly the prefixes of the key, and changes no binding |
| `Trie.Trie.Insert` | src/trie.c:137-215 | insertion binds exactly the given key, also when it was bound or empty, gives nodes to exactly its prefixes, and keeps the size law |
| `Trie.Trie.Find` | src/trie.c:193-261 | finds the data of a key exactly when it is bound |
| `Trie.Trie.Delete` | src/trie.c:218-255 | deleting a non-empty key unbinds exactly that key and the empty key nothing; with the server's destructor it reports true exactly for a bound key, without one for every existing node |
| `Trie.Trie.NodeCount` | src/trie.c:83-92 | counts exactly the bound keys at and below a node |
| `Trie.Trie.ChildrenCount` | src/trie.c:74-80 | counts exactly the bound keys below a part of the children |
| `Trie.Trie.NodeDestroy` | src/trie.c:405-431 | destroying a subtree takes from the size the number of its bound keys without a destructor, and nothing with one |
| `Trie.Trie.PrefixDelete` | src/trie.c:271-292 | unbinds exactly the keys that extend the prefix (never the empty key), takes away exactly the nodes strictly below it, and lets the size drift by exactly the keys strictly below it when a destructor is installed |
| `TrieRuns.Run` | src/trie.c:137-292 | after every run the trie holds the map the run describes and has nodes for exactly the prefixes the run leaves; every answer follows from these two, with and without a destructor; its size exceeds the number of bound keys by exactly the keys the run destroyed strictly below deleted prefixes, and by none without a destructor |
| `PrefixFind.NodeFind` | src/trie.c:329-358 | the recursive walk appends the list of its subtree and restores the shared buffer up to its level |
| `PrefixFind.KidsFind` | src/trie.c:319-326 | the walk over a children tree appends its part of the list in the order node, left, right |
| `PrefixFind.NodeListLists` | src/trie.c:315-358 | that list holds every bound key of the subtree exactly once, with its data |
| `PrefixFind.PrefixFind` | src/trie.c:361-389 | none exactly when the prefix has no node; otherwise every bound key that extends it, exactly once, spelled exactly and with its data |
| `PrefixFind.PrefixCount` | src/trie.c:295-312 | the number of bound keys that extend the prefix, which is the length of the list above |
| `Decimal.ParseInt` | src/util.c:109-117 | the result is the number that the leading digits of the text spell, wrapped to 32 bits |
| `Decimal.DigitsRead` | src/util.c:100-117 | reading the printed text of a number gives the number back |
| `Decimal.TextRead` | src/util.c:120-132 | a printed number, with its sign, reads back as the number |
| `Decimal.WrapIs` | src/util.c:109-117 | arithmetic wraps to the one 32-bit number that is the same modulo 2^32 |
| `Decimal.IncThenDec` | src/db.c:137-161 | decrementing after incrementing restores a text exactly when it is not all digits or is a canonical decimal below INT_MAX |
| `Items.DbItem.Touch` | src/db.c:137-274 | a prefix PUT sets value and ttl and a prefix TTL the ttl alone, both with the time of last access, and keep the creation time; INC and DEC renumber texts of digits within 32 bits and leave others alone |
| `Items.CountsOn` | src/db.c:137-161 | INC turns the decimal of n below INT_MAX into that of n + 1, DEC that of n above 0 into that of n - 1, and 0 into -1 |
| `Database.Database.Insert` | src/db.c:51-58 | binds exactly the key to a record with the value, the ttl and the current time |
| `Database.Database.Search` | src/db.c:65-78 | finds a record exactly when the key is bound and its ttl has not run out |
| `Database.Database.Remove` | src/db.c:80-82 | unbinds exactly the key and, with the server's destructor, reports whether it was bound; the objects of the trie stay the same |
| `Database.Database.PrefixRemove` | src/db.c:92-94 | unbinds exactly the keys that extend the prefix |
| `Database.Database.PrefixUpdate` | src/db.c:122-290 | exactly the records whose key extends the prefix change: after a PUT they hold its value and ttl, after a TTL its ttl, after INC or DEC the next or previous number; creation times stay and nothing else changes |
| `Database.IncThenDecRestores` | src/db.c:164-193 | a prefix DEC after a prefix INC keeps keys, ttl and creation time, and restores a value exactly when its key lies outside the prefix, it is not all digits, or it is a canonical decimal below INT_MAX |
| `Vector.Vector.constructor` | src/vector.c:33-46 | a new vector is empty with a power-of-two array |
| `Vector.Vector.Append` | src/vector.c:77-81 | appends exactly the item; the array stays a power of two and the account of moved elements stays balanced |
| `Vector.Vector.Get` | src/vector.c:90-92 | the item at an index of the sequence the vector stands for |
| `Vector.Vector.Set` | src/vector.c:84-87 | replaces the item at a valid index and ignores any other index |
| `Vector.Vector.Delete` | src/vector.c:95-111 | removes exactly the item at a valid index, shrinking the array when a quarter is left, and ignores any other index |
| `Vector.Vector.SlackPays` | src/vector.c:95-111 | a delete pays for the resize it may cause: two per operation cover all moves |
| `Vector.Run` | src/vector.c:66-111 | after any n appends and deletes the vector is the sequence they describe, its array a power of two of at least 2 slots that it fits in, and at most 2n + 2 elements were moved |
| `Quicksort.Partition` | src/vector.c:126-141 | partitioning permutes the range, leaves the rest, puts values not above the pivot before the others and the pivot last among them |
| `Quicksort.Sort` | src/vector.c:126-148 | sorts the values behind the pointers of a range and permutes them; nothing outside the range changes |
| `Quicksort.SortVector` | src/vector.c:151-155 | for every total preorder and pairwise distinct cells: the pointers stay, the values behind them come out sorted and are a permutation |
| `List.Bisect` | src/list.c:277-292 | cuts a list of at least two nodes into its two halves, both non-empty and properly terminated |
| `List.MergeLists` | src/list.c:298-315 | relinks two disjoint lists into their merge, allocating nothing that stays |
| `List.MergeSort` | src/list.c:321-333 | terminates and relinks exactly the given nodes into the merge sort of their order |
| `List.SortSorts` | src/list.c:321-333 | the merge sort is sorted for every comparator that orders the elements |
| `List.SortPermutes` | src/list.c:321-333 | the merge sort is a permutation |
| `List.SortStable` | src/list.c:321-333 | elements that compare equal keep their order |
| `List.StableSortUnique` | src/list.c:321-333 | being sorted and agreeing on the order of equal elements determines a list |
| `HashTable.HashTable.constructor` | src/hashtable.c:170-188 | a new table is empty and in order |
| `HashTable.HashTable.FindSlot` | src/hashtable.c:73-102 | fails exactly when the table is half full or the probe window is used up, otherwise gives the first slot that is free or holds the key |
| `HashTable.StreqIs` | src/util.h:76 | keys are compared by the length of the first one, telling letters apart but not their cases |
| `HashTable.HashTable.Get` | src/hashtable.c:229-247 | returns exactly the map's value, or none |
| `HashTable.HashTable.Del` | src/hashtable.c:279-311 | unbinds exactly the key and reports whether it was bound |
| `HashTable.HashTable.Put` | src/hashtable.c:197-223 | if the key is unbound, or no free slot precedes it, or the table is half full, a successful put binds exactly the key and keeps every other binding through any number of nested rehashes, a failed one only loses bindings, every taken slot stays within the probe window and the table at most half full; in every other case the key ends up in two slots |
| `HashTable.HashTable.Rehash` | src/hashtable.c:107-146 | a successful rehash keeps every binding and grows the table; a failed one only loses bindings |
| `HashTable.Table.GetFinds` | src/hashtable.c:229-247 | probing for a key finds its slot exactly when it is bound |
| `HashTable.Table.PutFindsFree` | src/hashtable.c:73-102 | for an unbound key the probe finds a free slot with no free slot before it |
| `HashTable.Table.PutFindsBound` | src/hashtable.c:73-102 | for a bound key the probe finds its slot exactly when no free slot comes first |
| `HashTable.Table.OneSlot` | src/hashtable.c:197-223 | no key lies in two slots |
| `HashTable.Table.PutDuplicates` | src/hashtable.c:197-223 | putting a bound key that a free slot precedes leaves no table that is a map |
| `HashTable.TwoPutsMeet` | src/hashtable.c:73-102 | in a new table the first of two keys whose hashes meet takes its own slot and the second the next one |
| `HashTable.DeleteOpensGap` | src/hashtable.c:279-311 | deleting the first of them leaves a table, less than half full, in which a put of the second takes the free slot before it |
| `HashTableRuns.Run` | src/hashtable.c:73-311 | through every run that deletes nothing or puts only unbound keys, the table is the map the run describes and every answer is the map's, until memory runs out |
| `Crc32.EntryRight` | src/hashtable.c:438-491 | each of the 256 entries of the table is the effect of eight steps of the shift register on its index |
| `Crc32.TableStep` | src/hashtable.c:499-501 | one turn of the table-driven loop is one byte of the bit-serial division |
| `Crc32.Fold` | src/hashtable.c:494-503 | the loop computes the bit-serial CRC, for any step of the register that the table tabulates |
| `Crc32.Crc32` | src/hashtable.c:491-501 | the table-driven loop gives the register, empty at first, after the bits of the message are shifted in, each byte from its least significant bit on, with the reflected polynomial 0xedb88320; the result has 32 bits |
| `Crc32.CrcIsRegister` | src/hashtable.c:491-501 | adding a byte and then shifting eight times comes to shifting in its bits one by one |
| `Crc32.CrcLinear` | src/hashtable.c:494-503 | the CRC of the exclusive or of two messages of equal length is the exclusive or of their CRCs |
| `Crc32.ByteChangeDetected` | src/hashtable.c:494-503 | changing exactly one byte always changes the CRC |
| `Crc32.LeadingZero` | src/hashtable.c:494-503 | the register starts at zero, so a leading zero byte does not change the CRC |
| `Cluster.PushAndSort` | src/cluster.c:74-94 | pushing a point in front and merge-sorting inserts it before the first point at or above its bound, ahead of points with the same bound |
| `Cluster.PushAndResort` | src/cluster.c:74-94 | the linked list after the push and the sort holds exactly that ring |
| `Cluster.Cluster.InsertNode` | src/cluster.c:74-94 | the ring gains exactly the point and stays sorted; only a server's own point counts in the size |
| `Cluster.Cluster.AddNode` | src/cluster.c:108-177 | the ring gains exactly one real point, at the hash of address and port modulo 4096, and one virtual point for every replica r below replicas, at the hash of r, address and port; all of them carry the server's address, port, descriptor and self flag, and they are inserted in this order, the replicas counted down |
| `Cluster.TextsDiffer` | src/cluster.c:113-160 | the texts hashed for the points of one server are pairwise different |
| `Cluster.Cluster.GetNode` | src/cluster.c:189-220 | returns the first point at or above the hash, or the head of the ring when there is none |
| `Cluster.OwnerNearest` | src/cluster.c:189-220 | the owner of a hash is the nearest point clockwise |
| `Cluster.OwnerAfterInsert` | src/cluster.c:74-94 | an inserted point takes over exactly the hashes it is at least as near to as their owner |
| `Cluster.OwnerAfterAll` | src/cluster.c:107-182 | adding a server changes the owner of a hash exactly when one of its points is at least as near, and then to one of them, equal bounds included |
| `Cluster.OwnerOverRun` | src/cluster.c:107-220 | over a run of additions a hash only ever moves to a server that joined in between |
| `Cluster.Build` | src/cluster.c:108-177 | a run of additions builds the ring whose points are exactly the real and virtual points of its servers |
| `Pack.PackI16` | src/pack.c:107-110 | stores the low two bytes, the most significant first, and touches nothing else |
| `Pack.PackI32` | src/pack.c:115-120 | stores the low four bytes, the most significant first, and touches nothing else |
| `Pack.PackI64` | src/pack.c:125-130 | stores the low eight bytes, the most significant first, and touches nothing else |
| `Pack.Word16` | src/pack.c:151-153 | combining two shifted bytes is the number they stand for in base 256 |
| `Pack.Word32` | src/pack.c:177-182 | the same for four bytes |
| `Pack.Word64` | src/pack.c:210-219 | the same for eight bytes |
| `Pack.ReadNumber` | src/pack.c:135-219 | the signed and unsigned decoders give the two's complement or plain value of their bytes |
| `Pack.FieldRoundTrip` | src/pack.c:107-219 | a number survives packing and unpacking exactly when it is in the range of its field |
| `Pack.OneNumber` | src/pack.c:258-415 | b B h H i I q Q are one, two, four and eight bytes wide, signed and unsigned: under a format of one of them pack writes the low bytes of the number and unpack reads them as one |
| `Pack.NumberKept` | src/pack.c:258-415 | a number survives such a format exactly when it lies in the range of that C type |
| `Pack.Pack` | src/pack.c:234-324 | writes exactly the fields of the format, in order, from an offset on, touches nothing else, and returns the widths of the numeric fields |
| `Pack.Unpack` | src/pack.c:340-429 | stores exactly the values the format describes, tracking the digits before a string as its length |
| `Pack.RoundTrip` | src/pack.c:234-429 | for every format and every list of arguments whose strings have the announced lengths, unpack after pack returns the arguments exactly when every number is in range, whatever follows in the buffer |
| `Pack.SizeIsLength` | src/pack.c:234-324 | pack returns the number of bytes written exactly when every string written is empty |
| `Protocol.EncodeLength` | src/protocol.c:140-160 | writes exactly the base-128 digits of the length, at most four, and tells their number |
| `Protocol.DecodeLength` | src/protocol.c:170-186 | accumulates the digits up to the first byte without continuation bit, in the source's integer widths |
| `Protocol.LengthMinimal` | src/protocol.c:140-160 | the length field takes the least number of bytes that can hold it |
| `Protocol.LengthRoundTrip` | src/protocol.c:140-186 | decoding gives the length back and stops right behind the field exactly for lengths below 128^4 |
| `Protocol.PrintedString` | src/pack.c:411-425 | unpack recovers a printed length digit by digit and reads that many bytes |
| `Protocol.UnpackPut` | src/protocol.c:189-221 | reads the ttl, the key of the announced length, and the rest of the packet as the value |
| `Protocol.PutRoundTrip` | src/protocol.c:189-221 | packing "iHss" and unpacking it through the printed lengths gives ttl, key and value back exactly when the ttl is a 32-bit number, the key length a 16-bit one and the value length a 32-bit one |
| `Responses.PayloadLength` | src/protocol.c:464-472 | the length computed beforehand is the length of the payload written later |
| `Responses.PackTuples` | src/protocol.c:458-503 | the whole response: header byte, length field, number of tuples, tuples, contiguous and of exactly the computed length; pack_response_join (526-570) has the same code |
| `Responses.PackValue` | src/protocol.c:505-520 | the response for a single key: header byte, length field, and a payload laid out as a PUT request |
| `Responses.MessageRead` | src/protocol.c:458-570 | behind the header byte the length field reads as the payload length and ends where the payload begins exactly when that is below 128^4; the payload yields the number of tuples and, exactly when every ttl and every value length fits its field, the tuples with nothing left over |
| `Responses.TupleStarts` | src/protocol.c:487-500 | a tuple starts with its ttl, the length of its key and its key, as a PUT request does |
| `Responses.ValueRead` | src/protocol.c:505-520 | the response for a single key: behind the header byte and the length field, the ttl, the key and the value are read back exactly when the ttl is a 32-bit number and the value shorter than 2^32 |
| `Responses.AllocationSuffices` | src/protocol.c:476 | the allocation of two bytes more than the payload holds the response exactly for payloads below 128 bytes |
| `Expiry.ExpireKeys` | src/server.c:1339-1386 | whatever order the list is in, a tick removes the entries at positions 0, 2, 4, ... up to the first of these whose deadline has not passed, unbinds their keys from their tries, and changes nothing else |
| `Expiry.RoundsPassed` | src/server.c:1352-1366 | every entry a tick removes has passed its deadline, and the one it stops at has not |
| `Expiry.Ends` | src/server.c:1352-1380 | with the entries in the order of their deadlines, as ttl_handler leaves them, a tick removes exactly those at positions 0, 2, 4, ... among the expired ones |
| `Expiry.DroppedExactly` | src/server.c:1368 | a key leaves a trie exactly when it is the non-empty key of a removed entry of that trie |
| `Expiry.KeptDue` | src/server.c:1352-1380 | a tick keeps the order of the deadlines and leaves half of the expired entries, rounded down |
| `Expiry.Drains` | src/server.c:1352-1380 | k ticks at one time drain m expired entries exactly when m < 2^k |
| `Expiry.Ticks` | src/server.c:1339-1386 | k ticks of the code, one after the other, lead the list and the tries to the state that k halvings describe, and no expired entry is left exactly when there were fewer than 2^k |
| `Expiry.RemovedExactly` | src/server.c:1352-1380 | the expired entries that k ticks leave are those at the multiples of 2^k, counted from 1 |
| `Expiry.LaterBinds` | src/server.c:1352-1380 | after k ticks a key is bound exactly when it was and, unless it is empty, no removed entry stands for it |
| `Expiry.AllExpiredGone` | src/server.c:1352-1380 | with fewer than 2^k expired entries, k ticks unbind exactly the non-empty keys of all of them |
| `Expiry.SortByDeadline` | src/server.c:495-508 | sorting with compare_ttl puts the deadlines in order and permutes the entries |
| `Expiry.TtlHandler` | src/server.c:511-552 | succeeds exactly for a bound key; the item gets the new ttl counted from now, an entry enters the list exactly when the item had no ttl, in a new cell behind the old ones, the list is in the order of the deadlines afterwards, and the list and the trie stay apart |
| `Expiry.ShortIs` | src/db.h:36 | a ttl stored in a short is the one 16-bit number that is the same modulo 2^16, so itself within 16 bits |
| `ExpiryRuns.DoTtl` | src/server.c:511-552 | a TTL command on the list, all the tries and all the items does what the recorded state says and keeps everything a further command or tick needs |
| `ExpiryRuns.DoTick` | src/server.c:1339-1386 | so does an expiry tick |
| `ExpiryRuns.DoPut` | src/db.c:51-58 | so does database_insert, as put_handler calls it: the key gets a new item with the value, the ttl and the time given, and the list stays as it is |
| `ExpiryRuns.DoDel` | src/db.c:80-82 | so does database_remove, as del_handler calls it: the list stays as it is |
| `ExpiryRuns.Run` | src/server.c:209-552 | any sequence of PUT, DEL and TTL commands and ticks runs through a trace of recorded states, each followed by the next |
| `ExpiryBook.StartsExact` | src/server.c:511-552 | with no entries and no ttl the list is sound and complete |
| `ExpiryBook.TtlSound` | src/server.c:519-547 | a TTL command keeps every entry that of a bound key with a ttl, once and in order, exactly unless it sets a negative ttl for a key that has an entry or gets one |
| `ExpiryBook.PutSound` | src/db.c:51-58 | a PUT keeps the list sound exactly when the key has no entry |
| `ExpiryBook.DelSound` | src/db.c:80-82 | so does a DEL |
| `ExpiryBook.TickSound` | src/server.c:1352-1380 | a tick keeps the list sound |
| `ExpiryBook.PutFull` | src/db.c:51-58 | a PUT keeps a sound and complete list complete exactly when it sets no ttl |
| `ExpiryBook.NextExact` | src/server.c:209-552 | every command keeps the list sound and complete exactly unless it leaves an entry behind, sets a negative ttl or puts with a ttl |
| `ExpiryBook.RunSound` | src/server.c:209-552 | in every run from a sound list, the list stays sound exactly as long as no command leaves an entry behind or sets a negative ttl for a listed key |
| `ExpiryBook.RunExact` | src/server.c:209-552 | in every run from a sound and complete list, it stays both exactly as long as, besides, no key is put with a ttl |
| `ExpiryBook.NeverEarly` | src/server.c:1352-1380 | with a sound list a key's item goes only by a PUT or DEL of the key or by a tick after its deadline, and comes only by a PUT |
| `ExpiryBook.RunNeverEarly` | src/server.c:1352-1380 | so over every run that keeps the list sound |
| `ExpiryBook.DrainedExactly` | src/server.c:1352-1380 | with a sound list and fewer than 2^k expired entries, k ticks take away exactly the keys with an entry whose deadline has passed; so an expired key goes exactly when it has an entry |
| `ExpiryBook.DrainedRight` | src/server.c:1352-1380 | if the list is complete too, they leave bound exactly the keys without a ttl and those whose deadline is still to come |
| `ExpiryBook.TtlDeadline` | src/server.c:524-530 | a TTL command with a ttl from 0 to 32767 sets the deadline to that many seconds after the command |
| `ExpiryBook.PutDeadline` | src/db.c:51-58 | so does a PUT |
| `ExpiryBook.LivesFor` | src/server.c:511-552 | with a sound and complete list, after a TTL command enough ticks leave the key bound exactly before the time of the command plus the ttl |
| `ExpiryBook.PutUnlisted` | src/server.c:218-226 | a key without an entry that is put with a ttl has a ttl and still no entry |
| `ExpiryBook.RunUnlisted` | src/server.c:519-543 | such a key stays bound and without an entry over every run that does not put or delete it or set it a negative ttl, however late the ticks |
| `ExpiryBook.PutGoesEarly` | src/server.c:1352-1380 | after a key with an entry is put again, a tick takes the new item away at the old deadline, though it has no ttl |
| `ExpiryBook.DelGoesEarly` | src/server.c:1352-1380 | so after the key is deleted and put again |
| `Handoff.PlacedKept` | src/server.c:1100-1253 | every step moves the one token of one client, or none: delivering an event disarms the descriptor, and only the thread carrying the event arms it again |
| `Handoff.Invariant` | src/server.c:1100-1253 | after every run the tokens are single, the histories of every client balance with its phase, and the database is what the logged sections of handlers and expiry ticks, each at its time, made of it |
| `Handoff.AlwaysOneInFlight` | src/server.c:1100-1180 | in every run every client has at most one request under way, and its descriptor is not armed while it has |
| `Handoff.RepliesInOrder` | src/server.c:1100-1253 | in every run the k-th reply sent to a client is the one its handler computed for the k-th decoded request, every section of a handler took up its request where the section before left off and ran on the database that the sections and ticks before it in the log left, and at most one decoded request is unanswered |
| `Handoff.WholeAtOnce` | src/server.c:1233-1253 | a request whose handler is a single section is answered as if it ran alone at its place in the log |
| `Handoff.NothingStuck` | src/server.c:1100-1253 | in every run every task under way can go on: none finds its client unknown or its reply missing |
| `Handoff.NothingWaitsForever` | src/server.c:1040-1253 | a queued event can be taken, an armed descriptor can become ready or writable or break, a new client can be accepted and the timer can go off |
| `Handoff.Completes` | src/server.c:1100-1253 | after every run a decoded request can be served to its end: the handler's reply is sent, the descriptor is armed for reading again and nothing else changes |
| `Handoff.ServesNext` | src/server.c:1100-1253 | after every run a client whose descriptor is armed for reading can have any request read, served and answered, and is then armed again |
| `Descriptors.Simulates` | src/server.c:1100-1253 | with no stale number, every step by descriptor numbers is the step by connections it stands for |
| `Descriptors.FitKept` | src/server.c:1100-1253 | no number becomes stale while accept hands out only numbers that no thread is going to name for a connection that is gone |
| `Descriptors.Refines` | src/server.c:1100-1253 | every run with such accepts is a run by connections, so that all results about those hold for it |
| `Descriptors.Realised` | src/server.c:1100-1253 | conversely, every run by connections is such a run by descriptor numbers |
| `Descriptors.PromptOneOn` | src/server.c:1100-1180 | in every such run every descriptor has at most one request in flight |
| `Descriptors.PromptNeeded` | src/server.c:1116-1177 | any other accept can be followed by steps that put two requests on its number: a re-arming after a failed send, or the second close of a client that is gone |
| `Descriptors.ReusedTooSoon` | src/server.c:1123-1142 | the server can come to such an accept: a client that is gone and whose descriptor has been closed once, but not yet twice |

## Left out

- bst_delete and the rotations: nothing calls the one, and no insertion reaches the others.
- Freeing memory, in particular after deletions and after a request is done, and the counters of the allocator.
- get_handler, keys_handler, the other command handlers, recv_packet, read_packet, configuration, logging, sockets and
  start-up: system calls and bookkeeping around the modelled parts.
- The mixing of the key hash and of the ring hash: both are arbitrary functions here.
- unpack_triedb_join_res, which never advances its buffer; `Responses.MessageRead` uses a reference decoder instead.
- The tail pointer of the list and the fixed address buffers of a ring node.
- The keyspace counter and the log line of an expiry tick.
- Trie.Trie.NodeDestroy: models only the size it returns; the nodes are dropped by the caller.
- Trie.Trie.PrefixDelete: the empty prefix unbinds every key except the empty one, as in the source.
- PrefixFind.PrefixFind: the result is a sequence instead of a `Vector`; the keys found must fit the 32-byte
  buffer and the prefix must not be empty, as the fixed buffer and the walk, which starts one character back, assume.
- Database.Database.PrefixUpdate: the three walks of db.c share one walk, parameterised by the update; every insertion
  has its own item, as in the server.
- Vector.Vector.Append: reallocation does not fail.
- HashTable.HashTable.Put: keys are compared by STREQ, so the keys in use must be pairwise different under it.
- HashTable.HashTable.Rehash: allocation may fail at any time and always fails beyond a fixed memory, so that nested
  rehashes end.
- Quicksort.SortVector: the comparator is a pure function of the values.
- Expiry.SortByDeadline: compare_ttl is taken at fixed item fields; the current time it reads cancels out.
- Pack.Pack: the returned size is an unbounded number; memory behind the given buffer is not modelled, so the buffer must
  be large enough.
- Pack.Unpack: the bytes the format asks for must be in the buffer.
- Protocol.UnpackPut: the packet must hold the key it announces, as the source assumes.
- Responses.PackTuples: the buffer has 1 + steps + length bytes, where the source allocates length + 2, which is enough
  exactly as `Responses.AllocationSuffices` says; so for `Responses.PackValue`.
- Handoff.RepliesInOrder: every decoded request gets a reply; a QUIT, whose handler closes the client's descriptor, is
  not decoded.  A handler is any number of atomic sections: what it does under the spin lock, and what get_handler does
  between its two locked stretches, where it reads the fields of the item it found; the threads' memory accesses inside
  a section are not interleaved.
- Descriptors.Refines: an error event leaves the descriptor disarmed; the close of the number read from the event's
  pointer at that place is not modelled.  The numbers of the eventfds, which come from the same space and which a second
  close can hit too, are not modelled either.
- ExpiryRuns.Run: commands are atomic and follow one another.  ttl_handler takes no lock, so it could overlap a tick of
  another worker; such overlaps, the prefix commands and the lazy removal of get_handler are not part of the runs.  An
  item that PUT or DEL takes out of its trie is not freed, and a new item is never the memory of an old one.
