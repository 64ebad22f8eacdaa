# nginx core primitives: models and proofs

This project models the shared-memory and data-structure primitives of nginx 1.12.0
(`nginx-1.12.0/src/core`) and proves what they keep over every run and every input. Locks are
transition systems with one program counter per process. Everything the C code updates in place
(page records, tree nodes, cache entries, buffers, digest contexts) is a class with fields that its
methods reassign, specified by pure functions and invariants. `dafny verify dfyconfig.toml` checks
all of it.

| part | files |
|---|---|
| Mutex and read/write lock | `Shmtx`, `RwLock`, `Counting` |
| Slab allocator | `SlabRuns` (runs of pages), `SlabLists` (linked lists), `SlabState` (what holds between calls), `SlabPages`, `SlabRelease`, `SlabChunks` (the three bitmaps), `SlabSlots`, `SlabSteps`, `SlabBlocks` (allocated blocks), `SlabStats`, `SlabInit`, `Slab` (the allocator) |
| Red-black tree | `RbMem` (memory as a map), `RbShape` (trees and the context of a subtree), `RbBalance`, `RbOrder`, `RbFixup`, `RbHeight`, `RbTree` (the nodes and their links) |
| Open file cache | `FileState`, `FileMoves`, `OpenFileCache`, `FileTree` (its red-black tree) |
| Radix tree | `RadixTrie`, `RadixTree` |
| Static hash | `HashLayout`, `Hash` |
| Output chain | `Buffers`, `OutputState`, `OutputChain` |
| SHA-1 and MD5 | `DigestSpec`, `Digest` |
| CRC-32 | `CrcTables`, `CrcSteps`, `Crc32` |
| Dates | `Calendar`, `Times`, `HttpTime` |
| Words and bits | `Words`, `Bits`, `Arith` |

## Model

| member | source | states |
|---|---|---|
| `Shmtx.Safety` | nginx-1.12.0/src/core/ngx_shmtx.c:62-196 | After any schedule of any number of processes at most one holds the lock; the signed wait count, the semaphore and the posts in flight add up to the processes between `wait++` and their `wait--` or wakeup; the semaphore never exceeds the number of processes; and if the lock is free while a process sleeps, the semaphore is positive, a post is pending, an unlocker is still in wakeup, or another process is awake before its second test |
| `Shmtx.NeverStranded` | nginx-1.12.0/src/core/ngx_shmtx.c:69-196 | From every reachable state, every process that is acquiring, asleep or at its `wait--` can still get the lock: a schedule is constructed that leads there |
| `Shmtx.TryTakesFree` | nginx-1.12.0/src/core/ngx_shmtx.c:62-66 | A process that tries a free lock and runs alone holds it after a test and a compare-and-set, with its pid in the lock word and nothing else changed |
| `Shmtx.TryEnds` | nginx-1.12.0/src/core/ngx_shmtx.c:62-66 | In any interleaving a try ends without the lock exactly at a test or compare-and-set that finds it taken, and with it exactly at a compare-and-set that finds it free |
| `Shmtx.LockSleeps` | nginx-1.12.0/src/core/ngx_shmtx.c:69-133 | A process that finds the lock taken at every test, of which there is one for every doubling of the spin counter, counts itself as waiting and sleeps |
| `Shmtx.UnlockWakes` | nginx-1.12.0/src/core/ngx_shmtx.c:136-196 | Who unlocks frees the lock, and posts the semaphore exactly if somebody is counted as waiting, whom it takes off the count |
| `RwLock.Safety` | nginx-1.12.0/src/core/ngx_rwlock.c:19-109 | After any schedule the word is the writer mark exactly when one writer and no reader is in, and the number of readers otherwise; a writer excludes every other process |
| `RwLock.UnlockDropsOneHold` | nginx-1.12.0/src/core/ngx_rwlock.c:89-109 | The step that ends an unlock drops the hold of that process and no other, though the mark is tested and the word decremented in separate steps |
| `RwLock.NeverStranded` | nginx-1.12.0/src/core/ngx_rwlock.c:19-109 | From every reachable state every process that waits, to read or to write, can still get the lock: a schedule is constructed that leads there |
| `RwLock.ReaderJoins` | nginx-1.12.0/src/core/ngx_rwlock.c:51-86 | A reader gets in while any number of others read, and the word goes up by one |
| `RwLock.WriterAlone` | nginx-1.12.0/src/core/ngx_rwlock.c:19-48 | A writer gets in if nobody is in, and waits otherwise |
| `Slab.Pool.constructor` | nginx-1.12.0/src/core/ngx_slab.c:85-163 | In numbers, from the address of the slots and the end of the pool: 56 bytes for every size class, then as many records of 24 bytes as fit with their pages of 4096, then the pages from the next multiple of 4096 on, of which at most one is lost; one free run of all pages and no block allocated |
| `Slab.Pool.AllocPages` | nginx-1.12.0/src/core/ngx_slab.c:666-719 | Pages are cut from the start of a free run that is long enough and the page records stay the encoding of disjoint, coalesced runs; it fails only when no free run is long enough and then no `k` neighbouring pages are all free, and nothing changes |
| `Slab.Pool.ReleasePages` | nginx-1.12.0/src/core/ngx_slab.c:722-799 | The run becomes free, joined with its free neighbours on both sides: no two free runs are ever adjacent; `pfree` grows by its pages |
| `Slab.Pool.TakeAndGiveBack` | nginx-1.12.0/src/core/ngx_slab.c:666-799 | Allocating pages and giving them back restores all runs, free and busy |
| `Slab.Pool.Alloc` | nginx-1.12.0/src/core/ngx_slab.c:180-408 | The set of allocated blocks gains exactly the block returned, of the granted size; it fails only when there is no free page and no open page of the class (or, for whole pages, no free run that is long enough); requests and failures are counted for the class and no other, and `used` and `total` stay what the bitmaps say |
| `Slab.GrantedEnough` | nginx-1.12.0/src/core/ngx_slab.c:188-214 | What is granted is at least what was asked for, and less than twice as much, or the smallest chunk, or less than a page more |
| `Slab.Pool.Free` | nginx-1.12.0/src/core/ngx_slab.c:451-663 | For every pointer: it is accepted exactly if it is the address of an allocated block or of a chunk that holds the bitmap of its page. In the first case exactly that block is gone and everything else holds as before; in the second the mark of the bitmap chunk is cleared and the state is no longer valid. `Outside` exactly for a pointer out of the pool and `NoRecord` exactly for one behind the page of the last record; every other pointer is refused for the reason that holds of its page, and changes nothing |
| `Slab.Pool.HeaderMarked` | nginx-1.12.0/src/core/ngx_slab.c:461-507 | Every page of small chunks has such an address: its bitmap chunks are marked though no block is there |
| `Slab.Pool.NoRecordExact` | nginx-1.12.0/src/core/ngx_slab.c:461-469 | A pointer behind the page of the last record exists if and only if no page was lost to the alignment |
| `SlabBlocks.LiveDisjoint` | nginx-1.12.0/src/core/ngx_slab.c:180-408 | In every valid state two allocated blocks, chunks or whole pages, never overlap |
| `SlabBlocks.LiveAligned` | nginx-1.12.0/src/core/ngx_slab.c:180-408 | Allocated blocks lie in the pool and are aligned to their size, or to the page |
| `SlabBlocks.ClearOfBitmap` | nginx-1.12.0/src/core/ngx_slab.c:331-366 | No allocated block overlaps the bitmap kept in a page of small chunks |
| `SlabStats.UsedWithinTotal` | nginx-1.12.0/src/core/ngx_slab.c:180-408 | The chunks in use never outnumber the chunks there are |
| `SlabChunks.FullTest` | nginx-1.12.0/src/core/ngx_slab.c:236-345 | The tests of the three encodings for a full page hold exactly if all chunks are out |
| `SlabChunks.EmptyTest` | nginx-1.12.0/src/core/ngx_slab.c:493-603 | The tests of the three encodings for an empty page hold exactly if no chunk is out |
| `RbTree.Tree.Insert` | nginx-1.12.0/src/core/ngx_rbtree.c:24-153 | The in-order sequence gains exactly the node, behind all nodes with a rank no greater and before all with a greater one; links, colours, black heights and the black root hold again, by value or by wrapped timer key |
| `RbTree.Tree.Delete` | nginx-1.12.0/src/core/ngx_rbtree.c:156-320 | The in-order sequence loses exactly the node, which is cleared; all invariants hold again, also where the sentinel is spliced in and where the parent of the root is stale |
| `RbTree.Tree.LeftRotate` | nginx-1.12.0/src/core/ngx_rbtree.c:323-350 | The links of the five nodes around a left rotation, and the root, change as a rotation says; all else is unchanged |
| `RbTree.Tree.RightRotate` | nginx-1.12.0/src/core/ngx_rbtree.c:353-380 | The same for a right rotation |
| `RbTree.Tree.Walk` | nginx-1.12.0/src/core/ngx_rbtree.c:383-409 | From the minimum on, the successor function visits every node once, in order, and ends with NULL |
| `RbTree.Tree.Shallow` | nginx-1.12.0/src/core/ngx_rbtree.c:24-320 | 2 to the height is at most (n + 1) squared, n the number of nodes of the tree |
| `RbTree.Tree.FindTimer` | nginx-1.12.0/src/event/ngx_event_timer.c:32-50 | With deadlines less than half the key range from now, the wait is the time to the earliest of all deadlines, 0 if that is past, across wrap-around; and infinite for no timers |
| `RbOrder.GoesLeftIsLess` | nginx-1.12.0/src/core/ngx_rbtree.c:96-153 | The comparison of keys, by value or by signed wrapped difference, is the order of the ranks they stand for |
| `OpenFileCache.Cache.Open` | nginx-1.12.0/src/core/ngx_open_file_cache.c:143-486 | For every answer of the system and every outcome of memory allocation, in the fields of the file (`Serves`): the system is asked exactly if nothing is known, another number is wanted, or the time since the file was looked at is not below the limit; without asking the caller gets what is known, otherwise what was answered, which is recorded with the time unless it is a failure that is not to be or there is no room. A holder is registered exactly if a descriptor is handed out. All invariants hold afterwards if and only if, where a known descriptor had to be looked at again, the answer did not carry its number for something else |
| `OpenFileCache.Cache.Retest` | nginx-1.12.0/src/core/ngx_open_file_cache.c:206-350 | Looking again at a file leads to the state `Outcome`, on every path, with or without memory, and the invariants hold there if and only if the answer is steady |
| `OpenFileCache.Cache.Cleanup` | nginx-1.12.0/src/core/ngx_open_file_cache.c:1017-1074 | Exactly that holder is gone, no name is added, and all invariants hold; the descriptor stays open exactly if others hold the file, or it is in the cache and was used often enough, and the file is then the one used last |
| `OpenFileCache.Cache.Expire` | nginx-1.12.0/src/core/ngx_open_file_cache.c:1094-1142 | Only files at the end of the queue go: the last by force if asked, and up to two more exactly as long as the last was not used for longer than the limit; all other files are unchanged |
| `OpenFileCache.Cache.Safe` | nginx-1.12.0/src/core/ngx_open_file_cache.c:143-486 | Between calls every file counts its holders; a held descriptor is open and is that of its file; every open descriptor belongs to exactly one file; errors and directories have no holders; a file out of the queue is held |
| `OpenFileCache.Cache.Indexed` | nginx-1.12.0/src/core/ngx_open_file_cache.c:143-486 | Between calls tree and queue hold the same files, each once under its own name, at most `max`, in the order of last use |
| `OpenFileCache.SteadyExact` | nginx-1.12.0/src/core/ngx_open_file_cache.c:270-350 | The files are in order in `Outcome` if and only if the answer does not carry the number of the open file for something else, or no descriptor was known |
| `OpenFileCache.LostDescriptor` | nginx-1.12.0/src/core/ngx_open_file_cache.c:303-316 | Where the system opens the very file that is open, the old descriptor stays open and belongs to no file, and its holders hold one that is not the file's |
| `OpenFileCache.StaleDescriptor` | nginx-1.12.0/src/core/ngx_open_file_cache.c:294-350 | Where a directory has taken over the number of an open file, it is recorded with a descriptor that is closed, or that others hold |
| `OpenFileCache.ClosedDescriptor` | nginx-1.12.0/src/core/ngx_open_file_cache.c:339-372 | ... and where there is no memory for it, the descriptor is closed that others hold |
| `FileTree.Lookup` | nginx-1.12.0/src/core/ngx_open_file_cache.c:1186-1222 | In a tree ordered by hash and then by name, the file with that hash and name is found exactly if there is one |
| `FileTree.Insert` | nginx-1.12.0/src/core/ngx_open_file_cache.c:1145-1183 | A file with a new name is inserted and the tree stays ordered by hash and then by name, so lookup agrees with insertion |
| `RadixTree.Tree.Find` | nginx-1.12.0/src/core/ngx_radix_tree.c:236-263 | The value of the longest network with a value that the key is in, where addresses are in the same network of `k` bits if they agree divided by 2^(32-k), or none |
| `RadixTree.LongestMeans` | nginx-1.12.0/src/core/ngx_radix_tree.c:236-263 | That result is a stored value that no longer stored prefix of the key overrides, and it is none exactly if no prefix of the key is stored |
| `RadixTree.PrefixIsNet` | nginx-1.12.0/src/core/ngx_radix_tree.c:236-263 | Two keys have the same first `k` bits, as the trees are walked, exactly if they are equal divided by 2^(32-k) |
| `RadixTree.LeadIs` | nginx-1.12.0/src/core/ngx_radix_tree.c:117-128 | A mask covers `k` bits exactly if it is at least 2^32 - 2^(32-k), and that mask covers exactly `k` (`MaskLead`) |
| `RadixTree.Tree.Insert` | nginx-1.12.0/src/core/ngx_radix_tree.c:108-170 | Busy exactly on a prefix that is stored, changing nothing; on success the value is stored for the network of the key, and what is stored for every other network of any length is as before; without memory the bindings are as before |
| `RadixTree.Tree.Delete` | nginx-1.12.0/src/core/ngx_radix_tree.c:173-233 | For every mask: on success the network of the key has no value, and what is stored for every other network is as before; only nodes without value and children are gone; an error exactly if nothing is stored there and it is no leaf; `NOPARENT` exactly for an empty mask and a root without children; nothing changes but on success; a tree without idle leaves stays so |
| `RadixTree.Tree.Allocate` | nginx-1.12.0/src/core/ngx_radix_tree.c:463-488 | A node that is no node of the tree: recycled nodes never alias live ones |
| `Hash.Table.Init` | nginx-1.12.0/src/core/ngx_hash.c:251-461 | An error exactly if a name does not fit, a division by zero exactly for no names and a bucket size from 8 to 23, and otherwise success; the size is the smallest good one from the first size on, or the largest if none is good; all elements lie one behind the other in disjoint buckets that end with a null pointer |
| `Hash.Table.Find` | nginx-1.12.0/src/core/ngx_hash.c:12-49 | The value of the first key of the bucket with that name, or null, by scanning the memory that was laid out |
| `Hash.Table.FindAnyCase` | nginx-1.12.0/src/core/ngx_hash.c:639-654 | With distinct names and hashes of the lower-case names, a name in any case gives the value of its key, and null exactly if it is no key |
| `HashLayout.HashIs` | nginx-1.12.0/src/core/ngx_hash.c:609-654 | The hash is the value of the characters as digits to the base 31, modulo 2^64 |
| `Hash.Table.FirstSizeIs` | nginx-1.12.0/src/core/ngx_hash.c:280-285 | The first size is the number of buckets that elements of 16 bytes fill, at least one, or the largest size less 1000 |
| `Hash.RoomGiven` | nginx-1.12.0/src/core/ngx_hash.c:331-357 | The room of a bucket counted in an unsigned short is enough if and only if its bytes, in whole cache lines, are below 65536 |
| `OutputChain.Output.Send` | nginx-1.12.0/src/core/ngx_output_chain.c:45-224 | For every filter, every outcome of reading files and every return code, and so over any sequence of calls: what was due and what came in, bytes and special buffers in their order, is what was handed to the filter, then what was lost, then what is pending; nothing is lost if and only if the first and the last make up all, and something is lost only with `NGX_ERROR` after a failed read; all invariants hold again. A code is one of the filter's, `NGX_AGAIN` with something pending and no buffer left, or `NGX_ERROR` after a failed read; `NGX_OK` means that nothing is pending; at most `bufs.num` buffers are made; and the loops end |
| `OutputChain.Output.Collect` | nginx-1.12.0/src/core/ngx_output_chain.c:87-190 | Pending buffers are passed on, copied or, if they are empty and not special, dropped, without losing a byte or a special buffer; all that is collected fits what the filter can take; it stops early only when no buffer is free and something was collected or all buffers are made; what is left shrinks whenever something is collected; after a failed read what was collected, and nothing else, is lost, and nothing if no buffer was free or at hand at the start |
| `OutputChain.Output.AsIs` | nginx-1.12.0/src/core/ngx_output_chain.c:227-277 | A buffer is passed on exactly if the filter can take it, at once or, if it is in memory, without its file |
| `OutputState.LostFirst` | nginx-1.12.0/src/core/ngx_output_chain.c:87-183 | Whatever is passed on as it is before a buffer that cannot be read is lost, in every state with a free buffer; `LossStart` is such a state |
| `OutputChain.Output.GetBuffer` | nginx-1.12.0/src/core/ngx_output_chain.c:146-172 | A buffer to copy into is our own, empty and in no other chain: it is reused only once it was consumed; there is none only if none is free and something was collected or all are made |
| `OutputChain.Output.CopyBuffer` | nginx-1.12.0/src/core/ngx_output_chain.c:501-652 | The bytes copied move from the front of what is pending to the end of what is collected, and the flags of a buffer go with its last byte |
| `OutputChain.StaleFlags` | nginx-1.12.0/src/core/ngx_output_chain.c:545-549 | Part of a buffer copied into a buffer that is used again goes out with the flags of what that one held last, and so without flags if and only if that had none |
| `OutputChain.Output.UpdateChains` | nginx-1.12.0/src/core/ngx_buf.c:183-222 | Of the busy buffers and those just handed over, exactly those at the front that are consumed leave; ours go to the front of the free ones, last first, and the others are forgotten |
| `Buffers.UpdateSent` | nginx-1.12.0/src/core/ngx_buf.c:270-313 | Exactly the first `sent` bytes of the chain are gone, or all if there are fewer, and only buffers of the chain change; what is returned is the rest of the chain, and what is before it is empty |
| `Digests.Context.Update` | nginx-1.12.0/src/core/ngx_sha1.c:32-60 | Buffer, byte count and chaining value depend only on the concatenation of all data given so far, however it was split |
| `Digests.Context.Final` | nginx-1.12.0/src/core/ngx_sha1.c:63-117 | The result is the fold of the compression function over the padded message (section 5.1.1 of FIPS 180-4; sections 3.1 and 3.2 of RFC 1321, ngx_md5.c:61-111) |
| `Digests.Context.Body` | nginx-1.12.0/src/core/ngx_md5.c:169-283 | The block loop folds the compression function over the blocks in order |
| `DigestSpec.LengthRead` | nginx-1.12.0/src/core/ngx_md5.c:61-111 | The eight length bytes read back as the length in bits, little-endian for MD5 and big-endian for SHA-1 |
| `DigestSpec.WordRead` | nginx-1.12.0/src/core/ngx_sha1.c:95-116 | The four bytes of a word of the digest read back as the word, big-endian for SHA-1 and little-endian for MD5 |
| `DigestSpec.DigestWord` | nginx-1.12.0/src/core/ngx_md5.c:93-108 | The words of the chaining value follow one another in the digest |
| `DigestSpec.InitialBytes` | nginx-1.12.0/src/core/ngx_md5.c:18-27 | The chaining value starts with the bytes of section 3.3 of RFC 1321, and with one word more for SHA-1 |
| `Crc32.Short` | nginx-1.12.0/src/core/ngx_crc32.h:20-35 | The nibble table gives the bit-serial remainder by the reflected polynomial (section 8 of RFC 1952) |
| `Crc32.Long` | nginx-1.12.0/src/core/ngx_crc32.h:38-51 | The byte table gives the same |
| `Crc32.InPieces` | nginx-1.12.0/src/core/ngx_crc32.h:54-73 | Updates over any split of the input give the same |
| `CrcSteps.Table256Is` | nginx-1.12.0/src/core/ngx_crc32.c:35-99 | Every entry of the byte table is the remainder of its index |
| `CrcSteps.Table16Is` | nginx-1.12.0/src/core/ngx_crc32.c:26-31 | Every entry of the nibble table is the remainder of its index |
| `Times.GaussCounts` | nginx-1.12.0/src/core/ngx_parse_time.c:232-265 | The closed formula is the number of days of the recursively defined calendar from 1970 on, for every valid date |
| `Times.GaussYearZero` | nginx-1.12.0/src/core/ngx_parse_time.c:236-265 | In January and February of year 0 the computed time is 10368 seconds too late, for every day and time of day |
| `Times.NextDayLater` | nginx-1.12.0/src/core/ngx_parse_time.c:232-265 | The next day of the calendar is 86400 seconds later |
| `Times.GmTimeExact` | nginx-1.12.0/src/core/ngx_times.c:299-389 | Month and day are those of the day of that number in the calendar, the year is if and only if it is below 2^31, the time of day adds up, and the weekday is right |
| `Times.GaussInvertsGmTime` | nginx-1.12.0/src/core/ngx_times.c:299-389 | The formula of the parser gives back the time that was broken down |
| `Times.GmTimeInvertsGauss` | nginx-1.12.0/src/core/ngx_times.c:299-389 | Breaking down the time of a date gives back the date, from 1970 on |
| `HttpTime.Parse` | nginx-1.12.0/src/core/ngx_parse_time.c:14-275 | The scan with its cursor recognizes the three formats and never reads outside the value |
| `HttpTime.AcceptedFields` | nginx-1.12.0/src/core/ngx_parse_time.c:222-233 | Fields are accepted exactly if they are a time of day and a day not after the end of the month |
| `HttpTime.AcceptedTime` | nginx-1.12.0/src/core/ngx_parse_time.c:222-265 | Accepted fields give the seconds from 1970 by the calendar, where day 0 is the day before the first, but for January and February of year 0, which are 10368 seconds late |
| `HttpTime.ParsedTime` | nginx-1.12.0/src/core/ngx_parse_time.c:14-275 | The same for every text: what is read is a time of day and a day not after the end of the month, in one of the three formats |
| `HttpTime.WrittenIsRead` | nginx-1.12.0/src/core/ngx_times.c:254-269 | Every time that is written is read back as the same time if and only if its year is at most 9999; after that the text is refused, or taken for a date in the four-digit year that the year wrapped around to |
| `HttpTime.Rfc850Read` | nginx-1.12.0/src/core/ngx_parse_time.c:54-160 | Every text with a day of the week, a comma, a date as 10-Dec-02 and a time is read as that date, in the years 1970 to 2069, and time |
| `HttpTime.AscRead` | nginx-1.12.0/src/core/ngx_parse_time.c:54-220 | Every text as Tue Dec 10 23:50:13 2002, with a space before a day of one digit, is read as that date and time |
| `HttpTime.WeekExample` | nginx-1.12.0/src/core/ngx_times.c:254-269 | The example of section 7.1.1.1 of RFC 7231 and the six days after it are written as they should be |

## Findings

Where the code does not do what one expects of it, the condition is proved:

- `ngx_slab_free_locked` accepts a pointer to a chunk that holds the bitmap of its page and clears
  its mark (`Slab.Pool.Free`, `Slab.Pool.HeaderMarked`). A pointer in the pool behind the page of
  the last record is taken for one into a page, and memory behind the records for its record
  (`NoRecord`); there is such a pointer exactly if no page was lost to the alignment
  (`Slab.Pool.NoRecordExact`).
- `ngx_open_cached_file` loses, reuses or closes a descriptor that is in use when the number of an
  open file is reported for something else (`OpenFileCache.LostDescriptor`,
  `OpenFileCache.StaleDescriptor`, `OpenFileCache.ClosedDescriptor`), and only then
  (`OpenFileCache.Cache.Open`).
- `ngx_radix32tree_delete` follows a null pointer exactly for an empty mask and a root without
  children (`NOPARENT` in `RadixTree.Tree.Delete`). It also reports success for a leaf without a
  value, which only an insertion of the value `NGX_RADIX_NO_VALUE` or one that ran out of memory
  leaves behind.
- `ngx_hash_init` counts bytes in unsigned shorts. This is right if a bucket in whole cache lines
  and one element more than a bucket may have are below 65536 bytes, and, only where no size is
  good, the buckets of the largest size are too (`Hash.Table.Init`, `Hash.RoomGiven`). It divides
  by zero exactly for no names and a bucket size from 8 to 23.
- `ngx_parse_http_time` accepts day 0, as the day before the first (`HttpTime.AcceptedFields`), and
  gives a time 10368 seconds late exactly in January and February of year 0
  (`HttpTime.AcceptedTime`, `Times.GaussYearZero`). The dates after the year 9999 that
  `ngx_http_time` writes are not read back, and from year 2^31 on the text may be that of another
  year (`HttpTime.WrittenIsRead`).
- After a read that failed, `ngx_output_chain` has dropped the buffers it had collected in that
  round; after an error of the filter nothing is lost (`OutputChain.Output.Send`,
  `OutputState.LostFirst`). A buffer that is used again for part of another one goes out with the
  flags of what it held before (`OutputChain.StaleFlags`).

## Left out

- Shmtx: the file-lock variant, forced unlock of dead processes, semaphore errors, and fairness.
- Slab: pages of 4096 bytes and 64-bit words only; pools without room for one page; what becomes of a pointer for which there is no record; filling freed memory with junk, logging.
- RbTree: insertion functions of other modules (they differ in how ties are broken).
- OpenFileCache: vnode events, symbolic links and `openat`, the sizes and dates of files, the case without a cache; the reference count is unbounded where the source keeps 24 bits; the tree is a map by name, for which `FileTree` gives the reason.
- OpenFileCache.Cache.Open: takes the answers of the system as a parameter and requires only that new descriptors are not in use and that a known number is reported only where a descriptor is known, see `Possible`.
- RadixTree: the 128-bit functions and preallocation.
- Hash: wildcard hashes and the arrays of keys; allocation failure.
- OutputChain: alignment for direct I/O, asynchronous and threaded reads, the sendfile limit, which is not compiled in, allocation failure.
- Digests: the rounds of the compression functions, which are a parameter.
- Crc32: the copy of the nibble table aligned to a cache line.
- HttpTime: local time, and the log and cookie formats.
- Text forms of IPv4 and IPv6 addresses, URL parsing, the resolver, configuration, connections and everything outside `src/core` but the timer search: not part of this model.
