# Verified models of the nginx core

The modules here model the parts of the core of nginx 1.13.0 (`src/core`) whose correctness is least
evident from their text, and prove what those parts are for. The build modelled is the one of
`objs/ngx_auto_config.h`: 64-bit pointers, POSIX semaphores, IPv6. `dafny verify dfyconfig.toml` checks
everything.

Code that updates structures in place is a class whose fields are the source's fields. Where nodes
point at each other, the nodes are indices into an arena, one sequence for each link field, and a ghost
view of what the links stand for (an in-order sequence, a division into runs, a map from prefixes) is
kept beside them by every operation. Each loop of the source is a loop. Concurrent code is a state with
one step for each atomic operation, and the theorems are about every state of every run.

- `Rb*.dfy`: the red-black tree. `RbShape` holds the links and rotations, `RbColor` and `RbDelete` the
  balance, `RbSplice` the removal of a node, `RbOrder` the order of the keys, `RbTree` the operations,
  `RbMeaning` traversal and height.
- `Slab*.dfy`: the slab allocator. `SlabRing` has the circular lists, `SlabRuns` the page runs,
  `SlabBits` and `SlabChunks` the bitmaps in their three encodings, `SlabPool` the pool as a whole,
  `SlabBlocks` the blocks as their users see them, `SlabStats` the counters, `SlabAlloc` the operations.
- `Shmtx.dfy`, `ThreadPool*.dfy`: the shared-memory mutex and the thread pool.
- `Radix*.dfy`: the 32-bit radix tree. `Hash*.dfy`: hash tables and the wildcard hash.
- `OpenFile*.dfy`: the open file cache; `OpenFileTree` is its tree of names over `RbTree`.
- `Chain*.dfy`, `OutputChain.dfy`: buffer chains and the output chain.
- `Pool*.dfy`: memory pools and the arrays that grow in them.
- `Conf*.dfy`: the tokenizer of the configuration file. `ConfLexer` has what each character does,
  `ConfReader` the sliding buffer, `ConfText` texts as they are written, `ConfSpan` and `ConfRun` how
  they are read part by part, `ConfLaws` what comes of it.
- `Inet*.dfy`, `Calendar.dfy`, `Http*.dfy`, `Digest*.dfy`, `Base64.dfy`, `Escape*.dfy`: addresses,
  dates, message digests and text encodings.

Where a promise does not hold for all inputs, the code is kept as it is and the exact condition is
stated: the two IPv6 addresses that do not read back (`Inet6Trip`), years beyond 9999
(`HttpTime.RoundTrip`), percent signs under the REFRESH table (`EscapeUri.RefreshTrip`), the unsigned
test for room in a pool block (`PoolAlloc.RoomExactly`), arrays without capacity
(`PoolAlloc.Array.Push`), a cached file replaced by a directory with the same inode number
(`OpenFileCache.Cache.Open`), the deletion of a radix root without children (`RadixTree.Tree.Delete`),
timer keys spread over more than half the range of the counter (`RbOrder.SortableExactly`), and a task
that two threads post (`ThreadPoolRace.OnePosterExactly`). `RbOrder.NoOrder`,
`PoolAlloc.WithoutCapacity`, `PoolAlloc.Misaligned` and `ThreadPoolRace.Race` are runs that fail.

Two comments beside the tables of `ngx_escape_uri` differ from the tables, which are followed here: the
one of ARGS does not name the semicolon, which is escaped, and the one of REFRESH names the percent sign,
which is not (`EscapeSets.EscapesExactly`).

In the thread pool the linked lists are modelled as they are, by the `next` fields of the tasks that
the queue, the list of finished tasks and the event loop share. A task that is linked twice makes them
circular, so that a queue length has a meaning only in runs without such a race; that is why the
results on the queue are about those runs.

## Model

| member | source | states |
|---|---|---|
| RbTree.Tree.constructor | rd/nginx-1.13.0/src/core/ngx_rbtree.h:44-48 | a tree over any arena of nodes begins valid: balanced, sorted by numbers and empty |
| RbTree.Tree.LeftRotate | rd/nginx-1.13.0/src/core/ngx_rbtree.c:323-350 | the links after a left rotation, and the shadow of the tree (which nodes lie under which) follows it |
| RbTree.Tree.RightRotate | rd/nginx-1.13.0/src/core/ngx_rbtree.c:353-380 | the same for the mirror image |
| RbTree.Tree.Insert | rd/nginx-1.13.0/src/core/ngx_rbtree.c:24-153 | whatever the keys, the tree stays red-black and its in-order sequence gains exactly the node, between two neighbours; it is sorted then exactly if it was before and, for timer keys, one half of the range of the counter holds all the keys. Sorted means: the keys rise as numbers, or as distances from some base for timer keys; a sorted tree then has the node behind every node that does not compare greater, and the nodes before it have keys, as numbers, not above its own |
| RbTree.Tree.Delete | rd/nginx-1.13.0/src/core/ngx_rbtree.c:156-320 | whatever the keys, the tree stays red-black, exactly the node leaves the in-order sequence and only its own key is cleared; a sorted tree stays sorted, its keys rising as numbers |
| RbTree.Tree.Min | rd/nginx-1.13.0/src/core/ngx_rbtree.h:75-84 | the first node under a node, in order; from the root, the first of all |
| RbTree.Tree.Next | rd/nginx-1.13.0/src/core/ngx_rbtree.c:383-409 | the successor in the in-order sequence, or none for the last node |
| RbOrder.BeforeByOffset | rd/nginx-1.13.0/src/core/ngx_rbtree.c:121-153 | within half the range of the counter the wrapping comparison of timer keys is the order of their distances from a base |
| RbOrder.SortedRises | rd/nginx-1.13.0/src/core/ngx_rbtree.c:96-153 | a sequence sorted by the comparison of the code is one whose keys rise as numbers, or for timer keys one whose distances from some base rise within half the range; and the other way round |
| RbOrder.SortableExactly | rd/nginx-1.13.0/src/core/ngx_rbtree.c:121-153 | nodes with timer keys have a sorted sequence exactly if half the range of the counter, from some base on, holds their keys |
| RbOrder.SortedInWindow | rd/nginx-1.13.0/src/core/ngx_rbtree.c:121-153 | a sorted sequence lies in the window that begins with its first key |
| RbOrder.InsertedExactly | rd/nginx-1.13.0/src/core/ngx_rbtree.c:96-153 | when a node placed between two neighbours leaves the sequence sorted |
| RbOrder.NoOrder | rd/nginx-1.13.0/src/core/ngx_rbtree.c:121-153 | three keys a third of the range apart are in no window, and no sequence of them is sorted |
| RbOrder.InsertedSorted | rd/nginx-1.13.0/src/core/ngx_rbtree.c:96-153 | the place behind all nodes that do not compare greater keeps the sequence sorted |
| RbOrder.RemovedSorted | rd/nginx-1.13.0/src/core/ngx_rbtree.c:156-320 | a sorted sequence stays sorted without one node |
| RbMeaning.WalkIsOrder | rd/nginx-1.13.0/src/core/ngx_rbtree.c:24-320 | walking by left and right links visits the nodes in the sequence that insert and delete speak of |
| RbMeaning.HeightBound | rd/nginx-1.13.0/src/core/ngx_rbtree.c:24-320 | a valid tree of n nodes is at most 2 log2(n + 1) deep |
| SlabAlloc.Pool.constructor | rd/nginx-1.13.0/src/core/ngx_slab.c:85-162 | page descriptors and page area fit into the zone without overlap; the pool is valid, one free run holds all pages, no block is live |
| SlabAlloc.PagesFit | rd/nginx-1.13.0/src/core/ngx_slab.c:129-157 | the number of pages is the estimate or one less, and the pages lie behind their descriptors and end within the zone |
| SlabAlloc.NoMoreFit | rd/nginx-1.13.0/src/core/ngx_slab.c:129-157 | no larger number of pages would fit behind its descriptors, wherever they began |
| SlabAlloc.Pool.Alloc | rd/nginx-1.13.0/src/core/ngx_slab.c:180-408 | fails exactly if the slot has no page with room and there is no free run long enough; otherwise the live blocks gain exactly one new block, the smallest size that serves the request; all invariants are kept |
| SlabAlloc.Pool.Free | rd/nginx-1.13.0/src/core/ngx_slab.c:451-641 | from the address of a live block alone the page, its kind and the chunk are found; the live blocks lose exactly that block; all invariants are kept |
| SlabAlloc.Pool.ShiftFor | rd/nginx-1.13.0/src/core/ngx_slab.c:205-213 | the slot is the smallest power of two that holds the request, or the smallest of the pool |
| SlabAlloc.PagesFor | rd/nginx-1.13.0/src/core/ngx_slab.c:193-194 | the least number of pages that hold the request |
| SlabAlloc.Pool.AllocChunk | rd/nginx-1.13.0/src/core/ngx_slab.c:216-408 | requests and failures are counted; a chunk comes from the first page on the slot list or else from a fresh page |
| SlabAlloc.Pool.AllocOnPage | rd/nginx-1.13.0/src/core/ngx_slab.c:221-327 | the lowest free chunk of the page is taken; a page that is full now leaves the list, so the "page is busy" alert cannot be reached |
| SlabAlloc.Pool.AllocOnFresh | rd/nginx-1.13.0/src/core/ngx_slab.c:329-398 | the first chunk behind the bitmap of a fresh page |
| SlabAlloc.Pool.FreeOnFull | rd/nginx-1.13.0/src/core/ngx_slab.c:473-606 | a full page that loses a chunk goes back on the list of its slot |
| SlabAlloc.Pool.FreeOnList | rd/nginx-1.13.0/src/core/ngx_slab.c:473-606 | a page left without chunks goes back to the free runs, any other stays on its list |
| SlabAlloc.Pool.AllocPages | rd/nginx-1.13.0/src/core/ngx_slab.c:666-719 | first fit: the first run of the list with enough pages gives its front; NULL exactly if there is none |
| SlabAlloc.Pool.Coalesce | rd/nginx-1.13.0/src/core/ngx_slab.c:722-799 | a freed run joins the free runs behind and before it; the free pages grow by exactly its length and nothing else changes |
| SlabChunks.FindClear | rd/nginx-1.13.0/src/core/ngx_slab.c:235-304 | the lowest clear bit of a map |
| SlabChunks.TakeChunk | rd/nginx-1.13.0/src/core/ngx_slab.c:225-321 | in all three encodings the recorded set gains its lowest missing chunk, and fullness is recognised exactly |
| SlabChunks.DropChunk | rd/nginx-1.13.0/src/core/ngx_slab.c:473-606 | in all three encodings the bit of a live chunk is set and clearing it removes exactly that chunk; emptiness is recognised exactly |
| SlabChunks.FreshPage | rd/nginx-1.13.0/src/core/ngx_slab.c:332-398 | a fresh page records exactly its first chunk, whatever the memory held |
| SlabChunks.FirstLeast | rd/nginx-1.13.0/src/core/ngx_slab.c:340-348 | the chunks that hold the bitmap of a page have a bit for each of its chunks, and one chunk fewer would not |
| SlabRuns.Split | rd/nginx-1.13.0/src/core/ngx_slab.c:674-695 | splitting a run keeps the invariant of the runs: maximal, boundary tags, ring of free runs |
| SlabRuns.TakeWhole | rd/nginx-1.13.0/src/core/ngx_slab.c:687-695 | so does taking a whole run |
| SlabPool.SplitPool | rd/nginx-1.13.0/src/core/ngx_slab.c:666-719 | page operations leave all chunk pages and slot lists as they were, and the free count drops by the pages given |
| SlabBlocks.LiveApart | rd/nginx-1.13.0/src/core/ngx_slab.c:180-408 | no two live blocks overlap |
| SlabBlocks.LivePlaced | rd/nginx-1.13.0/src/core/ngx_slab.c:180-408 | every live block lies in the page area, aligned to its chunk or page size |
| SlabBlocks.OffBitmap | rd/nginx-1.13.0/src/core/ngx_slab.c:332-362 | no live block touches the bitmap at the front of a small-chunk page |
| SlabBlocks.Locate | rd/nginx-1.13.0/src/core/ngx_slab.c:461-475 | the address of a live block leads to its page, its kind and its chunk number |
| SlabBlocks.NothingLive | rd/nginx-1.13.0/src/core/ngx_slab.c:722-799 | once nothing is live, one free run covers all pages |
| SlabStats.RoomCounts | rd/nginx-1.13.0/src/core/ngx_slab.c:340-391 | a page has as many chunks live as it adds to the total of its slot exactly when it is full, and never more |
| SlabStats.UsedWithin | rd/nginx-1.13.0/src/core/ngx_slab.c:244-391 | no slot has more chunks in use than in total |
| SlabStats.StatsChange | rd/nginx-1.13.0/src/core/ngx_slab.c:244-391 | the counters used and total of every slot stay the sums of live chunks and of room over its pages |
| Shmtx.RunInv | rd/nginx-1.13.0/src/core/ngx_shmtx.c:62-196 | in every state of every interleaving the lock word names exactly the holder, wait + semaphore + pending posts equals the number of registered waiters, and a sleeper is never left with the lock free, no token and nobody active |
| Shmtx.MutualExclusion | rd/nginx-1.13.0/src/core/ngx_shmtx.c:62-146 | at most one process holds the lock |
| Shmtx.NeverTrapped | rd/nginx-1.13.0/src/core/ngx_shmtx.c:69-196 | from every reachable state every process inside ngx_shmtx_lock can still come to hold the lock: no wakeup is lost |
| Shmtx.TryLock | rd/nginx-1.13.0/src/core/ngx_shmtx.c:62-66 | a call of ngx_shmtx_trylock takes at most two steps of its process and never makes it a waiter; it returns with the lock exactly if the lock word was 0 at both, and without it otherwise |
| Shmtx.LockHolds | rd/nginx-1.13.0/src/core/ngx_shmtx.c:69-132 | a call of ngx_shmtx_lock that returns, returns with the lock word naming its process |
| Shmtx.UnlockReleases | rd/nginx-1.13.0/src/core/ngx_shmtx.c:135-146 | the unlock of the holder sets the lock word to 0 |
| Shmtx.PostsForWaiter | rd/nginx-1.13.0/src/core/ngx_shmtx.c:160-196 | the semaphore is posted only where a registered waiter has neither a token nor a post on its way |
| Shmtx.OnlySemWaits | rd/nginx-1.13.0/src/core/ngx_shmtx.c:62-196 | a process can always take a step, but for one that waits at a semaphore without a token |
| ThreadPool.RunInv | rd/nginx-1.13.0/src/core/ngx_thread_pool.c:230-394 | with any number of posters and workers, in every interleaving in which no two posters are at once between the test of the same task and its place in the queue: each lock is held by the thread between taking and releasing it, waiting is the queue length less the workers that counted themselves out in advance, the linked lists hold exactly the tasks that are on them, every task is in one place, and while a worker sleeps enough others are awake for the queued tasks |
| ThreadPool.QueueBound | rd/nginx-1.13.0/src/core/ngx_thread_pool.c:230-274 | in such runs the queue never exceeds max_queue plus the number of threads |
| ThreadPool.AtMostOnce | rd/nginx-1.13.0/src/core/ngx_thread_pool.c:230-394 | in such runs completions, runs and posts of a task differ by at most one, in this order, and are equal once it is inactive; tasks are taken in the order of posting |
| ThreadPool.NotAllAsleep | rd/nginx-1.13.0/src/core/ngx_thread_pool.c:277-361 | in such runs, with a task in the queue not all workers sleep |
| ThreadPoolPost.Accepted | rd/nginx-1.13.0/src/core/ngx_thread_pool.c:230-274 | in every run, a call that holds the mutex puts its task, and no other, on the queue and counts it exactly if fewer tasks than max_queue wait at its test; otherwise nothing is posted |
| ThreadPoolRace.DisjointKeeps | rd/nginx-1.13.0/src/core/ngx_thread_pool.c:230-394 | posters that post only tasks of their own are never at once at the same task, so that all of this holds of every run |
| ThreadPoolRace.Race | rd/nginx-1.13.0/src/core/ngx_thread_pool.c:230-274 | two posters of one task both pass the test before they take the mutex: a run with two posts and three completions, as the task leads to itself on the list of finished ones |
| ThreadPoolRace.OnePosterExactly | rd/nginx-1.13.0/src/core/ngx_thread_pool.c:230-394 | with a worker at hand, in all runs every task is run and completed at most once for every post exactly if no task belongs to two posters |
| RadixTree.Tree.constructor | rd/nginx-1.13.0/src/core/ngx_radix_tree.c:15-105 | preallocation, whose key wraps around to 0, makes exactly the paths up to its depth and stores nothing |
| RadixLevels.DefaultLevels | rd/nginx-1.13.0/src/core/ngx_radix_tree.c:62-79 | by default as many levels are made as fit a page |
| RadixTree.Tree.Level | rd/nginx-1.13.0/src/core/ngx_radix_tree.c:81-102 | one level of the preallocation: all prefixes of that length |
| RadixTree.Tree.Find | rd/nginx-1.13.0/src/core/ngx_radix_tree.c:236-263 | the value of the longest stored prefix of the key |
| RadixTree.LongestUnique | rd/nginx-1.13.0/src/core/ngx_radix_tree.c:236-263 | there is only one such value |
| RadixTree.Tree.Insert | rd/nginx-1.13.0/src/core/ngx_radix_tree.c:108-170 | busy exactly if the prefix is stored; otherwise exactly that prefix is added to the stored map |
| RadixTree.Tree.Delete | rd/nginx-1.13.0/src/core/ngx_radix_tree.c:173-233 | the stored map loses exactly the prefix; a leaf goes with exactly the ancestors it leaves without children and value; the result says which case it was, and is the use of a null pointer exactly for a root without children |
| RadixTree.Tree.NewNode | rd/nginx-1.13.0/src/core/ngx_radix_tree.c:463-488 | the node is neither in the tree nor on the free list, and those stay disjoint |
| HashTable.LoweredIs | rd/nginx-1.13.0/src/core/ngx_string.c:21-31 | capital letters become the small ones of the same rank, and no other character changes |
| HashTable.Init | rd/nginx-1.13.0/src/core/ngx_hash.c:251-461 | keys are stored in lower case, and a lookup in the built table gives what a scan of the lowered keys gives, for every name |
| HashWildcard.WildcardInit | rd/nginx-1.13.0/src/core/ngx_hash.c:464-606 | for any dns-sorted, conflict-free list of keys in lower case the nested table answers every name with the best pattern |
| HashWildcard.NextKeys | rd/nginx-1.13.0/src/core/ngx_hash.c:488-573 | the keys that share the first label are found together, and what is handed to the next level is their rest |
| HashWildcard.GroupInit | rd/nginx-1.13.0/src/core/ngx_hash.c:488-595 | what is stored for a label answers for all names that begin with it |
| HashWildcard.HeadBest | rd/nginx-1.13.0/src/core/ngx_hash.c:52-143 | a head lookup gives the value of the pattern with the most labels; a key with a trailing dot matches proper subdomains only, a plain one the name itself as well |
| HashWildcard.TailBest | rd/nginx-1.13.0/src/core/ngx_hash.c:146-207 | the same for tail patterns, labels from the left |
| HashBest.BestUnique | rd/nginx-1.13.0/src/core/ngx_hash.c:464-606 | there is one best value for a name |
| HashBest.GroupBest | rd/nginx-1.13.0/src/core/ngx_hash.c:52-207 | from the best pattern for the remaining labels to the best one for all |
| HashLabels.FromRightIsReverse | rd/nginx-1.13.0/src/core/ngx_hash.c:52-90 | cutting labels off the right end gives the labels in reverse |
| HashLabels.Together | rd/nginx-1.13.0/src/core/ngx_hash.c:545-556 | in a dns-sorted list the keys with a common first label are adjacent |
| OpenFileCache.OpenAndStat | rd/nginx-1.13.0/src/core/ngx_open_file_cache.c:839-945 | what fstat and stat agree on is what is given out; the old descriptor is kept exactly if it was there and the file that stat sees has its inode number; an error is that of the first call that fails, and gives no descriptor |
| OpenFileCache.Cache.constructor | rd/nginx-1.13.0/src/core/ngx_open_file_cache.c:56-85 | an empty cache is valid |
| OpenFileCache.Cache.Open | rd/nginx-1.13.0/src/core/ngx_open_file_cache.c:143-486 | a fresh entry answers from memory and any other request gets what the system calls say; the entry then says the same and is the most recently used, or is gone after a failure; other names stay unless the cache was full; a cleanup is registered exactly for a descriptor handed out. The cache stays valid exactly unless a file kept open is looked at again and has become a directory with the same inode number: its descriptor is then closed and kept, or shared with a new entry while requests use it. The descriptor of an entry that is looked at again stays with it, is closed or goes with the requests that use it, and is left without an owner exactly when stat sees another file and open the same one. A name not found in the cache gets an entry made by this request at this time |
| OpenFileCache.Cache.LookAt | rd/nginx-1.13.0/src/core/ngx_open_file_cache.c:186-350 | which of the three an entry found is: opened again as it was not used enough, fresh, or looked at again; its uses go on to be counted |
| OpenFileCache.Cache.Retest | rd/nginx-1.13.0/src/core/ngx_open_file_cache.c:272-350 | the same for an entry that is looked at again: same file, other file, directory, error |
| OpenFileCache.Cache.Replace | rd/nginx-1.13.0/src/core/ngx_open_file_cache.c:331-350 | a changed file: an unused descriptor is closed and the entry reused, one in use stays with its requests and the name gets a new entry |
| OpenFileCache.Cache.Release | rd/nginx-1.13.0/src/core/ngx_open_file_cache.c:1017-1074 | the descriptor is closed with the last cleanup exactly if the entry has left the tree or was not used often enough; otherwise the entry becomes the most recently used |
| OpenFileCache.Cache.Cleanup | rd/nginx-1.13.0/src/core/ngx_open_file_cache.c:1017-1028 | exactly one cleanup is used up, and the cache stays valid |
| OpenFileCache.Cache.Expire | rd/nginx-1.13.0/src/core/ngx_open_file_cache.c:1094-1142 | a suffix of the queue goes: one by force when asked, and up to two more exactly as long as they are inactive |
| OpenFileState.BetweenCalls | rd/nginx-1.13.0/src/core/ngx_open_file_cache.c:143-486 | what validity means: queue and tree hold the same entries, every descriptor handed out is open while its cleanup is outstanding, no two entries share a descriptor |
| OpenFileTree.Lookup | rd/nginx-1.13.0/src/core/ngx_open_file_cache.c:1186-1223 | the tree ordered by hash and then by name: the node with that hash and name is found if there is one |
| OpenFileTree.Insert | rd/nginx-1.13.0/src/core/ngx_open_file_cache.c:1145-1183 | the tree stays red-black and strictly ordered, and its files gain exactly the new one, among equal hashes too |
| OpenFileTree.Delete | rd/nginx-1.13.0/src/core/ngx_rbtree.c:156-320 | the order is kept, and the files lose exactly that of the node |
| ChainBufs.UpdateSent | rd/nginx-1.13.0/src/core/ngx_buf.c:270-313 | the chain left after a number of bytes stands for exactly the bytes not sent; only positions moved |
| OutputChain.Ctx.constructor | rd/nginx-1.13.0/src/core/ngx_output_chain.c:45-66 | a fresh context holds no bytes |
| OutputChain.Ctx.Send | rd/nginx-1.13.0/src/core/ngx_output_chain.c:45-224 | for any sequence of calls and any answers of the next filter, bytes sent followed by bytes held are the bytes submitted, in order; bytes wait in the context only while all its temporary buffers are in use. The next filter is called until it fails or there is nothing to hand on, and the result is that of its last call, or that input is left. Every buffer handed on, a copy as well, suits the next filter: it only marks something, or lies in memory unless files are sent, lies in memory or may be written to if that is needed, and has a file part only if files are sent |
| OutputChain.Ctx.SendShort | rd/nginx-1.13.0/src/core/ngx_output_chain.c:52-75 | with nothing waiting, an empty chain or a single buffer that suits the next filter, and only these, go on in one call and stay off the busy chain |
| OutputChain.AsIsSuits | rd/nginx-1.13.0/src/core/ngx_output_chain.c:227-273 | a buffer goes on as it is exactly if, with its file part dropped for a filter that does not send files, it suits the next filter |
| OutputChain.CopyMarks | rd/nginx-1.13.0/src/core/ngx_output_chain.c:520-652 | a copy has the flush and last marks of its source exactly if it took the last byte |
| OutputChain.CopySuits | rd/nginx-1.13.0/src/core/ngx_output_chain.c:501-652 | a copy into a buffer of the context suits the next filter |
| OutputChain.Ctx.Feed | rd/nginx-1.13.0/src/core/ngx_output_chain.c:98-193 | bytes move to the output chain without loss, and input is left only if no buffer can be had |
| OutputChain.Ctx.Drive | rd/nginx-1.13.0/src/core/ngx_output_chain.c:88-223 | the main loop ends, and conserves the bytes |
| OutputChain.Ctx.Acquire | rd/nginx-1.13.0/src/core/ngx_output_chain.c:143-171 | a buffer is one that has drained or a new one, of the common size or, for a small last one, of its size; never more than bufs.num are made |
| OutputChain.Ctx.Copy | rd/nginx-1.13.0/src/core/ngx_output_chain.c:501-552 | the copied bytes leave the front of the input and enter the output |
| OutputChain.CopiesBytes | rd/nginx-1.13.0/src/core/ngx_output_chain.c:501-652 | source and copy together stand for the bytes of the source |
| OutputChain.Ctx.UpdateChains | rd/nginx-1.13.0/src/core/ngx_buf.c:183-222 | the drained buffers at the front of the busy chain leave it, those of the context and no others for the free list |
| PoolAlloc.Pool.constructor | rd/nginx-1.13.0/src/core/ngx_palloc.c:18-43 | a new pool has one block and no live region; it is valid if its size is a multiple of the alignment |
| PoolAlloc.Pool.Alloc | rd/nginx-1.13.0/src/core/ngx_palloc.c:122-145 | the region is apart from every live one, in bounds, aligned when asked; nothing live changes; current stays on the block list |
| PoolAlloc.Pool.Small | rd/nginx-1.13.0/src/core/ngx_palloc.c:148-174 | the first block from the current one on that passes the test for room gives the request, and a block is added exactly if none does; the pool stays sound exactly if the request begins within the block, as it always does with aligned ends |
| PoolAlloc.Pool.NewBlock | rd/nginx-1.13.0/src/core/ngx_palloc.c:177-210 | the new block is like the first, and current moves past the blocks that had failed more than four times |
| PoolAlloc.Pool.CountFailures | rd/nginx-1.13.0/src/core/ngx_palloc.c:201-205 | each block passed over fails once more |
| PoolAlloc.Pool.Big | rd/nginx-1.13.0/src/core/ngx_palloc.c:213-249 | a large region gets an entry: one freed before if there is one among the first five, and else a new one |
| PoolAlloc.Pool.Free | rd/nginx-1.13.0/src/core/ngx_palloc.c:277-294 | true exactly if a large region not yet freed has that address, and then exactly that one goes |
| PoolAlloc.AlignedRoom | rd/nginx-1.13.0/src/core/ngx_palloc.c:159-163 | up to an aligned end the unsigned test for room is right |
| PoolAlloc.RoomExactly | rd/nginx-1.13.0/src/core/ngx_palloc.c:159-163 | the test is right wherever the free space begins exactly if the end of the block is aligned |
| PoolAlloc.UnalignedRoom | rd/nginx-1.13.0/src/core/ngx_palloc.c:159-163 | with an end that is not aligned the test lets every size through |
| PoolAlloc.Misaligned | rd/nginx-1.13.0/src/core/ngx_palloc.c:148-174 | a pool of 1028 bytes and three requests, the last of which begins behind the end of the block |
| PoolAlloc.Array.constructor | rd/nginx-1.13.0/src/core/ngx_array.h:32-50 | an array of any capacity in its pool, none included |
| PoolAlloc.Array.Push | rd/nginx-1.13.0/src/core/ngx_array.c:47-91 | the capacity grows only when it is used up, by one in place and otherwise to the double; the contents stay as they were with the new element behind them, in place or moved, and no other live region changes; the element lies within the array exactly if that had capacity or grew in place, and otherwise where the free space of the pool begins |
| PoolAlloc.Array.PushN | rd/nginx-1.13.0/src/core/ngx_array.c:94-141 | the same for n elements, which always lie within the array |
| PoolAlloc.WithoutCapacity | rd/nginx-1.13.0/src/core/ngx_array.c:47-91 | a run that fails: an array without capacity, another request, and an element that the next request gets as well |
| ConfLexer.LimitedIsWhole | rd/nginx-1.13.0/src/core/ngx_conf_file.c:501-810 | short of a parameter over the limit, reading with a limited look-back gives the same token, terminator, position and line as reading the whole text |
| ConfLexer.ShortIsWhole | rd/nginx-1.13.0/src/core/ngx_conf_file.c:548-579 | a token that fits the look-back is that of the whole text |
| ConfReader.ConfFile.Refill | rd/nginx-1.13.0/src/core/ngx_conf_file.c:554-603 | the buffer slides: it keeps the token begun and is filled up behind it |
| ConfReader.ConfFile.ReadToken | rd/nginx-1.13.0/src/core/ngx_conf_file.c:501-810 | reading through a buffer of 4096 characters gives the token of the text with look-back 4096, wherever the refills fall |
| ConfReader.ConfFile.ReadConf | rd/nginx-1.13.0/src/core/ngx_conf_file.c:501-810 | unless a parameter is too long, and always for a token within 4096 characters, words, terminator, position and line are those of tokenizing the whole text at once |
| ConfLaws.Directive | rd/nginx-1.13.0/src/core/ngx_conf_file.c:618-808 | any list of words, each bare or in quotes and with its escapes, with blanks and comments between, read up to a semicolon gives exactly those words, the end of a directive, and the line after the newlines passed; up to an opening brace, unless that is part of a variable, the beginning of a block |
| ConfLaws.NoWords | rd/nginx-1.13.0/src/core/ngx_conf_file.c:666-681 | a semicolon or an opening brace without a word before it is unexpected |
| ConfLaws.BlockEnd | rd/nginx-1.13.0/src/core/ngx_conf_file.c:683-690 | a closing brace that is no part of a bare word ends a block if no word comes before it, and is unexpected otherwise |
| ConfLaws.QuoteEnd | rd/nginx-1.13.0/src/core/ngx_conf_file.c:632-656 | behind a quoted word any character but a blank, a semicolon, an opening brace and a closing parenthesis is unexpected |
| ConfLaws.TextEnd | rd/nginx-1.13.0/src/core/ngx_conf_file.c:532-551 | the end of the text is that of the file if no word comes before it, and unexpected otherwise |
| ConfLaws.CommentEnd | rd/nginx-1.13.0/src/core/ngx_conf_file.c:532-627 | the same for a text that ends in a comment |
| ConfLaws.OpenEnd | rd/nginx-1.13.0/src/core/ngx_conf_file.c:532-551 | the end of the text inside quotes is unexpected |
| ConfLaws.AnyWords | rd/nginx-1.13.0/src/core/ngx_conf_file.c:618-808 | every list of words can be so written, each in double quotes with two of its characters escaped |
| ConfRun.Decoded | rd/nginx-1.13.0/src/core/ngx_conf_file.c:766-797 | the escapes of a word are undone, whatever ends it |
| ConfSpan.WholeLine | rd/nginx-1.13.0/src/core/ngx_conf_file.c:607-614 | the line of a token is the one it begins in and the newlines passed |
| InetText.InetAddr | rd/nginx-1.13.0/src/core/ngx_inet.c:17-57 | the number of the four octets if the text is four parts of digits, perhaps empty, between three dots, each at most 255; the mark of an error for every other text |
| InetText.AddressRead | rd/nginx-1.13.0/src/core/ngx_inet.c:17-57 | what the scan gives for any text, by its parts |
| InetText.DottedScan | rd/nginx-1.13.0/src/core/ngx_inet.c:17-57 | four octets read as their number, 255.255.255.255 as the mark of an error |
| Inet6Parse.Inet6Addr | rd/nginx-1.13.0/src/core/ngx_inet.c:62-175 | the bytes written are those the text stands for, and failure is reported exactly when it stands for none |
| Inet6Parse.Spread | rd/nginx-1.13.0/src/core/ngx_inet.c:156-166 | the bytes behind the double colon move to the end in place, with zeros between |
| Inet6Print.FindZeros | rd/nginx-1.13.0/src/core/ngx_inet.c:300-326 | the first of the longest runs of at least two zero words |
| Inet6Print.Ntop | rd/nginx-1.13.0/src/core/ngx_inet.c:289-363 | the text in the form of section 2.2 of RFC 4291, at most 39 characters, so that it fits the buffer that was asked for |
| Inet6Print.TextForm | rd/nginx-1.13.0/src/core/ngx_inet.c:328-363 | eight words joined by colons, or those before and behind the zeros around a double colon, or a double colon and an IPv4 address, with ffff before it for mapped ones |
| Inet6Print.TextLength | rd/nginx-1.13.0/src/core/ngx_inet.c:296-363 | no text is longer than 39 characters |
| Inet6Trip.RoundTrip | rd/nginx-1.13.0/src/core/ngx_inet.c:62-363 | every address that is printed reads back, but those with a dotted tail of all ones, which are refused |
| Inet6Trip.OnlyTwo | rd/nginx-1.13.0/src/core/ngx_inet.c:113-128 | those are exactly ::255.255.255.255 and ::ffff:255.255.255.255 |
| Calendar.GmtimeIsRight | rd/nginx-1.13.0/src/core/ngx_times.c:299-389 | date, weekday and time of day are those of counting days one by one from January 1, 1970, and make up the time again |
| Calendar.GuessIsClose | rd/nginx-1.13.0/src/core/ngx_times.c:326-344 | the estimate of the year is right or one too large |
| Calendar.NextDayNumber | rd/nginx-1.13.0/src/core/ngx_parse_time.c:235-265 | the formula of the parser counts one more for the next day of the calendar |
| Calendar.DateUnique | rd/nginx-1.13.0/src/core/ngx_parse_time.c:235-265 | a day number belongs to one date |
| Calendar.MonthOf | rd/nginx-1.13.0/src/core/ngx_times.c:346-380 | the month formula inverts the table of days before the months |
| HttpTime.ParseHttpTime | rd/nginx-1.13.0/src/core/ngx_parse_time.c:14-276 | the loops and checks compute the reading of the three formats |
| HttpTime.RoundTrip | rd/nginx-1.13.0/src/core/ngx_times.c:254-269 | parsing the text that is printed for a time gives the time back exactly up to the year 9999, and an error after it |
| HttpTime.AcceptedDates | rd/nginx-1.13.0/src/core/ngx_parse_time.c:222-233 | the numbers accepted are the dates of the calendar and those with day 0 |
| HttpTime.ReadTime | rd/nginx-1.13.0/src/core/ngx_parse_time.c:235-265 | a date of the calendar is read as its day count and its time of day |
| HttpShape.ReadsExactly | rd/nginx-1.13.0/src/core/ngx_parse_time.c:14-276 | exactly the texts of three shapes are read, "06 Nov 1994 08:49:37", "06-Nov-94 08:49:37" and "Nov  6 08:49:37 1994" behind a first word, each as the time that its digits and its month stand for |
| HttpForms.Trip850 | rd/nginx-1.13.0/src/core/ngx_parse_time.c:14-276 | a text of the format of RFC 850 is read as its date and time, for the years 1970 to 2069 |
| HttpForms.TripIsoc | rd/nginx-1.13.0/src/core/ngx_parse_time.c:14-276 | a text of the format of asctime is read as its date and time |
| Digest.Context.constructor | rd/nginx-1.13.0/src/core/ngx_md5.c:18-27 | an empty message |
| Digest.Context.Update | rd/nginx-1.13.0/src/core/ngx_md5.c:30-58 | however a message is cut, the words are those of its whole blocks and the buffer holds the rest; the same code serves SHA-1 |
| Digest.Context.Final | rd/nginx-1.13.0/src/core/ngx_md5.c:61-91 | the words are those of the message padded as in sections 3.1 and 3.2 of RFC 1321; for SHA-1 (big-endian length) as in section 5.1.1 of FIPS 180-4 |
| Digest.FoldAppend | rd/nginx-1.13.0/src/core/ngx_sha1.c:32-93 | blocks may be processed in one go or one after the other |
| Digest.Md5Digest | rd/nginx-1.13.0/src/core/ngx_md5.c:18-91 | however a message is cut into updates, the result is that of the whole padded message, from the initial words of MD5 |
| Digest.Sha1Digest | rd/nginx-1.13.0/src/core/ngx_sha1.c:19-93 | the same for SHA-1, with the length in big-endian order |
| Digest.Padding | rd/nginx-1.13.0/src/core/ngx_sha1.c:63-93 | the padded message is whole blocks |
| DigestLength.LengthIsNumber | rd/nginx-1.13.0/src/core/ngx_md5.c:75-83 | the eight bytes of the length make up the number, the lowest first for MD5 and the highest first for SHA-1 |
| Base64.Encode | rd/nginx-1.13.0/src/core/ngx_string.c:1141-1182 | the loop writes the symbols of the string, padded in the standard alphabet only |
| Base64.Decode | rd/nginx-1.13.0/src/core/ngx_string.c:1239-1282 | the loops compute the bytes the symbols before any padding stand for, and refuse what the format refuses |
| Base64.RoundTrip | rd/nginx-1.13.0/src/core/ngx_string.c:1141-1282 | decoding undoes encoding for every string, in both alphabets |
| Base64.EncodedLength | rd/nginx-1.13.0/src/core/ngx_string.c:1141-1182 | with padding the text is whole groups of four, one for every three bytes begun; for URLs it is as many symbols as six bits go into the bits |
| Base64.Alphabet | rd/nginx-1.13.0/src/core/ngx_string.c:1115-1138 | the symbols of section 4 of RFC 4648, and the other two of its section 5 for URLs |
| Base64.ValueSymbol | rd/nginx-1.13.0/src/core/ngx_string.c:1185-1236 | a byte has a value only if it is the symbol of that value |
| Base64.GroupOf | rd/nginx-1.13.0/src/core/ngx_string.c:1145-1155 | three bytes are four groups of six bits, the highest first |
| EscapeSets.EscapesExactly | rd/nginx-1.13.0/src/core/ngx_string.c:1431-1554 | each table escapes exactly the bytes it names: control characters, those from DEL on and its punctuation, or all but the unreserved ones |
| EscapeSets.BackInMode | rd/nginx-1.13.0/src/core/ngx_string.c:1593-1720 | in every mode an escaped text without a question mark is taken whole; each byte comes back, but for a redirect the escapes of bytes up to "%" and from DEL on stay |
| EscapeSets.UpToQuestion | rd/nginx-1.13.0/src/core/ngx_string.c:1593-1720 | for a URI or a redirect a text is taken up to its first question mark, escaped or not, and the rest is left as it is |
| EscapeSets.ShownSame | rd/nginx-1.13.0/src/core/ngx_string.c:1593-1720 | unless for a redirect, all the bytes come back |
| EscapeUri.CountPredicts | rd/nginx-1.13.0/src/core/ngx_string.c:1557-1590 | the counting pass predicts the written length exactly |
| EscapeUri.CountUri | rd/nginx-1.13.0/src/core/ngx_string.c:1559-1574 | the counting loop counts the bytes to be escaped |
| EscapeUri.Uri | rd/nginx-1.13.0/src/core/ngx_string.c:1576-1590 | the writing loop writes the escaped text |
| EscapeUri.UnescapeUri | rd/nginx-1.13.0/src/core/ngx_string.c:1593-1720 | the loop computes the decoded text and where it stops, for all three modes |
| EscapeUri.PercentEscaped | rd/nginx-1.13.0/src/core/ngx_string.c:1424-1557 | every table but that of REFRESH escapes the percent sign |
| EscapeUri.RoundTrip | rd/nginx-1.13.0/src/core/ngx_string.c:1424-1720 | unescaping undoes escaping for every string and every other table |
| EscapeUri.RefreshTrip | rd/nginx-1.13.0/src/core/ngx_string.c:1424-1720 | with REFRESH it does so exactly for the strings without a percent sign |

## Left out

- The JavaScript controller (`index.js`, `src/`): process discovery, templates, file writes and signals.
- System calls, sockets, logging, the event loop, the resolver, regular expressions, the configuration cycle.
- `ngx_crc32`, `ngx_queue_sort`, `ngx_list`, `ngx_rwlock`, `ngx_spinlock`, the crypt schemes and the murmur hash: they would only add easy members.
- Memory exhaustion: allocation succeeds, except in the slab allocator, where running out is part of the contract.
- Slab allocator: junk fill, log text and calls with pointers that are not live. The page size is 4096; the smallest chunk is any power of two from 8 to 2048.
- Shared-memory mutex: the variant with file locks, `ngx_shmtx_force_unlock`, process death and semaphore errors. Spinning is a step that may be repeated.
- Thread pool: pthread errors and shutdown. The event loop completes tasks; when it posts them it counts as one of the posters.
- Radix tree: the 128-bit variants. Fresh nodes extend the arena; how `ngx_radix_alloc` carves them out of pages is not modelled.
- Hash tables: the search for the number of buckets, which is a parameter, and the layout of buckets in memory; `ngx_hash_find_combined` and `ngx_hash_add_key`.
- HashWildcard.WildcardInit: requires sorted keys in lower case without conflicts and empty labels, as ngx_hash_add_key prepares them, and values that are multiples of 4, as the two flag bits in the pointers need.
- Open file cache: the branch without a cache, vnode events, symlink checks, the shutdown cleanup. In `OpenFileCache` the tree is a map from names; `OpenFileTree` proves lookup, insertion and removal of the real tree apart from it. Names have no zero bytes.
- OpenFileCache.Cache.Open: requires fewer than 2^24 - 1 outstanding cleanups, the range of the counter.
- Output chain: aio, threads, directio, sendfile limits and alignment of file buffers. A file is a fixed sequence of bytes. The marks that a recycled buffer keeps from its last use are those of the code.
- Pools: `ngx_reset_pool`, cleanup handlers, `ngx_pmemalign`. A pool holds at least its own header.
- Configuration: directive dispatch, includes and the slot setters.
- Calendar.GmtimeIsRight: the year is unbounded; the narrowing of the result fields to int is not modelled.
- Digest.Context.Final: the rounds of a block are a parameter; clearing the context and writing the words out as bytes are not modelled.
- Digest.Context.Update: the code of MD5 and of SHA-1 is one class, parameterised by initial words, block step and the order of the length bytes.
