# SHFS in Dafny

A model of the SHFS storage stack (`minios/shfs`) and of the memory pool and ring it is built
on, with proofs of what its parts promise. `dafny verify dfyconfig.toml` checks all of it.

The code updates structures in place, and so does the model: classes with the source's fields
and loops. Each such class is proved against a specification, a function from state to state,
and the properties of whole runs are proved about the specifications.

| part | specification and properties | in place |
|---|---|---|
| chunk cache | `CacheSpec`, `CacheInv`, `CacheRuns`, `CacheMeans`, `CacheOrder`, `CacheWindow` | `ShfsCache`, `DList`, `CacheLists` |
| reading files | `CacheWarm`, `ReadCauses`, `FileRead` | `FileRead` |
| asynchronous I/O | `Aio` | `Aio` |
| striping, sizes | `Striping`, `Requests`, `VolumeSize` | `Striping`, `KernelIo` |
| volume allocator | `AllocSpec` | `AllocList` |
| hash table | `HashWords`, `TableSpec` | `HTable` |
| table on disk | `TableImage`, `Remount` | `Remount` |
| administration | `AdminSpec`, `AdminRuns`, `AdminSafety`, `AdminFiles`, `AdminMount` | `AdminTool` |
| open files and remount | `OpenFile` | `OpenFile` |
| pool and ring | `Mempool`, `PoolLayout` | `Ring`, `Mempool`, `PoolLayout` |

Main results:

- In every reachable state of the cache, an idle valid entry holds the chunk that is on the disk;
  every waiter is served or aborted exactly once, with the chunk it asked for and the outcome of
  its request; references, waiters, lists and counts agree; a flush ends and brings every
  unreferenced buffer back.
- A buffer is reused only if the pool is empty, and then, of the idle ones, the one that has been
  available and unused for longest.
- Reading a file through the cache gives exactly its bytes, leaks no reference on any exit, fails
  only for a cause in some chunk of the range, and ends if devices and token pool do not refuse
  for ever and some buffer is not referenced. On a volume of less than 2^64 bytes a successful
  read lies in the file.
- A token's callback is called once, after its last stripe, with an error exactly if a stripe
  failed, precisely if never before the end all requests issued so far are done. A synchronous
  transfer that returns 0 moved the chunks asked for.
- Both stripe modes are flat arrays of chunks; the kernel's requests, completed in any order, and
  the tools' transfer agree on every byte.
- First fit is exact wherever no gap is covered by an earlier entry, and only there. From a
  formatted volume on, no two files have bytes in the same chunk in any sessions of the tools
  that tear no file and leave no link.
- The hash table refines a set; writing back the modified chunks and mounting again gives the
  same map; a remount equals a fresh mount; an open file's meta data does not change, and that
  of an entry whose update is finished is the new one.
- The pool's objects do not overlap, are aligned, and are never lost.

## How things are modelled

- An operation of the cache is one step, as the comment at `minios/shfs/shfs.c:861-866` claims.
  The devices and the token pool answer as they like: `dev` and `tokenOk` are parameters, and
  results of requests are arbitrary; where it matters, `World` says what they may do, or their
  answers are parameters. Callbacks do not call back into the cache.
- The disk is the specification of the cache: a function from addresses to chunks. It does not
  change while it is mounted.
- Integers are unbounded where the source relies on no overflow. Where a machine word matters it
  is written out: masks and alignments, the ring's indices, the bounds check of a read, the gap
  computed by first fit, the bucket number, signed lengths compared as unsigned ones.
- `Good`, `Inv`, `Valid` are the invariants; lemmas named `...Keeps`, `...Inv`, `...Good`
  preserve them; lemmas named `Run...` and `Reachable...` carry them over whole runs.

## What the proofs found

- Releasing the last reference to an entry whose read failed unlinks it from the list of
  available entries, where it is not (`minios/shfs/shfs_cache.c:655-656`, `704-705`). The unlink
  macro (`minios/shfs/dlist.h:88-101`) then resets the head: the available entries stay cached,
  but are no longer in the list in which idle entries are looked for, evicted and flushed
  (`CacheInv.DropFailedForgets`). All other steps are safe; this one is safe exactly if nothing
  is available (`CacheRuns.StepKeeps`). A fresh cache reaches the unsafe step in two steps
  (`CacheRuns.UnsafeReached`). The theorems about runs are about every run in which such a
  release takes the entry out of its collision list only, which is what it is meant to do
  (`CacheRuns.MeantKeeps`); a run of the code is such a run exactly if all its steps are safe
  (`CacheRuns.CodeRunKeeps`). The methods follow the code in both cases.
- A synchronous read retries for ever if the chunk is not cached and every buffer is referenced
  (`FileRead.StuckAgain`, `FileRead.StuckStays`); that is the only case if devices and token pool
  do not refuse for ever (`FileRead.ReadChunk`).
- The bounds test of a file read adds offset and length as 64-bit words
  (`minios/shfs/shfs_fio.c:304-305`, `410-411`): it admits a range that reaches behind the file if
  its end wraps around, and is right exactly if that does not happen or the request is refused
  anyway (`FileRead.AdmitsExact`, `FileRead.TestRight`, `FileRead.TestWraps`).
- Reading ahead behind a range can drive out the last chunk of the range before it is read, so a
  read of chunks that are all in the cache can need the devices, and fail. That happens exactly
  if the chunk behind the range is absent, the pool is empty, and no idle entry other than those
  of the range is ahead of that of the last chunk (`CacheWarm.LastRead`, `CacheWarm.ReadyStep`).
- Combining more than two members, mkfs leaves one chunk unused for every further member
  (`minios/shfs/shfs-tools/shfs_mkfs.c:397`, `VolumeSize.MkfsExact`).
- The mount check (`minios/shfs/shfs.c:318`) accepts members that are too small for independent
  stripes on two or more members, for every volume size (`VolumeSize.MountCheckExact`); volumes
  laid out by mkfs are not affected (`VolumeSize.MkfsFits`).
- `_htable_bkt_no` keeps eight bytes of a digest in a 32-bit variable
  (`minios/shfs/htable.h:138`), so four bytes select the bucket, not eight as its comment says.
- The callback of a token can be called twice if a completion comes in during the setup
  (`Aio.FiredTwice`); a token for no chunk never calls it.
- `shfs_io_chunk` retries on EBUSY, but running out of tokens or request objects is reported as
  EAGAIN (`minios/shfs/shfs.h:283`, `minios/shfs/shfs.c:929-937`), which ends it
  (`Aio.Volume.IoChunk`).
- A remount trips the assertion at `minios/shfs/shfs_btable.h:146` if the entries do not fill the
  last chunk of the table (`Remount.Mount.Reload`).
- Removing the default entry keeps it as the default; the next entry added to its slot inherits
  the role, and loses it when the volume is mounted again (`AdminSafety.DefaultLost`).
- If the contents of a new file cannot be copied, its container is given back but its entry stays
  in the table (`minios/shfs/shfs-tools/shfs_admin.c:925-977`, `AdminFiles.StepBooked`), and the
  next file of the same size takes the same chunks (`AdminSafety.TornOverlaps`).
- Mounting registers the attributes of links as if they were containers
  (`minios/shfs/shfs-tools/shfs_admin.c:629-638`, `AdminFiles.LoadedList`), so with links the list
  of areas is wrong after the next mount (`AdminMount.RemountBooked`).
- First fit is wrong for some length exactly if a gap between neighbours is covered by an earlier
  entry (`AllocSpec.SearchExact`): the size of the gap then wraps around
  (`AllocSpec.OverlapBreaks`). Other overlaps do no harm (`AllocSpec.OverlapHarmless`).
- Prepending or appending a negative length is always refused, although the check means to allow
  it: the comparison is unsigned (`minios/mempool.h:273`, `286`).

## Model

| member | source | states |
|---|---|---|
| CacheInv.FindExact | minios/shfs/shfs_cache.c:262-275 | the search in one collision list finds an entry exactly if some entry holds the chunk, and then that one |
| CacheInv.TakeInv | minios/shfs/shfs_cache.c:394-420 | taking a buffer from the pool or evicting the first idle available entry leaves it in no list and everything else as it was |
| CacheInv.StartInv | minios/shfs/shfs_cache.c:422-438 | a taken buffer whose request was set up joins the collision list of its chunk and the available list |
| CacheInv.RefuseInv | minios/shfs/shfs_cache.c:422-430 | a taken buffer whose request was refused goes back to the pool |
| CacheInv.ObtainInv | minios/shfs/shfs_cache.c:389-439 | a miss or a hit yields an entry for the chunk, if any, and disturbs no entry that is held |
| CacheInv.ReadAheadInv | minios/shfs/shfs_cache.c:442-471 | read-ahead keeps the structure, whichever requests the devices accept |
| CacheInv.RefInv | minios/shfs/shfs_cache.c:510-515 | the first reference takes the entry off the available list and counts it |
| CacheInv.AnswerInv | minios/shfs/shfs_cache.c:526-573 | the answer (hit, new token, or no token left) makes waiters and references agree again |
| CacheInv.EblankInv | minios/shfs/shfs_cache.c:582-634 | a blank buffer is private to its caller and in no list |
| CacheInv.DropFailedForgets | minios/shfs/shfs_cache.c:650-657 | destroying a failed entry while others are available empties the available list: those entries stay cached and unreferenced, outside the pool and outside the list in which idle entries are looked for, evicted and flushed |
| CacheInv.ReleaseInv | minios/shfs/shfs_cache.c:640-662 | a release keeps the structure if and only if it is not the last reference to a failed entry, or nothing is available |
| CacheInv.AbortInv | minios/shfs/shfs_cache.c:669-711 | the same for a release that aborts a wait |
| CacheInv.ReleaseMeantInv | minios/shfs/shfs_cache.c:640-662 | a release that takes a failed entry out of its collision list only always keeps the structure; the code does that exactly if nothing is available or no failed entry is destroyed |
| CacheInv.AbortMeantInv | minios/shfs/shfs_cache.c:669-711 | the same for a release that aborts a wait |
| CacheInv.CompleteInv | minios/shfs/shfs_cache.c:337-387 | a completion, good or bad, with or without waiters, keeps the structure |
| CacheInv.FlushHeadInv | minios/shfs/shfs_cache.c:301-320 | flushing the first available entry, after waiting for it, keeps the structure and leaves other users alone |
| CacheRuns.AreadKeeps | minios/shfs/shfs_cache.c:474-580 | a request for a chunk keeps all invariants; a hit is an idle entry of that chunk, otherwise the one new token waits for it |
| CacheRuns.AreadExact | minios/shfs/shfs_cache.c:474-580 | a request is answered at once exactly if the chunk is there and idle; it fails exactly if no buffer can be had, the devices refuse, or a token is needed and none is left, each with its error number; otherwise the caller gets a new token |
| CacheRuns.StepTokens | minios/shfs/shfs_cache.c:370-386 | no step, not even the unsafe one, loses a token, serves it twice, or tells it a wrong chunk |
| CacheRuns.StepKeeps | minios/shfs/shfs_cache.c:640-711 | every step keeps structure, coherence, counts and tokens if and only if it is not the release of a failed entry with others available |
| CacheRuns.MeantKeeps | minios/shfs/shfs_cache.c:640-711 | with releases as they are meant every step keeps all invariants; the code takes the step as meant if and only if it is safe |
| CacheRuns.RunKeeps | minios/shfs/shfs_cache.c:296-711 | the invariant holds in every state of every run of all steps, with releases as they are meant |
| CacheRuns.CodeRunKeeps | minios/shfs/shfs_cache.c:296-711 | a run of the code is a run as meant, and all its states are consistent, if and only if every step of it is safe |
| CacheRuns.UnsafeReached | minios/shfs/shfs_cache.c:650-657 | a fresh cache reaches the unsafe step with one request that reads ahead and the failure of its device request |
| CacheRuns.ReachableCoherent | minios/shfs/shfs_cache.c:337-439 | in every reachable state an idle valid entry on a collision list holds the chunk on the disk, lies in the list of its hash, and is the only entry for its chunk |
| CacheRuns.ReachableChains | minios/shfs/shfs_cache.c:343-344 | in every reachable state there are as many waiters as references while a request is in flight and none afterwards; an entry is available exactly if it is not referenced; so the assertions of the completion handler cannot fire |
| CacheRuns.ReachableCounts | minios/shfs/shfs_cache.c:277-293 | in every reachable state the counters of entries and referenced entries are right and no list has an entry twice |
| CacheRuns.ReachableOnce | minios/shfs/shfs_cache.c:370-386 | every token handed out either waits in exactly one chain or has been served or aborted exactly once, and a success was told with the chunk asked for |
| CacheRuns.FlushedPoolFull | minios/shfs/shfs_cache.c:328-335 | after a flush all buffers are in the pool exactly if no reference is held |
| CacheMeans.CompletionMeans | minios/shfs/shfs_cache.c:337-387 | a request that succeeds leaves its entry idle, valid and with the chunk of the disk, and every waiter is told success, in order; one that fails leaves a referenced entry idle and invalid and tells every waiter so, and an unreferenced one goes back to the pool; nothing else changes |
| CacheMeans.RunEvents | minios/shfs/shfs_cache.c:370-386 | in every run, a waiter was told success or failure by the completion of its own request, which ended so, and gave up only by its own release |
| CacheMeans.ReleaseMeans | minios/shfs/shfs_cache.c:640-662 | a release takes one reference; after the last one a chunk that is there or in flight stays and becomes the last one available, a failed or blank buffer goes back to the pool |
| CacheMeans.AbortMeans | minios/shfs/shfs_cache.c:669-711 | a release that aborts a wait takes just its token out of the chain, records that, and then does the same |
| CacheMeans.WaiterQueues | minios/shfs/shfs_cache.c:537-560 | a caller that has to wait becomes the last one in the chain |
| CacheMeans.BlankMeans | minios/shfs/shfs_cache.c:582-634 | a blank buffer is referenced once and in no list; there is none exactly if no buffer is free or idle |
| CacheMeans.FlushMeans | minios/shfs/shfs_cache.c:301-320 | a round of the flush gives back the buffer of the first available entry and leaves the others alone |
| CacheMeans.HashIs | minios/shfs/shfs_cache.c:196 | the collision list is chosen by the last bits of the address |
| CacheOrder.TakeMeans | minios/shfs/shfs_cache.c:394-420 | a buffer comes from the pool; only if that is empty, the first idle one of the available entries is reused |
| CacheOrder.StepQueue | minios/shfs/shfs_cache.c:389-711 | every step queues at the end what has become available or was asked for, and keeps the order of the other available entries |
| CacheOrder.OldestFirst | minios/shfs/shfs_cache.c:398-404 | in every run, the buffer that is reused has not become available after an idle one that was unused since |
| CacheWindow.RequestBrings | minios/shfs/shfs_cache.c:442-471 | a request brings in its chunk and the chunks read ahead behind it, and no others |
| CacheWindow.RequestCovers | minios/shfs/shfs_cache.c:442-471 | with enough free buffers and willing devices it brings in all of them that lie on the volume, and drives out none |
| CacheWarm.WarmPassed | minios/shfs/shfs_cache.c:526-534 | a request for a chunk that is there is answered at once, whatever devices and token pool do |
| CacheWarm.LastRead | minios/shfs/shfs_cache.c:398-404 | reading a chunk drives out the next one exactly if the chunk after that is absent and on the volume, the pool is empty, and the entry of the next one is the first idle one left |
| CacheWarm.ReadyStep | minios/shfs/shfs_cache.c:389-471 | reading a range of chunks that are there finds the last one exactly if no such thing happens at the last but one, which can be told before the first is read |
| ShfsCache.Cache.FindEntry | minios/shfs/shfs_cache.c:262-275 | the loop over a collision list computes the specified search |
| ShfsCache.Cache.FindIdle | minios/shfs/shfs_cache.c:401-404 | the loop over the available list finds its first idle entry |
| ShfsCache.Cache.AddEntry | minios/shfs/shfs_cache.c:389-439 | in place, a miss takes or evicts a buffer, requests the chunk and links the entry as specified, with the error number specified |
| ShfsCache.Cache.ReadAheadFrom | minios/shfs/shfs_cache.c:442-471 | the read-ahead loop computes the specified state |
| ShfsCache.Cache.Read | minios/shfs/shfs_cache.c:474-580 | in place, a request for a chunk gives the specified state and answer |
| ShfsCache.Cache.Blank | minios/shfs/shfs_cache.c:582-634 | in place, a blank buffer is taken as specified |
| ShfsCache.Cache.Drop | minios/shfs/shfs_cache.c:640-662 | in place, a release gives the state that the code leaves, which is consistent exactly if the step is safe |
| ShfsCache.Cache.DropAbort | minios/shfs/shfs_cache.c:669-711 | the same for a release that aborts a wait |
| ShfsCache.Cache.Callback | minios/shfs/shfs_cache.c:337-387 | in place, a completion gives the specified state and notifies the waiters in order |
| ShfsCache.Cache.Notify | minios/shfs/shfs_cache.c:370-386 | the waiters are called back in the order of the chain |
| ShfsCache.Cache.Await | minios/shfs/shfs_cache.c:302-315 | the wait with a raised reference count: the completions of other requests are ordinary steps, and the raised count is not visible afterwards |
| ShfsCache.Cache.FlushFirst | minios/shfs/shfs_cache.c:301-320 | one round of the flush is a run of ordinary completions and one flush step |
| ShfsCache.Cache.Flush | minios/shfs/shfs_cache.c:296-326 | the flush ends, is a run of ordinary steps, empties the available list, and fills the pool exactly if nothing is referenced |
| DList.Head.Append | minios/shfs/dlist.h:113-123 | appends to the linked list |
| DList.Head.Prepend | minios/shfs/dlist.h:131-141 | prepends to the linked list |
| DList.Head.Unlink | minios/shfs/dlist.h:88-101 | takes an element out of the linked list; an element that is linked nowhere resets the whole list instead |
| DList.Head.RelinkTail | minios/shfs/dlist.h:125-129 | moves an element to the end |
| CacheLists.RemoveAt | minios/shfs/dlist.h:88-101 | taking out the place of a buffer in a list is removing the buffer, as the specification of the cache has it |
| CacheLists.Append | minios/shfs/shfs_cache.c:397 | appending the element of a buffer gives the list that the specification of the cache has |
| CacheLists.Unlink | minios/shfs/shfs_cache.c:286-292 | unlinking the element of a buffer gives the list that the specification has, also if the element is linked nowhere |
| CacheLists.RelinkTail | minios/shfs/shfs_cache.c:415 | moving the element of a buffer to the end gives the list that the specification has |
| FileRead.AreadBalance | minios/shfs/shfs_cache.c:510-573 | a request takes one reference for its chunk exactly if it does not fail |
| FileRead.ReleaseBalance | minios/shfs/shfs_cache.c:640-662 | a release gives back exactly one reference |
| FileRead.AwaitToken | minios/shfs/shfs.h:244-249 | waiting for a token ends, with the outcome that its entry shows |
| FileRead.StuckAgain | minios/shfs/shfs_cache.h:215-228 | if every buffer is referenced and the chunk is not cached, every attempt fails with EAGAIN and changes nothing, whatever devices and token pool answer |
| FileRead.StuckStays | minios/shfs/shfs_cache.h:215-228 | and no completion helps |
| FileRead.AgainFlies | minios/shfs/shfs_cache.h:215-228 | with tokens left, an attempt fails with EAGAIN only for a chunk that is not cached, and then a request is in flight that can be waited for, or every buffer is referenced |
| FileRead.TryRead | minios/shfs/shfs_cache.h:215-249 | an attempt fails for good only with a cause: the volume is not mounted, the chunk is not on it, a device refused it with that error, its request failed or had failed before; a chunk that is there is found |
| FileRead.AdmitsExact | minios/shfs/shfs_fio.c:303-306 | the bounds test admits exactly the ranges inside the file and those that begin at a byte of the file or its end and whose 64-bit end wraps around |
| FileRead.TestRight | minios/shfs/shfs_fio.c:303-306 | the test is right if and only if the end does not wrap around, or the request is refused for another reason |
| FileRead.TestWraps | minios/shfs/shfs_fio.c:303-306 | an instance that is admitted although it reaches far behind the file |
| FileRead.ReadChunk | minios/shfs/shfs_cache.h:215-249 | a synchronous read yields an entry with exactly the chunk on the disk and one reference more, or fails with no reference held; it fails only with a cause; with willing devices the retries end by themselves, if and only if the chunk is cached or some buffer is not referenced |
| FileRead.ReadPiece | minios/shfs/shfs_fio.c:420-436 | one round of the copy loop reads exactly the bytes asked for and holds no reference afterwards; it fails only with a cause, and its retries end under the same condition |
| FileRead.CacheReadFile | minios/shfs/shfs_fio.c:393-442 | on success the buffer is the slice of the container followed by what was there; a link, an offset behind the file, or a range that ends behind the file without wrapping around is refused and nothing happens; on a volume of less than 2^64 bytes, success means that the range lies in the file; on every exit all reference counts are as before; an admitted read fails only if some chunk of the range has a cause for it, so it succeeds if devices and token pool are willing, some buffer is not referenced and no chunk has one, and also if all chunks are in the cache and none is driven out |
| FileRead.ReadFile | minios/shfs/shfs_fio.c:287-338 | the read without the cache leaves the same slice and refuses the same requests; it succeeds exactly if the range is admitted, there is memory, and no transfer of a chunk of the range fails, and otherwise ends with the first error |
| Ring.Ring.Count | minios/ring.h:99 | the masked difference of the indices is the number of objects |
| Ring.Ring.Avail | minios/ring.h:101 | and the masked complement is the room that is left, one less than the size when empty |
| Ring.Ring.Full | minios/ring.h:96 | true exactly if size - 1 objects are in the ring |
| Ring.Ring.Empty | minios/ring.h:97 | true exactly if the ring has no objects |
| Ring.Ring.Enqueue | minios/ring.h:107-124 | appends to the queue unless it is full |
| Ring.Ring.Dequeue | minios/ring.h:173-191 | takes the oldest object |
| Ring.Ring.EnqueueMultiple | minios/ring.h:129-151 | appends all objects in order or none |
| Ring.Ring.DequeueMultiple | minios/ring.h:196-218 | takes that many of the oldest objects in order or none |
| Bits.Log2 | minios/mempool.c:56-65 | the loop counts to the highest bit; for 0 the 32-bit result wraps around |
| Mempool.RingFits | minios/mempool.c:163 | the ring that is allocated has a power of two of slots and holds all objects, at most twice as many |
| Mempool.Conserved | minios/mempool.h:178-247 | free and picked objects together are always all objects, without duplicates |
| Mempool.Mempool.Pick | minios/mempool.h:178-190 | hands out the object that was put back first, which nobody holds |
| Mempool.Mempool.Put | minios/mempool.h:221-227 | puts a picked object back; the ring always has room |
| Mempool.Mempool.PickMultiple | minios/mempool.h:195-209 | hands out that many free objects or none |
| Mempool.Mempool.PutMultiple | minios/mempool.h:233-247 | puts all of them back |
| Mempool.Mempool.AllBack | minios/mempool.c:281-284 | the condition checked before freeing holds exactly if nothing is picked |
| Bits.AlignUpNext | minios/mempool.c:68-71 | masking rounds up to the next multiple of a power of two |
| PoolLayout.SizesFit | minios/mempool.c:105-119 | the computed sizes have room for every part of an object, and the rooms asked for are not diminished |
| PoolLayout.SizesAligned | minios/mempool.c:105-151 | the computed sizes are multiples of the alignments |
| PoolLayout.ObjectSafe | minios/mempool.c:121-198 | the structure, the private area and the data of an object lie inside the allocations, apart from each other and from the pool header, in both placements |
| PoolLayout.ObjectsApart | minios/mempool.c:185-198 | no parts of two objects overlap |
| PoolLayout.DataAligned | minios/mempool.h:165-172 | the data of a reset object is aligned as asked for |
| PoolLayout.InitObjects | minios/mempool.c:185-200 | the stepping loop places every object where the layout says |
| PoolLayout.Obj.Reset | minios/mempool.h:165-172 | a reset object has its rooms and its length as laid out |
| PoolLayout.Obj.Prepend | minios/mempool.h:271-279 | succeeds exactly for lengths from 0 to the head room; keeps the total room and the distance of data and base |
| PoolLayout.Obj.Append | minios/mempool.h:284-292 | the same at the other end |
| PoolLayout.DataInside | minios/mempool.h:252-292 | the data never leaves its buffer |
| Aio.LastErrorExact | minios/shfs/shfs.c:880-885 | the result a token keeps is an error exactly if some request failed |
| Aio.LastErrorIs | minios/shfs/shfs.c:880-885 | it is the result of the failed request that was completed last |
| Aio.FiredOnce | minios/shfs/shfs.c:880-892 | when all requests are done, the callback was called exactly once, with the last error, if and only if never before all requests issued so far were done |
| Aio.CompletedOnce | minios/shfs/shfs.c:944-966 | with no completion during the setup, the callback is called once, after the last of at least one request, and can read an error exactly if one failed |
| Aio.FiredTwice | minios/shfs/shfs.c:944-964 | with a completion during the setup the callback can be called twice |
| Aio.AioToken.Complete | minios/shfs/shfs.c:880-892 | in place, a completion updates the token as specified |
| Aio.AioToken.Wait | minios/shfs/shfs.h:244-249 | polling ends with every request completed, with the results that the devices gave; without a callback nothing is called |
| Aio.Volume.AioChunk | minios/shfs/shfs.c:894-972 | a token with all requests in flight, or the error number of the refusal and every token back in the pool; a setup that fails half way drains its requests and calls nobody |
| Aio.Volume.IoChunk | minios/shfs/shfs.h:277-292 | the synchronous transfer is tried again exactly while a device is busy; it ends with EAGAIN and no transfer exactly if tokens or request objects run out or a device says so; otherwise it returns the last error of its requests, 0 if and only if all succeeded; it keeps no token |
| Striping.StripesApart | minios/shfs/shfs-tools/tools_common.c:138-148 | stripes with a byte in common are the same stripe |
| Striping.ChunksApart | minios/shfs/shfs-tools/tools_common.c:138-148 | different chunks have no byte in common, in both stripe modes and for any number of members |
| Striping.HeadersSafe | minios/shfs/shfs-tools/tools_common.c:136-148 | no transfer of chunks from 1 on touches the first stripe of a member |
| Striping.WrittenChunk | minios/shfs/shfs-tools/tools_common.c:146-173 | a chunk that is written holds its part of the buffer |
| Striping.OtherChunk | minios/shfs/shfs-tools/tools_common.c:146-173 | all other chunks are unchanged |
| Striping.ReadBack | minios/shfs/shfs-tools/tools_common.c:160-170 | reading what was written gives the buffer back |
| Striping.FilledChunk | minios/shfs/shfs-tools/tools_common.c:166-172 | a buffer that was read holds the chunks in order |
| Striping.ChunkByChunk | minios/shfs/shfs-tools/tools_common.c:138-173 | one chunk more is one transfer of that chunk after the others |
| Striping.OneByOne | minios/shfs/shfs-tools/tools_common.c:138-173 | writing the chunks of a buffer one transfer at a time passes through exactly the contents that ever longer transfers give |
| Striping.SyncIoChunk | minios/shfs/shfs-tools/tools_common.c:127-176 | it succeeds exactly if no transfer of a stripe fails; the chunks and the buffer are then as a complete transfer leaves them, and the rest of the buffer is untouched; otherwise exactly the stripes before the one that failed were transferred |
| Requests.AnyOrder | minios/shfs/shfs.c:944-966 | requests that do not touch what another changes have the same effect in every order of completion |
| Requests.PlanTransfers | minios/shfs/shfs.c:944-966 | performing the requests of a transfer, in any order, is a complete transfer: a write is the written chunks, a read fills the buffer |
| Requests.MovedOnce | minios/shfs/shfs-tools/tools_common.c:127-176 | a complete transfer determines every byte of members and buffer |
| Requests.KernelMeetsTools | minios/shfs/shfs.c:944-966 | a completed transfer of the tools and the requests of the kernel, completed in any order, leave the same bytes everywhere |
| KernelIo.StripeOfSectors | minios/shfs/shfs.c:305 | a stripe is a whole number of sectors |
| KernelIo.AioRequests | minios/shfs/shfs.c:913-965 | the requests that the kernel sets up in sectors perform a complete transfer of the chunks in every order of completion |
| KernelIo.ZeroMoves | minios/shfs/shfs.h:277-292 | if no request failed, in whatever order they were completed, the chunks asked for were moved |
| KernelIo.IoChunk | minios/shfs/shfs.h:277-292 | if the synchronous transfer returns 0, the chunks asked for were moved |
| VolumeSize.FitsExact | minios/shfs/shfs-tools/shfs_mkfs.c:385-400 | a volume lies inside members of a size exactly if its last chunk does |
| VolumeSize.MountCheckExact | minios/shfs/shfs.c:314-326 | the mount check is sound if and only if stripes are combined or there is one member, and then it is exact |
| VolumeSize.MkfsFits | minios/shfs/shfs-tools/shfs_mkfs.c:390-400 | every stripe of the volume mkfs lays out lies on its members, and the mount check accepts it, if and only if the mode is independent or there are two members |
| VolumeSize.MkfsExact | minios/shfs/shfs-tools/shfs_mkfs.c:390-400 | exactly as many chunks fit as mkfs computes for independent members; combining members, as many more as there are members above two |
| AllocSpec.FirstFitExact | minios/shfs/shfs-tools/shfs_alloc.c:155-185 | on a list in order the result starts a free gap of that length and no free gap starts lower; 0 means there is none |
| AllocSpec.SearchExact | minios/shfs/shfs-tools/shfs_alloc.c:155-185 | on a sorted list that begins with the label, the search is right for every length if and only if no gap between neighbours is covered by an earlier entry |
| AllocSpec.FirstFitAstray | minios/shfs/shfs-tools/shfs_alloc.c:155-185 | with a covered gap there is a length for which the search returns an area that reaches beyond the volume |
| AllocSpec.OverlapBreaks | minios/shfs/shfs-tools/shfs_alloc.c:164-168 | an instance: the search returns a chunk that is not free |
| AllocSpec.OverlapHarmless | minios/shfs/shfs-tools/shfs_alloc.c:155-185 | overlapping entries without a covered gap do no harm |
| AllocSpec.RegisterOk | minios/shfs/shfs-tools/shfs_alloc.c:80-127 | registering a free area keeps the list sorted, disjoint and inside the volume |
| AllocSpec.UnregisterOk | minios/shfs/shfs-tools/shfs_alloc.c:129-153 | so does unregistering |
| AllocSpec.RegisterUndone | minios/shfs/shfs-tools/shfs_alloc.c:80-153 | registering and unregistering restores the areas |
| AllocSpec.RunOk | minios/shfs/shfs-tools/shfs_admin.c:812-824 | in every run of searches, registrations and releases all areas stay disjoint and in bounds |
| AllocList.AList.Add | minios/shfs/shfs-tools/shfs_alloc.c:80-127 | the pointer list gets the area in its place and stays well linked |
| AllocList.AList.Remove | minios/shfs/shfs-tools/shfs_alloc.c:129-153 | the pointer list loses the first such area, or reports that there is none |
| AllocList.AList.FindFree | minios/shfs/shfs-tools/shfs_alloc.c:155-185 | the nested loops compute first fit; on a list without covered gaps the result is the lowest free gap |
| HashWords.HashCompare | minios/shfs/hash.h:71-100 | comparing words and a masked rest tells whether the digests agree in the bytes that are used |
| HashWords.HashIsZero | minios/shfs/hash.h:102-133 | true exactly if the bytes that are used are zero |
| HashWords.HashCopy | minios/shfs/hash.h:44-69 | copies the bytes that are used and fills up the last word with zeros |
| HashWords.HashClear | minios/shfs/hash.h:168-181 | clears whole words |
| HashWords.BktNo | minios/shfs/htable.h:134-174 | the bucket depends on the first bytes only: all of them up to three, otherwise four, because the 64-bit value is kept in 32 bits |
| TableSpec.LookupExact | minios/shfs/htable.h:214-236 | a lookup finds a slot exactly if that slot holds the digest; a zero digest is refused |
| TableSpec.AddExact | minios/shfs/htable.h:244-284 | an addition fails exactly if the digest is zero or its bucket is full, and takes a free slot |
| TableSpec.AddInv | minios/shfs/htable.h:257-279 | an addition keeps the digests unique and in their buckets if and only if the digest was not there |
| TableSpec.AddHolds | minios/shfs/htable.h:244-284 | an addition adds exactly its digest |
| TableSpec.LookupAddMeans | minios/shfs/htable.h:296-347 | looking up and adding in one pass reports a digest as new exactly if it was not there and could be added; its slot then holds it, and nothing else is added |
| TableSpec.RmExact | minios/shfs/htable.h:355-370 | a removal takes out exactly its digest and keeps the list exact |
| TableSpec.AddRm | minios/shfs/htable.h:244-370 | removing what was just added restores the table and its list |
| TableSpec.ClearInv | minios/shfs/htable.h:384-392 | clearing along the list leaves the empty table |
| TableSpec.FeedListed | minios/shfs/shfs_btable.h:137-184 | feeding keeps the list exact: the slots in use, each once |
| TableSpec.RunRefines | minios/shfs/shfs-tools/shfs_admin.c:893-899 | in every run of lookups before additions, and removals, the table refines a set of digests |
| TableSpec.RunFromEmpty | minios/shfs/shfs-tools/shfs_admin.c:893-899 | from the empty table, a lookup succeeds exactly for the digests of the set |
| HTable.Table.constructor | minios/shfs/htable.c:63-164 | the new table is empty |
| HTable.Table.Lookup | minios/shfs/htable.h:214-236 | in place, the search of the bucket is the specified lookup |
| HTable.Table.Add | minios/shfs/htable.h:244-284 | in place, the addition is the specified one |
| HTable.Table.LookupAdd | minios/shfs/htable.h:296-347 | one pass does what a lookup followed by an addition does |
| HTable.Table.Rm | minios/shfs/htable.h:355-370 | in place, the removal is the specified one |
| HTable.Table.Clear | minios/shfs/htable.h:384-392 | in place, the clearing loop is the specified one |
| HTable.Table.Feed | minios/shfs/shfs_btable.h:137-184 | in place, feeding is the specified one |
| TableImage.Places | minios/shfs/shfs_defs.h:226-229 | different entries have different places in the chunks |
| Remount.VisitsAre | minios/shfs/shfs.c:727-832 | after any number of entries, those are of the new image, the others of the old; the list has the old slots still to come, then the new ones |
| Remount.VisitsDefault | minios/shfs/shfs.c:793-829 | the old default entry stays until its slot is reached or another is found |
| Remount.RemountIsMount | minios/shfs/shfs.c:713-836 | a completed remount leaves the slots, entries, list order and default entry of a fresh mount of the new image |
| Remount.Mount.Load | minios/shfs/shfs.c:503-527 | the loading loop gives the table of the image, its list in order and its last default entry |
| Remount.Mount.Reload | minios/shfs/shfs.c:713-836 | the remount fails exactly if a chunk cannot be read, trips the assertion exactly if the entries do not fill the chunks, and equals a fresh mount otherwise |
| AdminRuns.InsertGood | minios/shfs/shfs-tools/shfs_admin.c:890-923 | an entry is added exactly if the digest is new, not zero and its bucket has room; the slot and the cached entry then agree |
| AdminRuns.RmGood | minios/shfs/shfs-tools/shfs_admin.c:1235-1282 | a removal keeps slots, cached entries and marks in agreement |
| AdminRuns.SetDefaultGood | minios/shfs/shfs-tools/shfs_admin.c:1397-1426 | afterwards exactly the chosen entry carries the mark |
| AdminRuns.StepGood | minios/shfs/shfs-tools/shfs_admin.c:776-1426 | every action keeps: slots agree with cached entries, unmarked chunks agree with the disk, only the default entry carries a mark |
| AdminRuns.InsertFinds | minios/shfs/shfs-tools/shfs_admin.c:890-923 | an added entry is found under its digest, all others as before |
| AdminRuns.RmFinds | minios/shfs/shfs-tools/shfs_admin.c:1274-1278 | a removed entry is not found any more, all others as before |
| AdminRuns.WrittenBack | minios/shfs/shfs-tools/shfs_admin.c:672-692 | writing only the modified chunks makes both copies on disk equal to the cache |
| AdminRuns.RoundTrip | minios/shfs/shfs-tools/shfs_admin.c:571-692 | writing back and mounting again gives the same slots, entries and lookups |
| AdminRuns.RunRoundTrip | minios/shfs/shfs-tools/shfs_admin.c:571-692 | and so after any sequence of actions |
| AdminMount.MountGood | minios/shfs/shfs-tools/shfs_admin.c:543-639 | mounting gives a volume whose slots, entries and marks agree if and only if no digest on disk is stored twice or outside its bucket, at most one entry is marked, and the two copies of the table agree |
| AdminMount.FormattedMount | minios/shfs/shfs-tools/shfs_mkfs.c:469-491 | mounting a formatted volume gives a consistent one that holds no digest and whose list has just the reserved areas |
| AdminSafety.DefaultRestored | minios/shfs/shfs-tools/shfs_admin.c:594-595 | the default entry survives writing back and mounting exactly if it still carries its mark |
| AdminSafety.StepFaithful | minios/shfs/shfs-tools/shfs_admin.c:913 | an action takes the mark from the default entry exactly if it is accepted as a new entry and the slot of the default is the first free slot of its bucket |
| AdminSafety.AddTakes | minios/shfs/htable.h:257-279 | an addition takes the first free slot of its bucket |
| AdminSafety.DefaultLost | minios/shfs/shfs-tools/shfs_admin.c:1274-1278 | that happens: after a removal of the default entry a new entry inherits the role until the next mount |
| AdminSafety.TornOverlaps | minios/shfs/shfs-tools/shfs_admin.c:925-977 | after an addition whose contents could not be copied, the next file of the same size gets the same chunks: two files of the table then overlap |
| AdminSafety.AddFileAnswer | minios/shfs/shfs-tools/shfs_admin.c:812-982 | a file is added exactly if it could be read, entered and written and there was room; it is then found with the container reserved for it and its size, all others as before |
| AdminSafety.AddLinkAnswer | minios/shfs/shfs-tools/shfs_admin.c:1179-1229 | a link is added exactly if its digest is accepted; it is then found with just the attributes asked for, all others as before |
| AdminSafety.SetDefaultAnswer | minios/shfs/shfs-tools/shfs_admin.c:1397-1426 | the default is set exactly if the digest is there, to its slot, and that entry alone is marked |
| AdminSafety.ClearDefaultAnswer | minios/shfs/shfs-tools/shfs_admin.c:1385-1395 | afterwards there is no default and no mark |
| AdminFiles.AddFileBooked | minios/shfs/shfs-tools/shfs_admin.c:812-982 | adding a file keeps the list of areas equal to the reserved areas and the containers of the files, unless exactly its contents could not be copied |
| AdminFiles.RmBooked | minios/shfs/shfs-tools/shfs_admin.c:1250-1278 | a removal releases exactly the container of the file and fails only if there is no such entry |
| AdminFiles.StepBooked | minios/shfs/shfs-tools/shfs_admin.c:776-1426 | every action keeps that, if and only if it does not leave an entry whose container was given back |
| AdminFiles.BytesInside | minios/shfs/shfs-tools/shfs_admin.c:814 | the container of a file has room for it: every byte lies in one of its chunks |
| AdminFiles.FilesApart | minios/shfs/shfs-tools/shfs_admin.c:812-824 | then all files lie in the volume, and no chunk that holds a byte of one holds a byte of another or lies in a reserved area |
| AdminFiles.RunFilesApart | minios/shfs/shfs-tools/shfs_admin.c:776-1426 | and so in every run without such a failure |
| AdminFiles.LoadedList | minios/shfs/shfs-tools/shfs_admin.c:602-639 | mounting registers exactly the reserved areas and the containers of the files if and only if the table has no links |
| AdminMount.RemountBooked | minios/shfs/shfs-tools/shfs_admin.c:602-692 | after writing back and mounting again the list is in order and has exactly the reserved areas and the containers of the files if and only if there is no link |
| AdminMount.ReservedOk | minios/shfs/shfs-tools/shfs_admin.c:614-626 | the areas of the label, the table and its backup are disjoint and in the volume, so the list starts in order |
| AdminMount.SessionsBooked | minios/shfs/shfs-tools/shfs_admin.c:571-692 | the list of areas stays right over any sessions of mounting, actions and writing back that tear no file and leave no link |
| AdminMount.SessionsApart | minios/shfs/shfs-tools/shfs_admin.c:571-692 | so, from a formatted volume on, no chunk that holds a byte of a file holds a byte of another one or lies in a reserved area |
| AdminTool.Admin.LoadTable | minios/shfs/shfs-tools/shfs_admin.c:543-597 | reading chunk by chunk gives the table of the image, a cache equal to the disk and no marks |
| AdminTool.Admin.Mount | minios/shfs/shfs-tools/shfs_admin.c:646-662 | in place, mounting leaves exactly what loading the image on the disk specifies: table, cache, marks, default entry and list of areas; it is consistent exactly if the image is proper |
| AdminTool.Admin.LoadContainers | minios/shfs/shfs-tools/shfs_admin.c:628-638 | registers the areas of all listed entries, if there is memory for them |
| AdminTool.Admin.AddFile | minios/shfs/shfs-tools/shfs_admin.c:812-982 | in place, with the pointer list and the hash table, the specified action and result, if there is memory for the list |
| AdminTool.Admin.AddLink | minios/shfs/shfs-tools/shfs_admin.c:1179-1229 | in place, the specified action and result |
| AdminTool.Admin.RmFile | minios/shfs/shfs-tools/shfs_admin.c:1250-1278 | in place, the specified action and result |
| AdminTool.Admin.ClearDefault | minios/shfs/shfs-tools/shfs_admin.c:1385-1395 | in place, the specified action |
| AdminTool.Admin.SetDefault | minios/shfs/shfs-tools/shfs_admin.c:1411-1422 | in place, the specified action and result |
| AdminTool.Admin.WriteBack | minios/shfs/shfs-tools/shfs_admin.c:667-692 | the loop writes the marked chunks to both copies |
| OpenFile.StepInv | minios/shfs/shfs_fio.c:106-133 | every step keeps: the lock is taken exactly while an entry is open or being updated, never both; the open count is the sum of the reference counts; the update flag is set exactly for the entry being remounted |
| OpenFile.StepStable | minios/shfs/shfs.c:760-791 | a step replaces the meta data of an entry only while nobody has it open and nobody can open it; opening succeeds exactly if no update is going on |
| OpenFile.OnlyCopy | minios/shfs/shfs.c:785 | no step but the copy changes any meta data, and the copy gives the entry under update the new one |
| OpenFile.StepCounts | minios/shfs/shfs_fio.c:106-133 | opening counts unless an update is going on, cloning counts, closing takes one back; a cookie is taken once and stays until the entry is opened anew |
| OpenFile.UpdateReplaces | minios/shfs/shfs.c:757-791 | in every interleaving, when an update is finished its entry has the new meta data, and all others have what they had when it began |
| OpenFile.LockExact | minios/shfs/shfs_fio.c:121-133 | the lock is taken exactly if the entry is open or being updated |
| OpenFile.WaitEnds | minios/shfs/shfs.c:760-762 | a waiting remount can go on exactly when the entry is closed, and only clones can keep it waiting |
| OpenFile.OpenStable | minios/shfs/shfs.c:757-798 | in every interleaving the meta data of an entry stays the same as long as it is open |
| OpenFile.AllClosed | minios/shfs/shfs_fio.c:227-235 | with no open file every reference count is 0 and every lock free, but for the entry being updated |
| OpenFile.Files.Open | minios/shfs/shfs_fio.c:106-133 | in place, the specified step; busy exactly during an update |
| OpenFile.Files.Clone | minios/shfs/shfs_fio.c:208-222 | in place, the specified step |
| OpenFile.Files.Close | minios/shfs/shfs_fio.c:227-235 | in place, the specified step |
| OpenFile.Files.SetCookie | minios/shfs/shfs_fio.h:120-125 | a cookie is set once until the file is opened anew |
| OpenFile.Files.Begin | minios/shfs/shfs.c:757-761 | in place, the specified step: the entry is marked before the thread waits for its lock |
| OpenFile.Files.Copy | minios/shfs/shfs.c:785 | in place, the specified step: the meta data is replaced under the lock |
| OpenFile.Files.Finish | minios/shfs/shfs.c:789-791 | in place, the specified step: the lock is given back and the mark taken off |
| OpenFile.Files.Down | minios/shfs/shfs.c:761-762 | in place, the specified step of the remounting thread |

## Left out

- CacheRuns.RunKeeps: about the runs with releases as they are meant; what the code does after an unsafe release is not followed (`CacheRuns.CodeRunKeeps` says exactly when a run of the code is one of these).
- DList.Head.Unlink: about elements of the list and elements that are linked nowhere; elements whose links survive a reset of the head, as after an unsafe release, are not covered.
- FileRead.ReadChunk: where the source could retry for ever, the retries are cut off after `patience` attempts: if the chunk is not cached and every buffer is referenced, or if the devices or the token pool keep refusing although nothing is in flight. Polls that deliver nothing are left out of the waiting loops, which end because some request is always completed.
- AllocSpec.FirstFitExact: for an empty container the gap found need not be the lowest one, so lowest is claimed for at least one chunk.
- Mempool.RingFits: for pools of less than 2^31 objects; for larger ones the shift in `minios/mempool.c:163` is by the width of its type and undefined.
- OpenFile.WaitEnds: reference counts are unbounded; the wrap-around of 32 bits is not modelled.
- PoolLayout.ObjectSafe: for requests whose memory can be addressed with 64 bits; the products of sizes do not wrap around.
- PoolLayout.Obj.Prepend: for objects smaller than 2^63 bytes.
- AdminTool.Admin.AddFile: says nothing if the allocator runs out of memory for its list, which the source ignores.
- Aio.Volume.IoChunk: at most `patience` retries while a device is busy; the source retries as long as it is.
- Striping.SyncIoChunk: a stripe is transferred completely or the call fails; a short read or write, which the source takes for a success because it tests for negative results only (`minios/shfs/shfs-tools/tools_common.c:161-170`), is not modelled.
- The cache's pool has a fixed size (`SHFS_CACHE_GROW` is off); `SHFS_CACHE_DISABLE` and the statistics are left out.
- The hash table's list is a sequence in the model; the pointer surgery is that of `DList`, and the slots are one array, bucket after bucket.
- Threads do not switch inside an operation, except in the open, close and remount protocol.
- `sync_erase_chunk`: the same addressing as `sync_io_chunk`, with zeros.
- Chunk addresses do not wrap around 64 bits.
- A failure to write the table back ends the tool; what is on disk then is not modelled.
- Host names, URLs, MIME types, time stamps and names of entries; digests are inputs.
- Opening by name and the lookup of the default file by an empty path: they select an entry that is then opened as modelled.
- Forced unmounting, finding members and reading labels at mount time, and the waiting of `umount_shfs`.
- `_shfs_alist_find_bf` (unfinished), `htable_pick`, `ring_try_enqueue_multiple` and `ring_try_dequeue_multiple`.
- `metadata_size` and `avail_space` (`tools_common.c`), `alloc_enhanced_mempool2`, the pool's callbacks, `hash_is_max` and `hash_parse`: plain arithmetic, hooks and parsing.
- After the allocation of a separate data area the pool tests the wrong pointer (`minios/mempool.c:135`); the model assumes that this allocation succeeds.
- The block device drivers, the network and interpreter glue, the shell commands.
