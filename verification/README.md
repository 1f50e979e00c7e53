# The caching stack of sftfs, modelled in Dafny

sftfs mounts a remote directory over SFTP and keeps what it learns about attributes, directory
listings and symbolic links for a while. This project models the code that does so, from the hash
table at the bottom to the caching endpoint at the top, in Dafny, and proves what each layer promises
to the one above it. `dafny verify dfyconfig.toml` checks all of it.

## What is modelled

| file | what it models |
|---|---|
| `Memory.dfy` | addresses and small facts about sequences of them |
| `Primes.dfy` | the list of bucket counts and the binary search in it |
| `HashTable.dfy` | the chained hash table: links, growth, migration, removal by hash, iteration |
| `CacheList.dfy` | the clock, and the doubly linked list ordered by time |
| `CacheState.dfy` | what a cache holds, as a value, and what each operation does to it |
| `Cache.dfy` | the cache: every entry in the table and, unless it is taken, in the list |
| `FileCache.dfy` | the cache by path: a map from path to data and time, with expiry |
| `AttrCache.dfy` | the attribute cache |
| `Str.dfy` | the growable string |
| `Listing.dfy` | names one after the other in a growable string |
| `PathBuffer.dfy` | parents of paths, and the buffer that entries are pushed onto |
| `HandleMap.dfy` | the map from open handles to paths |
| `Endpoint.dfy` | the caching endpoint over an arbitrary remote, and whole runs of requests |
| `OpenFiles.dfy` | opening, creating and writing files |
| `Readdir.dfy` | reading directories through the cache, and from it |
| `Root.dfy` | what listing the root does to the caches |
| `Mount.dfy` | whole runs of attributes, changes, listings and open files over one mount |
| `SharedMount.dfy` | such runs while others change the remote |
| `SmallMount.dfy` | a mount that meets what those runs assume |
| `Sftp.dfy` | absolute paths and chunked transfers of the SFTP endpoint |

The C program links its entries through pointers. Here a pointer is an address (a `nat`, 0 for NULL),
and each structure keeps the fields of the blocks it owns in maps from address to value, one map a
field, which its methods update in place. A freed block leaves the maps, so reading through a pointer
requires a proof that the block is still allocated, and addresses may be used again. Pointers to
pointers are links (`Bucket(i) | NextOf(e)`). Ghost sequences say in which order the chains and the
list run. An operation is a method on such a class, and its contract gives the new state as a function
of the old one; the lemmas beside it say what that function means.

The clock is an object whose readings are anyone's guess but fixed: an arbitrary function from how often
it has been read to the time it shows. It never goes back; between two readings it may advance by any
amount, up to a horizon for which stamp plus time to live still fits in 64 bits. The
hash of a path is an arbitrary function. The remote is an arbitrary state machine: what it says about
a path (`lookup`) and what an operation does to it (`apply`). The bookkeeping of evictions (`serial`,
`log`, `fate`) exists for the proofs only.

## Main results

- **The cache cannot be told from the bare remote.** `Endpoints.CachedEndpoint.RunAlone`: for every
  sequence of getattr, chmod, chown, utimens, mkdir, unlink, rmdir and symlink and every behaviour of
  the clock, the answers are those of the remote without a cache, as long as each operation changes
  its own path only and a failed one nothing. Request by request, what these are is
  `Endpoints.BareRunSteps`.
- **Nothing handed out is older than the time to live.** `Endpoints.CachedEndpoint.RunShared`: in every
  such run with others changing the remote arbitrarily between any two requests, what getattr finds was
  the remote's within the time to live by the clock's own readings; if these are further apart than that,
  it is the remote's at that moment (`Endpoints.CurrentIfSlow`). `SharedMounts.RunAmongOthers`: the same
  of every attribute in every run over a whole mount, also of those that listings hand out and leave in
  the cache, whatever the operations change, as long as the directories listed are shown with the
  attributes that the remote holds (`SharedMounts.CurrentCallIfSlow`). Every name that such a run hands
  out was listed by the remote, then or earlier (`SharedMounts.NamesWereListed`).
- **The path cache is a map with expiry**, through hashing, collisions, chains, growth of the table
  and eviction in the middle of any operation (`FileCaches`).
- **Nothing is lost or reported twice.** Each entry ever allocated is still held, was reported to the
  eviction callback exactly once, or was dropped without a report (`CacheStates`, `Caches`).
- **Reading directories through the cache changes nothing for the consumer.** A listing read from the
  remote makes the calls of the direct loop and is stored whole even if the consumer stops early; a
  later read without attributes replays it (`Readdirs.ReadAndReplay`), and so does every run of such
  reads, whatever expires in between (`Readdirs.RunReads`). It is replayed up to the time to live after it
  was stored (`Readdirs.ReplayedUntilExpired`), unless the directory is removed (`Readdirs.ListAndRemove`).
- **One coherent mount.** `Mounts.Run`: every run of getattr, changes, listings with attributes of
  directories other than the root, and creating, opening, writing and closing files answers as the
  remote does, hands out with every listing the attributes that the remote holds, and stays coherent, up
  to the first write through a handle that is not registered. A directory whose names have not changed
  since the run began is listed entry for entry as by the remote (`Mounts.ListedAsRemote`); what is
  handed out otherwise is determined by the names that may still be cached. The remote may be any on
  which an operation changes what is at its own path only, like the one of
  `SmallMounts.SmallMountSound`. What the remote does, call by call, is `Mounts.RightStep`.
- **Chunked transfers equal one-shot ones** at every offset, wherever the file was before, for whatever
  pieces the server moves (`Sftp.Read`, `Sftp.Write`, `Sftp.WriteThenRead`).

## Where the code does less than one would expect

The model follows the code; the exact condition under which it does what it should is proved instead.

- `str_eq` compares as many characters as the stored path has, so a stored prefix is taken for the
  path looked up. Lookup is exact for all paths in use exactly when no path shares its hash with a
  proper prefix of itself in use: `FileCaches.LookupExactIff` for the search that
  `FileCaches.FileCache.FindFrom` is proved to be; and for any two paths that do collide there is a run
  in which the one gets the attributes of the other: `AttrCaches.CollisionMisleads`. The results about
  paths in use assume that there are none.
- `sftfs_htable_remove_hash` removes the rest of the chain from the first match on. It removes the
  entries with the hash and no others exactly when all entries behind the first match have it:
  `HashTables.RemovesOnlyTheHashIff`; `HashTables.TwoInOneBucket` and
  `HashTables.RemoveHashTakesMore` are an instance where it takes more. For handles, others are forgotten
  exactly when the handle's entry does not end its chain: `HandleMaps.HandleMap.Unregister`. So closing one
  may take another along (`HandleMaps.ClosedTogether`), but never one in a different bucket
  (`HandleMaps.ClosedBeside`).
- A write through a handle that is no longer, or was never, registered leaves the attributes cached. A
  coherent cache stays coherent exactly if the write fails, the handle is registered, nothing is cached
  for the path, or nothing changes there: `OpenFiles.Write`. Handles from create are never registered:
  `OpenFiles.StaleAfterWrite` is what happens then, and `OpenFiles.GrowingFile` an instance.
- Taking a path that is taken already makes a second entry for it. The cache stays in order exactly if
  no take of the path is open: `FileCaches.FileCache.TakeFile`.
- `sftfs_cached_inval_all_dir` cuts one character too many and skips the root: the parent's listing
  survives unless the path is the root itself: `Endpoints.CachedEndpoint.InvalAllDir`.
- Renaming to a path that is bound already leaves two entries for it. The cache stays in order exactly
  when the new path is not bound: `FileCaches.FileCache.RenameFile`. Either way a lookup finds the renamed
  entry until that expires: `FileCaches.FileCache.RenameAndFind`.
- Renaming stamps the binding anew, so attributes outlive their time: they are answered until the time to
  live after the rename, exactly, and were stored no longer than the time to live before it began:
  `AttrCaches.RenameOutlives`. The runs of the second result are without renames.
- The test for expiry adds in 64 bits. It is the intended test for every later time exactly when the
  sum fits: `Clocks.WrapsOnlyPastTheLimit`.
- An operation forgets its own path only. After it a coherent cache is coherent exactly if the remote
  says the same as before at every path left cached: `Endpoints.CachedEndpoint.Change`. The parent's is
  such a path. For a remote where making or removing an entry changes the directory, too, a coherent cache
  stays coherent exactly if the operation fails, is none of these, the directory is not left cached, or
  nothing changes there: `Endpoints.ParentChangeIff`. Otherwise getattr gives the directory's old
  attributes until they expire: `Endpoints.StaleParent`.
- A listing looks up the entries of the root at `//name` (`PathBuffers.EntryPathProperIff`), and their
  attributes are cached there, where no change to `/name` reaches them. For a remote to which `//name` is
  `/name`, a change at `/name` leaves a coherent cache coherent exactly if it fails, `//name` is not left
  cached, or nothing changes there: `Endpoints.RootChangeIff`. `Roots.StaleAtRoot` is the run that goes
  wrong, for every entry and every change: list the root, change the entry, and the next listing before
  anything expires hands out the entry's old attributes. `SmallMounts.SmallMountStale` is a mount with
  such an entry.
- The `..` of the root is shown with the attributes of a directory outside of the mount, and they are
  cached for the root itself. If `..` comes behind `.`, getattr then answers for the root with them, and
  the cache is coherent only if they are the root's, too: `Roots.StatRootAfterListing`.
- The attributes that come with a listing without SFTFS_ENDP_READDIR_PLUS are all zero, and they are
  cached. If nothing expires meanwhile, a coherent cache stays coherent exactly if for each path the
  last entry at it was shown with what the remote holds: `Readdirs.ListingCoherentIff` and
  `Readdirs.ReaddirFetching`. Until they expire getattr answers with what the last entry was shown with,
  so with zeros: `Readdirs.StatAfterListing`.
- A cached listing is replayed until it expires or the directory itself is made, removed or created
  anew through the cache, whatever happens inside the directory. What is then handed out is each cached
  name with what the remote says of it and, if one of them is gone, the remote's listing once more from
  the start: `Mounts.ListDir`.
- Replaying a listing with attributes breaks off at the first lookup that fails, and then the whole
  listing is read from the remote. So the consumer is handed the first entries twice exactly if a
  lookup behind the first one fails while it asks for more: `Readdirs.HandedTwiceIff`.
- Reading a directory again that is still cached appends to the cached listing, and a listing cut
  short by an error is cached: `Readdirs.ReaddirFetching`. A later read is then handed the old names and
  the new ones: `Readdirs.ReadTwice`.
- Through the cache a consumer that has had enough does not end the listing, so an error that comes
  later is returned where the direct loop returns 0: `Readdirs.ReaddirFetching` and
  `Readdirs.ReaddirDirect`.
- An empty name ends a listing: `Listings.ReadAll`.
- A failed seek goes unnoticed. The transfer takes place where it should if the first seek works or the
  file was there already, and if no seek works, at the position the file was at: `Sftp.Read`,
  `Sftp.Write`. The byte count is cast to a 32-bit int: `Sftp.CountTrueIff`.

## Model

| member | source | states |
|---|---|---|
| Primes.LowerBound | src/abs/htable.c:26-39 | the binary search returns the least list member not below the target, or the last one if there is none |
| Primes.PrimeLowerBound | src/abs/htable.c:26-39 | the same on the actual list of bucket counts |
| Primes.ListAscends | include/abs/htable_primes.h:3-63 | the list ascends from 2 to its last member, which the search relies on |
| HashTables.Contents.InsertValid | src/abs/htable.c:79-86 | pushing an entry at the head of its chain keeps the chains acyclic, disjoint, complete and by hash |
| HashTables.Contents.ExtractValid | src/abs/htable.c:88-98 | so does taking the entry at any position of any chain out |
| HashTables.EntriesCounted | src/abs/htable.c:17-24 | the entries are as many as the chains are long together |
| HashTables.ChainsByHash | src/abs/htable.c:79-86 | a chain holds exactly the entries whose hash is the number of the chain plus a multiple of how many chains there are |
| HashTables.HashTable.Create | src/abs/htable.c:41-56 | a new table is empty, with the least listed number of buckets that suffices |
| HashTables.HashTable.InsertEntry | src/abs/htable.c:79-86 | the entry becomes the head of the chain of its hash and the link returned leads to it |
| HashTables.HashTable.ExtractEntry | src/abs/htable.c:88-98 | through whichever kind of link, the entry leaves its chain and the count goes down by one |
| HashTables.HashTable.Lookup | src/abs/htable.c:147-154 | the link leads to the first entry of the chain with the hash, or to its end |
| HashTables.HashTable.LookupNext | src/abs/htable.c:165-173 | the same from behind a given entry |
| HashTables.HashTable.FindEntryLink | src/abs/htable.c:239-246 | an entry is found exactly if it is in the table under the hash read through its pointer |
| HashTables.HashTable.Contains | src/abs/htable.c:239-246 | whether the search finds the entry |
| HashTables.HashTable.Remove | src/abs/htable.c:258-261 | exactly one entry is removed and its block freed |
| HashTables.HashTable.FindAndRemove | include/abs/htable.h:46-49 | removes exactly the entry that is looked for |
| HashTables.HashTable.RehashEntry | src/abs/htable.c:284-291 | the entry changes bucket and hash; all other entries keep theirs |
| HashTables.HashTable.RemoveHash | src/abs/htable.c:263-268 | the chain is cut at the first entry with the hash: everything behind it goes, too |
| HashTables.RemovesOnlyTheHashIff | src/abs/htable.c:263-268 | it removes the entries with the hash and no others exactly when all entries behind the first have it |
| HashTables.TwoInOneBucket | src/abs/htable.c:117-135 | in a new table, an entry with hash 1 and then one with hash 3 are in one chain, the second in front |
| HashTables.RemoveHashTakesMore | src/abs/htable.c:263-268 | removing hash 3 from that table leaves no entry |
| HashTables.TwoBuckets | src/abs/htable.c:117-135 | in a new table, an entry with hash 4 and one with hash 5 are in different chains |
| HashTables.RemoveHashBeside | src/abs/htable.c:263-268 | removing hash 5 from that table leaves the entry with hash 4 |
| HashTables.HashTable.MoveBucket | src/abs/htable.c:102-106 | one bucket is emptied into the other table, nothing lost or duplicated |
| HashTables.HashTable.Migrate | src/abs/htable.c:100-107 | all entries move with their hashes; both tables stay well formed and the counts add up |
| HashTables.HashTable.ExtendAndRehash | src/abs/htable.c:109-115 | the new table holds the same entries with the same hashes in the least listed number of buckets that is twice as large, or in the last listed one |
| HashTables.GrowingMakesRoom | src/abs/htable.c:109-126 | a table rebuilt when its entries exceed three quarters of its buckets has room for one more within the load bound, up to the end of the list |
| HashTables.HashTable.NewEntry | src/abs/htable.c:117-135 | one entry is added and all others kept; the table grows exactly if its entries exceed three quarters of its buckets, to the least listed number that is twice as large; the load bound, part of what every operation keeps, holds on |
| HashTables.HashTable.FirstEntry | src/abs/htable.c:195-201 | the first entry in the order of the chains, or none exactly if the table is empty |
| HashTables.HashTable.NextEntry | src/abs/htable.c:211-223 | the entry right after a given one in that order, or none exactly at its end |
| HashTables.HashTable.Clear | src/abs/htable.c:270-282 | no entry is left, whatever the order of the chains |
| Clocks.NoWrap | src/cache/list.c:109-112 | below the limit the wrapping comparison is the intended one |
| Clocks.WrapsOnlyPastTheLimit | src/cache/list.c:109-112 | it is right for every later time exactly when stamp plus time to live fits in 64 bits |
| CacheLists.EvictingIsFiltering | src/cache/list.c:94-122 | in a list sorted by time, dropping from the old end until a node is live is filtering the whole list |
| CacheLists.Listing.AppendValid | src/cache/list.c:58-71 | appending a node stamped now keeps both link directions and the order by time |
| CacheLists.Listing.DropValid | src/cache/list.c:73-91 | so does unlinking a node from any position |
| CacheLists.CacheList.Insert | src/cache/list.c:58-71 | the node is the last of the list, stamped with the clock, and nothing else changes |
| CacheLists.CacheList.Remove | src/cache/list.c:73-91 | exactly this node is unlinked and reset; one that is not listed stays as it is, and so does the list |
| CacheLists.CacheList.Refresh | include/cache/list.h:35-40 | the node moves to the recent end, listed before or not, stamped now |
| CacheLists.CacheList.Empty | include/cache/list.h:42-45 | exactly if the list has no node |
| CacheLists.CacheList.NodeUnlinked | include/cache/list.h:47-52 | a node's own fields tell exactly whether it is in the list |
| CacheLists.CacheList.OneOfTwo | src/cache/cache.c:161-164 | once another listed node is known, the weaker test on the links alone tells it as well |
| CacheLists.CacheList.EvictLru | src/cache/list.c:94-107 | the oldest node is unlinked and reset |
| CacheLists.CacheList.LruInvalid | src/cache/list.c:109-112 | whether the oldest node has expired at the reading of the clock |
| CacheLists.CacheList.EvictInvalidLru | src/cache/list.c:114-122 | the oldest node is unlinked exactly if it has expired at this reading |
| CacheStates.State.EvictValid | src/cache/cache.c:59-68 | eviction keeps the joint invariant of table, list and bookkeeping |
| CacheStates.State.EvictFilters | src/cache/cache.c:59-68 | what is listed afterwards is exactly what was listed and has not expired, in the same order |
| CacheStates.State.EvictFrees | src/cache/cache.c:59-68 | exactly the expired listed entries are freed; the rest keep their fields |
| CacheStates.State.EvictReports | src/cache/cache.c:59-68 | the callback is called for exactly those entries |
| CacheStates.State.EvictEach | src/cache/cache.c:59-68 | entry by entry: one that is listed and older than the time to live is reported and gone, any other is as it was |
| CacheStates.State.EvictKeepsTaken | src/cache/cache.c:114-135 | a taken entry is never evicted, whatever the clock says |
| CacheStates.State.EvictKeepsLive | src/cache/cache.c:59-68 | a listed entry that has not expired is never evicted |
| CacheStates.State.EvictTwice | src/cache/cache.c:137-147 | evicting at one reading and again later is evicting at the later one |
| CacheStates.State.FreedDropped | src/cache/cache.c:96-112 | an entry freed while taken goes without a report |
| CacheStates.State.InvalidatedReported | src/cache/cache.c:137-147 | an invalidated entry is reported, listed or taken |
| CacheStates.State.InvalidatedValid | src/cache/cache.c:137-147 | invalidating keeps the joint invariant |
| CacheStates.State.ClearedValid | src/cache/cache.c:205-227 | clearing reports each listed entry once, drops the taken ones unreported, and leaves nothing |
| Caches.Cache.EvictInvalid | src/cache/cache.c:59-68 | the loop, reading the clock anew each time, evicts what has expired at its last reading |
| Caches.Cache.Alloc | src/cache/cache.c:76-89 | after eviction a new taken entry that points back at itself is in the table under the hash |
| Caches.Cache.Free | src/cache/cache.c:96-112 | a taken entry is freed; an entry of another cache is refused |
| Caches.Cache.Take | src/cache/cache.c:114-125 | a listed entry leaves the list but not the table, a taken one stays taken, and one of another cache is refused |
| Caches.Cache.Give | src/cache/cache.c:127-135 | a taken entry is the most recent one again, stamped now; one still listed or of another cache is refused |
| Caches.Cache.Invalidate | src/cache/cache.c:137-147 | an entry, listed or taken, is reported and freed; one of another cache is refused |
| Caches.Cache.RehashEntry | src/cache/cache.c:149-159 | the entry changes bucket, listed or not |
| Caches.Cache.Contains | src/cache/cache.c:191-196 | exactly the entries of this cache |
| Caches.Cache.ContainsUnlisted | src/cache/cache.c:198-203 | exactly the taken entries of this cache |
| Caches.Cache.FindListed | src/cache/cache.c:166-178 | the next listed entry with the hash, by the exact test or, after a first find, by the weaker one |
| Caches.Cache.Peek | src/cache/cache.c:180-184 | the first listed entry with the hash among those that have not expired |
| Caches.Cache.PeekNext | src/cache/cache.c:186-189 | the next listed entry with the same hash, without access to the cache |
| Caches.Cache.MatchesAreListed | src/cache/cache.c:161-189 | the entries so visited are exactly the listed ones with the hash, none twice |
| Caches.Cache.PeekAll | src/cache/file.c:91-92 | peeking and peeking on visits all of them and ends |
| Caches.Cache.CallOnEvictOfAllEntries | src/cache/cache.c:205-220 | the walk over the table reports every listed entry exactly once and no taken one |
| Caches.Cache.Clear | src/cache/cache.c:222-227 | the callback was called for exactly the listed entries; table and list are empty |
| FileCaches.LookupExactIff | src/cache/file.c:84-96 | the search for the first path that `str_eq` accepts is exact for all paths in use exactly when none collides with a proper prefix of itself |
| FileCaches.BindsUnique | src/cache/file.c:89-96 | what the listed entries stand for is one map: the bindings are determined by the cache |
| FileCaches.FileCache.FindFrom | src/cache/file.c:91-95 | the loop over equal hashes is that search: it ends at the first of the listed entries with the hash whose path `str_eq` accepts |
| FileCaches.FileCache.Search | src/cache/file.c:89-96 | on any cache, in order or not: after eviction, the first accepted entry |
| FileCaches.FileCache.FindEntry | src/cache/file.c:89-96 | after eviction, the first accepted entry for any path, and the entry of exactly this path if it is in use |
| FileCaches.FileCache.PeekFile | src/cache/file.c:153-157 | for a path in use what it is bound to, exactly as long as the time to live after that was stored; for any path what an accepted one is bound to, and nothing only if there is none |
| FileCaches.FileCache.TakeFile | src/cache/file.c:98-127 | the binding is hidden and its data handed out, or a new entry made exactly if there was none; all other bindings stay, and the cache is in order exactly if no take of the path was open |
| FileCaches.FileCache.GiveFile | src/cache/file.c:132-140 | the path is bound to the data, stamped now; a path that does not fit is refused without effect |
| FileCaches.FileCache.DropFile | src/cache/file.c:142-151 | the taken entry goes and no binding changes but by expiry |
| FileCaches.FileCache.InvalidateFile | src/cache/file.c:159-163 | exactly the binding of the path goes, and what has expired |
| FileCaches.FileCache.RenameFile | src/cache/file.c:165-183 | the new path has the old data, stamped now, the old one none, all others stay; in order exactly if the new path was not bound, and in any case the entry found for the new path is the renamed one |
| FileCaches.FileCache.RenameAndFind | src/cache/file.c:89-96 | whether or not the new path was bound: until it expires, the search for the new path finds the renamed entry; none is renamed only if the old path has expired or was not bound |
| FileCaches.MoveBinds | src/cache/file.c:174-181 | the entry that changes path and bucket while taken moves its binding |
| AttrCaches.GetAttr | src/cache/attr.c:21-27 | the attributes bound to the path, never refreshing them |
| AttrCaches.CollisionMisleads | src/cache/file.c:84-87 | for every path that shares its hash with a proper prefix of itself there is a cache that binds the prefix only and answers its attributes for the path |
| AttrCaches.PutAttr | src/cache/attr.c:29-36 | the path is bound to the attributes, stamped now; other bindings are kept while live |
| AttrCaches.RenameOutlives | src/cache/file.c:165-183 | what was put before a rename is answered exactly until the time to live after it, and was put no longer than that before it |
| Strs.Str.Reserve | src/abs/str.c:31-43 | the buffer only grows, and keeps all it held |
| Strs.Str.Resize | src/abs/str.c:45-53 | characters in both sizes are kept and the NUL is behind the last one |
| Strs.Str.Shrink | src/abs/str.c:55-61 | drops from the end, or refuses to drop more than there is |
| Strs.Str.Extend | src/abs/str.c:68-78 | the text followed by the argument |
| Strs.Str.Append | src/abs/str.c:80-95 | the text followed by the character; the capacity doubles when it is used up |
| Strs.Str.Assign | src/abs/str.c:102-110 | the text is the argument |
| Listings.AddDirEntry | src/cache/dir.c:61-68 | the encoding of the names with one more name |
| Listings.ReadDir | src/cache/dir.c:82-94 | the next name and where the one after it starts, or NULL, never looking behind the terminator |
| Listings.ReadAll | src/cache/dir.c:82-94 | all names in order up to the first empty one; all of them exactly if none is empty |
| Listings.EncodeInjective | src/cache/dir.c:61-68 | different names are encoded differently |
| Paths.FindLastSeparator | src/endp/cached.c:101-109 | the position of the last separator |
| Paths.ParentOfEntry | src/endp/cached.c:111-123 | the parent of a directory's entry is the directory, and where the source cuts the path instead the last character of the directory is lost |
| PathBuffers.PushEntry | src/endp/cached.c:239-253 | the entry is appended, or the path cut short in place for ".." |
| PathBuffers.PushedString | src/endp/cached.c:225-246 | the C string in the buffer ends at the NUL put in place of the separator, or is all of the text |
| PathBuffers.Current | src/endp/cached.c:298-302 | what the buffer is read as: the entry's path, the parent for "..", the path itself for "." |
| PathBuffers.PopEntry | src/endp/cached.c:255-266 | the directory's path is back, whatever was pushed, across reallocation |
| PathBuffers.EntryPathProperIff | src/endp/cached.c:239-246 | the path looked up is the entry's own except for the entries of the root other than "." |
| HandleMaps.HandleMap.Get | src/endp/cached.c:125-130 | the path registered for the handle, if any |
| HandleMaps.HandleMap.Register | src/endp/cached.c:132-136 | the handle has this path and one entry; others are kept exactly when the old entry ended its chain, and only handles that differ from it by a multiple of the number of buckets can be lost |
| HandleMaps.HandleMap.Unregister | src/endp/cached.c:138-141 | the handle has no path; only handles that differ from it by a multiple of the number of buckets can be lost with it, and none exactly when its entry ended the chain |
| HandleMaps.HandleMap.Run | src/endp/cached.c:125-141 | in every run a lookup finds nothing or what was registered last and not closed since; it finds that if no handle was closed or opened anew in between |
| HandleMaps.RegisteredIff | src/endp/cached.c:132-141 | what was registered last is the path of an operation that opened the handle with none behind it that opened or closed it |
| HandleMaps.ClosedTogether | src/endp/cached.c:138-141 | of two handles registered one after the other in one bucket, closing the second forgets the first, too |
| HandleMaps.ClosedBeside | src/endp/cached.c:138-141 | of two handles in different buckets, closing the second leaves the first registered |
| Endpoints.CachedEndpoint.Getattr | include/endp/cached.h:29-40 | on a coherent cache the remote's own answer; otherwise no older than the time to live; what has not expired is answered from the cache without being refreshed, a new answer is kept with the time it was stored, other paths keep theirs |
| Endpoints.CachedEndpoint.StoreAttr | src/endp/cached.c:154-164 | the path is bound to the attributes, stamped now; of the other paths what has not expired is kept |
| Endpoints.Purge | src/cache/attr.c:38-41 | in each of the three caches exactly the binding of the path goes, or what is taken for a path not in use |
| Endpoints.CachedEndpoint.InvalAll | src/endp/cached.c:93-99 | the path goes from all three caches |
| Endpoints.CachedEndpoint.InvalAllDir | src/endp/cached.c:111-123 | the path goes from all three caches; its parent's listing survives exactly if the path is not the root |
| Endpoints.ParentMissed | src/endp/cached.c:117-121 | the shortened path is never taken for the parent |
| Endpoints.CachedEndpoint.Change | include/endp/cached.h:63-109 | the remote's own effect and result; on success, and only then, the path goes from the attributes or, after mkdir, unlink, rmdir and symlink, from all three caches, and with these the shortened path if that is in use; nothing else goes but what has expired; a coherent cache stays so exactly if nothing left cached has changed |
| Endpoints.StaleParent | src/endp/cached.c:111-123 | after an entry is made or removed, getattr goes on with the old attributes of the parent until they expire |
| Endpoints.RootChangeIff | src/endp/cached.c:239-246 | on a remote that takes two separators in front for one: coherence is kept exactly if the operation fails, nothing is left cached under the path's other name, or nothing changes there |
| Endpoints.CachedEndpoint.InvalAttr | include/endp/cached.h:125-147 | the path's attributes are forgotten |
| Endpoints.CachedEndpoint.constructor | src/endp/cached.c:40-70 | three empty caches, each with its own time to live and the readings of its own clock |
| Endpoints.CachedEndpoint.Serve | include/endp/cached.h:29-109 | a change is answered with the code the remote returned, and getattr on a coherent cache, or if there is nothing, with what the remote says |
| Endpoints.BareRunSteps | include/endp/cached.h:63-109 | a run of the bare remote, request by request: the code returned, or what it says in the state that the requests before have left |
| Endpoints.CachedEndpoint.RunAlone | include/endp/cached.h:63-109 | every run of these, of getattr (lines 29-40), chmod and chown (125-147) and utimens (277-287) answers as the bare remote and leaves it in the same state |
| Endpoints.ParentChangeIff | include/endp/cached.h:63-109 | on a remote where making or removing an entry changes its directory: coherence is kept exactly if the operation fails, is none of these, the directory is not left cached, or nothing changes there |
| Endpoints.CachedEndpoint.RunShared | include/endp/cached.h:29-40 | with outside writers, every attribute returned was held by the remote within the last time to live, by the readings of the cache's clock |
| Endpoints.NeverStaleSteps | include/endp/cached.h:29-40 | such a run, request by request: codes are those of the state that others have left, and attributes that are not the remote's by then were so at an earlier answer no more than the time to live before |
| Endpoints.CurrentIfSlow | src/cache/list.c:109-112 | if no two readings are within the time to live, every answer of such a run is the remote's at that moment |
| Endpoints.TakeListing | src/cache/dir.c:42-49 | the cached listing, or an empty one if there is none |
| OpenFiles.Write | include/endp/cached.h:240-251 | a coherent cache stays coherent exactly if the write fails, the handle is registered, nothing is cached for the path, or nothing changes there |
| OpenFiles.WriteCoherentIff | include/endp/cached.h:244-249 | that condition, on what is known before the write |
| OpenFiles.Open | include/endp/cached.h:228-236 | the handle is registered exactly if the remote opened the file, and no other handle is registered or gets another path by it |
| OpenFiles.Create | include/endp/cached.h:265-273 | on success, and only then, the path goes from all three caches, and the shortened path with it; a coherent cache stays so exactly if nothing left cached has changed; no handle is registered |
| OpenFiles.StaleAfterWrite | include/endp/cached.h:240-251 | after a write through an unregistered handle that changes the attributes, getattr gives the old ones until they expire |
| OpenFiles.GrowingFile | include/endp/cached.h:265-273 | a file and a write for which that happens |
| Readdirs.ReaddirDirect | src/endp/sftp.c:409-437 | the consumer is called for the entries in order; if it has had enough after one of them the result is 0, else all were handed on and it is how the listing ended |
| Readdirs.CallsMade | src/endp/sftp.c:418-431 | the calls of the loop are one for each entry, up to the first that is answered with anything but zero |
| Readdirs.FetchWithoutAttr | src/endp/cached.c:211-223 | a cached listing makes the calls that the direct loop makes without attributes |
| Readdirs.FetchWithAttr | src/endp/cached.c:268-320 | each entry with what the cached getattr answers at its path, until the consumer has had enough or a lookup fails |
| Readdirs.AllRight | src/endp/cached.c:303 | on a coherent cache those answers are the remote's |
| Readdirs.BreaksOffIff | src/endp/cached.c:303-308 | a replay breaks off exactly at the first lookup that fails while the consumer asks for more |
| Readdirs.PlusAllFound | src/endp/cached.c:285-316 | if every lookup succeeds, the calls are those of the direct loop over the names with the attributes found |
| Readdirs.PlusMade | src/endp/cached.c:285-316 | a replay with attributes hands on the entries up to the first that the consumer had enough with or that could not be looked up, and fails exactly for the latter |
| Readdirs.HandedTwiceIff | include/endp/cached.h:184-198 | the first entries are handed on twice exactly if such a lookup comes behind the first entry |
| Readdirs.FetchDirEntries | src/endp/cached.c:322-334 | nothing is replayed exactly if nothing live is cached |
| Readdirs.CalleeContext.StoreEntry | src/endp/cached.c:363-377 | the attributes are stored under the entry's path and the buffer is restored |
| Readdirs.CalleeContext.Call | src/endp/cached.c:348-385 | the consumer is called only until its first non-zero result; name and attributes are stored in any case |
| Readdirs.CalleeContext.ReadListing | src/endp/cached.c:348-385 | the consumer sees the calls of the direct loop while the whole listing is stored, and for each path the attributes of the last entry at it |
| Readdirs.ListingCoherentIff | src/endp/cached.c:375 | if nothing expired, a coherent cache is coherent after a listing exactly if those attributes are the remote's |
| Readdirs.DistinctAreLast | src/endp/cached.c:239-246 | outside the root no two names are looked up at one path |
| Readdirs.SetUp | src/endp/cached.c:389-426 | the directory is taken with the names cached before, or none |
| Readdirs.CalleeContext.TearDown | src/endp/cached.c:428-440 | the listing is published, or dropped if storing failed |
| Readdirs.ReaddirFetching | include/endp/cached.h:193-201 | the calls of the direct loop; afterwards the path is bound to the cached names followed by the whole listing; coherence is kept exactly as the attributes shown are right |
| Readdirs.StatAfterListing | src/endp/sftp.c:423-424 | after a listing getattr answers with what the last entry at the path was shown with until that expires, with zeros if attributes were not asked for |
| Roots.StatRootAfterListing | src/endp/cached.c:370-375 | after a listing of the root with ".." behind "." getattr answers for the root with the attributes of ".." |
| Roots.ListAndChange | src/endp/cached.c:363-377 | after listing the root and changing an entry, the listing and all attributes stored with it are still cached |
| Roots.OutOfDate | src/endp/cached.c:111-123 | the cache is then no longer coherent |
| Roots.StaleAtRoot | src/endp/cached.c:303 | the next listing of the root before anything expires hands out the entry's old attributes |
| Readdirs.DirExists | include/endp/cached.h:166-175 | a directory is found cached exactly if it is bound and has not expired |
| Readdirs.Readdir | include/endp/cached.h:177-207 | with or without attributes: the replay if it goes through, else its calls and then those of the direct loop; the names and attributes cached afterwards; coherence is kept by a replay, and by a listing exactly as the attributes shown are right |
| Readdirs.ReadAndReplay | include/endp/cached.h:177-207 | a listing read once is replayed without attributes, before it expires, with the calls of the direct loop |
| Readdirs.ReadAgain | include/endp/cached.h:177-207 | a directory opened while it was cached: its cached names are handed on up to the time to live after they were stored, and after that what the remote lists |
| Readdirs.ReplayedUntilExpired | src/endp/cached.c:40-70 | a run from a new endpoint: a listing is replayed up to the time to live of directories after it was stored, and not after that |
| Readdirs.ListAndRemove | include/endp/cached.h:87-94 | a directory that was listed is not found cached after it was removed, and is found cached until its listing expires if that failed |
| Readdirs.ReadTwice | src/endp/cached.c:389-426 | a directory read from the remote while it is cached has the new names behind the old ones, and both are handed out later |
| Readdirs.RunReads | include/endp/cached.h:166-207 | in every run of reads without attributes of unchanging directories each consumer is called as by the direct loop |
| Readdirs.BareNames | src/endp/sftp.c:419-424 | a listing shown without attributes is determined by its names |
| Mounts.ServedWhole | src/endp/cached.c:285-316 | on a coherent cache, a replay of the remote's own names makes the calls of the direct loop over the remote's listing |
| Mounts.ListDir | include/endp/cached.h:166-207 | opening and reading a directory with attributes on a coherent cache hands out the remote's listing if the directory is not cached or with the same names, else what those that are cached stand for now; true attributes, and coherence, in any case |
| Mounts.OnlySameNames | src/endp/cached.c:355-361 | as long as a directory's names stay the same, nothing else is ever cached for it |
| Mounts.ListedAsRemote | include/endp/cached.h:177-207 | in every run a directory whose names have not changed is listed entry for entry as by the remote |
| Mounts.Run | include/endp/cached.h:166-273 | every run that mixes getattr, changes, listings, and creating, opening, writing and closing files: answers, listings and coherence, up to the first write through an unregistered handle; writes before that are through handles that were opened and not closed since |
| Mounts.RightStep | include/endp/cached.h:29-273 | such a run, call by call: what each call is told, by the remote's state and the open files that the calls before have left |
| Mounts.OpenedSurely | src/endp/cached.c:132-141 | a handle that was opened is registered for certain until a file is closed or an open handle opened anew |
| SharedMounts.ListShared | include/endp/cached.h:166-207 | opening and reading a directory with attributes on any cache: the remote's listing, or each cached name with what getattr answers and, if one is gone, the listing behind; no attribute is left cached that was not there or is not the remote's |
| SharedMounts.RunAmongOthers | include/endp/cached.h:29-273 | with outside writers, in every run of getattr, changes, listings, and creating, opening, writing and closing files: results are the remote's, and attributes were the remote's no longer than the time to live before |
| SharedMounts.StepInTime | include/endp/cached.h:29-273 | such a run, call by call: what each call is told, by the state that others have left and the open files, and how old its attributes may be |
| SharedMounts.CachedWereListed | src/endp/cached.c:355-361 | every name that may be cached for a directory was listed for it by the remote in an earlier call |
| SharedMounts.NamesWereListed | include/endp/cached.h:177-207 | every name handed out was listed for the directory by the remote in this call or an earlier one; what the first listing of a directory hands out is the remote's |
| SharedMounts.CurrentCallIfSlow | src/cache/list.c:109-112 | if no two readings are within the time to live, all attributes of a call are the remote's at that moment |
| SmallMounts.SmallMountSound | include/endp/cached.h:166-273 | there is a mount for which what Run assumes holds, with a root that lists what can change |
| SmallMounts.SmallMountStale | src/endp/cached.c:239-246 | and for which the failing run of the root takes place |
| SmallMounts.SmallMountShared | include/endp/cached.h:166-207 | and whose directories can be listed in runs among others |
| Sftp.PathPrefix.constructor | src/endp/sftp.c:51-60 | the base directory, empty for the root |
| Sftp.PathPrefix.GetAbsPath | src/endp/sftp.c:146-168 | base directory followed by the argument |
| Sftp.PathPrefix.GetAbsPaths | src/endp/sftp.c:146-168 | the same for each of any number of calls, whatever came before |
| Sftp.Read | src/endp/sftp.c:462-492 | whatever pieces come, the buffer starts with exactly the window of the file at the offset and the rest is untouched, if the first seek works or the file is there already; an error exactly if the server fails |
| Sftp.Write | src/endp/sftp.c:494-524 | whatever pieces go, the file has exactly the counted bytes at the offset and is otherwise unchanged, under the same condition; all bytes unless the server fails or moves none |
| Sftp.WriteThenRead | src/endp/sftp.c:462-524 | what was written in pieces is read back in pieces, at every offset and from every position |
| Sftp.OverwriteOnward | src/endp/sftp.c:502-521 | writing two pieces one behind the other is writing them at once |
| Sftp.CountTrueIff | src/endp/sftp.c:491-492 | the count returned as an int is the true one up to a multiple of four gigabytes, and the true one exactly below two gigabytes |

## Left out

- Pointers as object references: addresses and maps of fields stand in for them, so aliasing between
  a block's fields and other memory is not modelled; that no freed block is read is proved.
- Failing allocation: malloc, calloc and realloc succeed, and so the branches behind their failure are
  not there.
- One clock for the three caches of an endpoint: each has a clock of its own, which allows every
  behaviour of a shared one.
- Caches without an eviction callback: the path caches always set one.
- The freeing of path strings and listings by the callback: paths and listings are values in the
  cache. `Listings.AddDirEntry` and `Listings.ReadAll` are proved on the growable string itself.
- The constants of the FNV hash and the layout of `struct stat`: the results hold for every hash
  function and every type of attributes.
- Reading through a pointer that belongs to no cache: entries handed to a cache are its own or those
  of another live one.
- Node counts of debug builds (src/cache/list.c:8-28). They drift where an entry is taken twice or the
  cache is cleared.
- The file handle argument of getattr, and opening with truncation, which leaves attributes cached.
- Caches.Cache.Give: an entry still listed that may expire during the call, which the program would
  read after freeing it.
- Rename at the endpoint: it is `FileCaches.FileCache.RenameFile` on each of the three caches.
- Sftp.Read: transfers in which the first seek fails away from the offset and a later one works, whose
  pieces are from two places.
- Sftp.Write: likewise.
- Mounts.Run: runs that list the root, and what comes after a write through an unregistered handle; how
  these go wrong is `Roots.StaleAtRoot` and `OpenFiles.StaleAfterWrite`.
- Runs in which an operation also changes the attributes of the parent directory, which `RunAlone` and
  `Mounts.Run` exclude: how they go wrong is `Endpoints.StaleParent`.
- src/cache/symlink.c and readlink: the same shape as the attribute cache.
- SSH, SFTP packets and FUSE: foreign code; the remote file is a sequence of bytes of which the server
  moves any positive part at a time.
- Logging, option parsing and the password prompt: effects on the operating system only.
