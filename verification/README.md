# libzim in Dafny

libzim writes and reads ZIM archives: directory entries sorted by path, and clusters that hold the
entries' contents as blobs. The writer and the reader are separate code that must agree byte for
byte, and several parts of the reader are fast forms of something simple. This project models both
sides and proves that they agree, that the threads of the creator write what they should in every
interleaving, and that each fast form gives what the simple one would.

Each module follows one component:

| module | component |
|---|---|
| `Bytes`, `Sequences` | bytes, the order of `std::string`, little-endian integers; repetition and permutations |
| `Pipeline`, `Queue` | the creator's main thread, workers and writer thread as a step system, and the bounded queue |
| `ItemPlacement` | two open clusters filling at once |
| `PostProcessing`, `MimeTypes`, `TitleListing`, `Sorting` | the creator's tables: dirents and redirects, MIME codes, the title listing and the search in it |
| `NarrowDown`, `DirentLookup`, `FindByPath` | the sampled in-memory index, the binary search behind it, prefix ranges |
| `ClusterFormat`, `WriterCluster`, `ReaderCluster`, `StreamReader` | a cluster's bytes, the writer's cluster, the reader's, and sequential streams over an abstract codec |
| `DirentFormat` | directory entries, and the read loop with a growing buffer |
| `FileCompound` | reading across the parts of a split archive |
| `Md5`, `Md5Vectors` | the streaming digest against RFC 1321, and the digests that its appendix A.5 gives |
| `LruCache`, `ConcurrentCache`, `DirentAccessor` | the caches |
| `Header`, `ArchiveFormat`, `ArchiveWriter`, `ArchiveReader` | the header, the layout of a whole file, writing it with seeks, opening it |
| `Additions`, `CreatorRun` | what is added to an archive and what it becomes; the creator's objects at work on it |
| `WholeArchive`, `TitleSearch` | the way from the calls on the creator to what a lookup by path and a search by title find |
| `ReaderRun` | the reader's objects at work on a finished archive |

Where the source updates an object in place there is a class whose methods are proved against
functions of its state, and the properties are proved about those functions; protocols of threads
are step systems, and their theorems quantify over every run.

## What callers must respect

These are edges of the code. Each is a precondition, or the condition of an if-and-only-if; where the
code goes wrong beyond the edge, a lemma names an input.

- No two items share a path: the data of a refused item is stored all the same, and if that makes more
  clusters than entries the reader refuses the archive (`ArchiveReader.OpensIff`,
  `WholeArchive.RefusedItemClosesArchive`); a refused dirent still reaches the handlers and stays in their
  listings (`TitleListing.RefusedDirentIsListed`), so that a front article must be the one its path keeps
  for titles to be found (`TitleSearch.FindTitle`), and the path of the main page's redirect must be free
  for the header to name it (`WholeArchive.MainPageIs`).
- Paths, titles and MIME names hold no NUL; MIME names are not empty (`MimeTypes.ReadWrittenIff`);
  there are fewer than 0xfffd of them.
- Namespaces are ASCII (`DirentLookup.NonAsciiNeverReturns`); a prefix does not end in byte 0xff
  (`FindByPath.PrefixRangeExactIff`).
- No part with data follows an empty part (`FileCompound.MultiPartIsSlicing`).
- The cache entry count is positive, and `i += step` stays below 2^32.
- A cluster's last offset fits the width of its table; `isExtended` looks at single items only
  (`ClusterFormat.HeaderRoundTripIff`, `ClusterFormat.OneBlobTooLarge`). With the creator's limit this
  shuts out eight item sizes just below 4 GiB (`WholeArchive.ClusterFits`).
- The 256-byte read steps of `readDirent` stay inside the file (`DirentFormat.ReadDirentIff`), and
  `extraLen` is 0, as the writer always emits (`DirentFormat.ParameterOverruns`).
- No chain of redirects that goes down in the order of paths leads from a redirect's target to a path
  where nothing was added (`PostProcessing.RedirectNamesTargetIff`,
  `PostProcessing.ChainPointsAtRemoved`).
- One call of the digest stays so far below 2^32 bytes that the block loop's index does not wrap
  (`Md5.LoopStopsIff`).
- There is at least one worker (`Pipeline.FinishesIff`).

The name `MAX_QUEUE_SIZE` in `src/writer/queue.h` suggests a bound of 10; the code
allows `MAX_QUEUE_SIZE` plus the number of producers, and that bound is what is proved.

## Model

| member | source | states |
|---|---|---|
| Pipeline.EveryRunIsSafe | src/writer/workers.cpp:37-80 | In every interleaving of the main thread, N workers and the writer, at every moment: the bytes behind byte 1024 are exactly the images of clusters 0..k-1, each whole and once, in number order and end to end; each of those is closed and its recorded offset is where it begins; nothing is cleared before it is written or closed twice; every cluster in the write queue is closed or has its task queued or running; neither queue holds more than 11 elements; and all steps but the writer's repeated looks at an unclosed cluster are bounded in number |
| Pipeline.FinishedIsComplete | src/writer/creator.cpp:255-285 | When the writer has been joined, every listed cluster is in the file, closed, cleared and at its recorded offset, the counter of tasks is zero, and every worker has taken one null and left an empty queue |
| Pipeline.FinishesIff | src/writer/creator.cpp:262-280 | After any run whatever, some continuation finishes if and only if there is a worker, or no cluster was closed and the index tasks fit in the queue: with a worker no reachable state is a deadlock |
| Pipeline.CanFinish | src/writer/creator.cpp:262-280 | From every state that a run can reach, a run to the end exists |
| Pipeline.SomeoneCanGoOn | src/writer/workers.cpp:42-78 | In every reachable unfinished state some thread has a step (or two) that leaves strictly less work |
| Pipeline.NextKeeps | src/writer/workers.cpp:37-80 | Every step of every thread keeps the whole invariant |
| Pipeline.MainKeeps | src/writer/creator.cpp:563-589 | Every step of the main thread (listing, the size checks, the pushes, the nulls, the joins) keeps the invariant |
| Pipeline.WorkerKeeps | src/writer/workers.cpp:37-56 | Every step of a worker (pop, run, delete) keeps the invariant: each cluster given out is closed, or its task is queued or with exactly one worker, and the counter is the number of existing tasks |
| Pipeline.WriterKeeps | src/writer/workers.cpp:58-80 | Every step of the writer (head, look, pop, offset, write, clear) keeps the invariant |
| Pipeline.WriterFile | src/writer/workers.cpp:70-75 | What the writer writes is a closed cluster that has not been cleared, so the file grows by exactly its image at its recorded offset |
| Pipeline.TaskTaken | src/writer/workers.cpp:46-52 | Taking the front task moves it to one worker and nobody else holds it |
| Pipeline.TaskRun | src/writer/clusterWorker.cpp:31-33 | The cluster a worker closes was not closed before, and no other worker or queue entry is about it |
| Pipeline.TaskDeleted | src/writer/clusterWorker.h:31-53 | Deleting a task takes exactly its cluster out of the set of existing tasks |
| Pipeline.NullTaken | src/writer/workers.cpp:46-50 | A null stops one worker, and is one of those at the end of the queue |
| Pipeline.WorkGoesDown | src/writer/workers.cpp:37-80 | Every step but a look at an unclosed cluster strictly lowers the remaining work, and a look leaves it as it is |
| Pipeline.UnclosedMoves | src/writer/workers.cpp:42-56 | A cluster that was given out and is not closed has its task queued or running, and a worker can take a step |
| Queue.Queue.Push | src/writer/queue.h:62-75 | The second locked section appends, whatever the size has become |
| Queue.Queue.GetHead | src/writer/queue.h:77-85 | Gives the oldest element and leaves the queue as it is, or says that there is none |
| Queue.Queue.PopFromQueue | src/writer/queue.h:87-98 | Removes exactly the oldest element, or says that there is none |
| Queue.BoundHolds | src/writer/queue.h:62-75 | With p producers racing between the size check and the push, no run ever holds more than MAX_QUEUE_SIZE + p elements |
| Queue.BoundIsReached | src/writer/queue.h:62-75 | Some run of p producers reaches MAX_QUEUE_SIZE + p, so the bound is exact |
| ItemPlacement.EveryItemIsPlaced | src/writer/creator.cpp:494-526 | Over any run of additions interleaving the two open clusters, once both are closed: each item's (cluster, blob) pair is its own and names exactly its content in a cluster of its kind, no listed cluster is empty, there are no more clusters than items and no blob without an item, and a cluster of two or more blobs has data bytes + 4 * count below the limit |
| ItemPlacement.EveryBlobIsAnItem | src/writer/creator.cpp:494-526 | Every blob of a listed cluster is the content of some item |
| ItemPlacement.NoneClosedEarly | src/writer/creator.cpp:507-514 | Over any run, of two listed clusters of a kind with none of that kind between them, the offset table of the first at its width, its data and the first blob of the second come to the limit: an item joins the open cluster while there is room; while items come in, the same of the last listed one and the open one |
| ItemPlacement.AddKeeps | src/writer/creator.cpp:494-526 | Adding an item keeps all of that, for the clusters listed and open |
| ItemPlacement.CloseKeeps | src/writer/creator.cpp:563-589 | Listing an open cluster moves its items to the next number and keeps what they name |
| ItemPlacement.CreatorData.AddItemData | src/writer/creator.cpp:494-526 | The object's clusters, lists and dirents become what the specification of an addition says, whose runs keep within the limit (EveryItemIsPlaced) and close no cluster early (NoneClosedEarly); the clusters involved are the open ones or new |
| ItemPlacement.CreatorData.CloseCluster | src/writer/creator.cpp:563-589 | The open cluster is appended to the list and a new one takes its place; the other stays |
| ItemPlacement.CreatorData.SetCluster | src/writer/_dirent.h:115-132 | The dirent is given the cluster and the number of blobs before this one |
| ItemPlacement.CreatorData.CloseAll | src/writer/creator.cpp:255-260 | What is open and not empty is listed, the compressed one first |
| PostProcessing.CreatorDirents.AddDirent | src/writer/creator.cpp:468-492 | The table stays strictly sorted and becomes the specified one (inserted, replacing a redirect, or refused), and the unresolved redirects stay exactly its redirects |
| PostProcessing.FirstItemWins | src/writer/creator.cpp:468-492 | After any run of additions a path holds the first item added there, without an item the first redirect, and nothing if nothing was added |
| PostProcessing.WinnerIsFirst | src/writer/creator.cpp:468-492 | The winner among the dirents of one path is the first item, or the first redirect when there is no item |
| PostProcessing.CreatorDirents.ResolveRedirectIndexes | src/writer/creator.cpp:602-624 | The table keeps exactly the dirents that are not dead, each dead redirect is marked removed and nothing else is, every other redirect points at the dirent that was at its target, and the main page is dropped exactly if it was removed |
| PostProcessing.TargetStillThere | src/writer/creator.cpp:608-622 | At the turn of a redirect its target is still in the shrinking table if and only if the redirect is not dead |
| PostProcessing.CreatorDirents.SetEntryIndexes | src/writer/creator.cpp:591-600 | Entry numbers are ranks in path order |
| PostProcessing.RedirectNamesTargetIff | src/writer/creator.cpp:591-624 | A redirect that stays is written with its target's final number if and only if no chain of redirects, each below the one before in path order, leads from the target to a path where nothing was added |
| PostProcessing.DeadIffChain | src/writer/creator.cpp:606-622 | A redirect is removed if and only if such a chain starts at it: the order-dependent removal told from the table before anything is removed |
| PostProcessing.SettleDirents | src/writer/creator.cpp:230-235 | Resolving and numbering together: the survivors in order, numbered by rank, dirents that are no entries left at their old number, every surviving redirect right exactly when its target survived, and the main page dropped exactly if it was removed |
| PostProcessing.ChainPointsAtRemoved | src/writer/creator.cpp:606-622 | A redirects to B, B comes after A and redirects to nothing: A stays and points at B, B is marked removed, and the number A is written with is not that of an entry at its target |
| MimeTypes.MimeTable.GetMimeTypeIdx | src/writer/creator.cpp:656-669 | A known name keeps its code, a new one gets the next, and the call fails exactly when all 65535 codes are taken and the name is new |
| MimeTypes.MimeTable.ResolveMimeTypes | src/writer/creator.cpp:626-654 | The list is a strictly sorted permutation of the names, every item's new code is the place of its old name in it, and redirects keep theirs |
| MimeTypes.MapMimes | src/writer/creator.cpp:641-648 | The double loop maps each old code to a place that holds the same name |
| MimeTypes.ReadMimeTypes | src/fileimpl.cpp:251-265 | The parsing loop gives the specified list, or refuses when it runs off the buffer |
| MimeTypes.ReadWrittenIff | src/fileimpl.cpp:251-265 | The written list reads back, whatever follows it, if and only if no name is empty or holds a NUL |
| Sorting.SortSorts | src/writer/creator.cpp:638-638 | Sorting gives a permutation in ascending order of the keys |
| TitleListing.TitleListingHandler.Stop | src/writer/titleListingHandler.cpp:69-74 | What is left is the dirents not marked removed, in the order of namespace and title, equal titles in whatever order the sort leaves |
| TitleListing.ListingIsSortedTable | src/writer/titleListingHandler.cpp:69-74 | Once redirects are resolved, any listing the sort may leave is a permutation of the final entries in the order of namespace and title, in whatever order the dirents were handed over |
| TitleListing.RefusedDirentIsListed | src/writer/creator.cpp:479-485 | A dirent that the table refused but the handler received is in every listing the sort may leave, though it is no final entry |
| TitleListing.ListingProvider.FeedAll | src/writer/titleListingHandler.cpp:43-50 | Fed to its end, the provider emits the entries' numbers as four-byte little-endian integers in the listing's order |
| TitleListing.ListingProvider.Feed | src/writer/titleListingHandler.cpp:43-50 | One call emits one number and moves on; at the end it emits nothing |
| TitleListing.NumberAt | src/dirent_accessor.cpp:79-86 | The four bytes at 4 * i of the listing are the number of its entry i |
| TitleListing.TitlePosition | src/writer/creator.cpp:314-316 | Cluster offset plus data offset plus blob offset is where the bytes of that blob of an uncompressed cluster are |
| TitleListing.FindxByTitle | src/fileimpl.cpp:305-349 | On any listing sorted by namespace and title, repeated titles included: found if and only if an entry matches, then at one that does; otherwise the insertion point |
| TitleListing.CompareTitleIsOrder | src/fileimpl.cpp:293-303 | The comparison helper is the order by namespace and title |
| NarrowDown.ShortestIsBetween | src/narrowdown.h:154-164 | The pseudo-key p of a <= b satisfies a <= p <= b; a < p when they differ, and p is b when they do not |
| NarrowDown.ShortestIsShortest | src/narrowdown.h:154-164 | Every string s with a < s <= b is at least as long as the pseudo-key |
| NarrowDown.NarrowDown.Add | src/narrowdown.h:103-131 | Refuses exactly when the next key is below the key or the pseudo-key is below the last one, leaving area and entries as they were; otherwise area and entries gain the key (the first time) or the pseudo-key, with its index, at the 32-bit offset, and below 4 GiB the grid decodes to just that |
| NarrowDown.NarrowDown.Close | src/narrowdown.h:133-138 | Area and entries gain the key and its index, and below 4 GiB the grid decodes to just that |
| NarrowDown.NarrowDown.GetRange | src/narrowdown.h:140-152 | The range is the one the specification of the grid gives for the query |
| NarrowDown.AddKeepsSound | src/narrowdown.h:103-131 | On a sorted sequence, adjacent duplicates allowed, no call refuses: the next pseudo-key is not below the last, and every entry keeps sequence[lindex] <= pseudo-key <= sequence[lindex + 1] |
| NarrowDown.CloseCompletes | src/narrowdown.h:133-138 | Closing a sampled sorted sequence does not go below the last pseudo-key, and gives a grid that covers it from the first key to the last |
| NarrowDown.AppendDecodes | src/narrowdown.h:167-172 | An appended key is decoded exactly from its offset, and the earlier ones stay as they were |
| NarrowDown.PackDecode | src/narrowdown.h:190-222 | From the packed NUL-separated area each entry's offset decodes to exactly its pseudo-key |
| NarrowDown.UpperBoundSplits | src/narrowdown.h:140-145 | The binary search on the decoded keys splits the grid into the keys not above the query and those above |
| NarrowDown.RangeNarrows | src/narrowdown.h:140-152 | On a complete grid, sequence[begin] <= query, and the query's place lies inside the range, which is what ends the caller's loop |
| DirentLookup.DirentLookup.Find | src/dirent_lookup.h:151-182 | Agrees with a linear scan for every sorted table, cache size and ASCII query: found exactly if the key is there and at an index that holds it, otherwise the count of smaller keys; on a strictly sorted table always that count; the endless loop ends |
| DirentLookup.ProbeNarrows | src/dirent_lookup.h:160-180 | One turn of the loop answers rightly or strictly narrows a range that still brackets the query |
| DirentLookup.DirentLookup.constructor | src/dirent_lookup.h:74-88 | The sampled grid is complete for the table, for every positive cache entry count |
| DirentLookup.Sample | src/dirent_lookup.h:74-88 | The sampling loop, with its step and its last entry, builds exactly the specified grid |
| DirentLookup.SearchStarts | src/dirent_lookup.h:155-160 | The range taken from the grid brackets the query, so the loop may start |
| DirentLookup.NonAsciiNeverReturns | src/dirent_lookup.h:160-180 | With a namespace above 127 and any table, the loop is still going after any number of turns |
| DirentLookup.GetNamespaceBeginOffset | src/dirent_lookup.h:90-111 | The binary search gives the number of entries before the namespace |
| DirentLookup.DirentLookup.GetNamespaceRangeBegin | src/dirent_lookup.h:123-142 | With or without a cached answer, the number of entries before the namespace, and the cache stays right |
| DirentLookup.DirentLookup.GetNamespaceRangeEnd | src/dirent_lookup.h:144-149 | The number of entries up to the end of the namespace |
| DirentLookup.NamespacesPartition | src/dirent_lookup.h:90-118 | The boundaries partition the table: an entry lies between two neighbouring ones exactly if it has that namespace |
| DirentLookup.CheckDirentOrder | src/fileimpl.cpp:576-592 | Comparing neighbours decides whether the whole table is strictly ascending |
| FindByPath.PrefixRangeIsExact | src/archive.cpp:231-302 | For every strictly sorted table and a prefix not ending in byte 0xff, the range is exactly the entries with that prefix, contiguous |
| FindByPath.PrefixRangeExactIff | src/archive.cpp:290-300 | The range is exact for every table if and only if the prefix does not end in byte 0xff |
| FindByPath.WrappedPrefixMisses | src/archive.cpp:295-299 | For every prefix ending in 0xff, the one-entry table of that very path has its entry outside the range |
| FindByPath.PrefixInterval | src/archive.cpp:295-299 | Adding one to the last byte bounds exactly the strings with the prefix |
| FindByPath.QueryMeans | src/archive.cpp:271-300 | In the new scheme an entry is searched for when and only when it is in namespace C and its url begins with the path, with "/" and the empty path for all; in the old one when the path spells its namespace and a prefix of its url, or is one of those two |
| FindByPath.ParsesIff | src/tools.cpp:105-116 | A long path parses to a namespace and a url if and only if it is that namespace, no slash itself, with or without a slash before it, and then a slash and the url, or nothing and the url is empty |
| FindByPath.FindByPath | src/archive.cpp:231-302 | The call gives the specified range, for an empty path, a namespace, or a prefix in either namespace scheme |
| FindByPath.FindPrefix | src/archive.cpp:295-301 | The two lookups around the bumped path give the specified range |
| Bytes.FromToLE | src/endian_tools.h:69-83 | Reading back a written integer gives it modulo the width |
| Bytes.ToFromLE | src/endian_tools.h:69-83 | Writing what was read gives the same bytes |
| Bytes.FromLittleEndian | src/endian_tools.h:75-83 | The accumulating loop gives the specified number |
| ClusterFormat.HeaderRoundTripIff | src/cluster.cpp:95-121 | The table of a written cluster reads back as the true offsets if and only if the last offset fits the width in use |
| ClusterFormat.BlobRoundTrip | src/cluster.cpp:95-129 | Between its two offsets lies exactly blob n, whatever follows the cluster in the stream |
| ClusterFormat.OneBlobTooLarge | src/writer/cluster.cpp:236-238 | One blob of 4 GiB - 1 bytes does not make a cluster extended, and its cluster does not read back |
| ClusterFormat.InfoRoundTrip | src/cluster.cpp:47-72 | The info byte gives back compression and width, and the two retired compressions are refused |
| ClusterFormat.ImageByName | src/writer/cluster.cpp:173-228 | By the names of the six compressions: none and the default are written as their number and the content, the other four as their number and the encoding of the content, with 16 added to the number and 8-byte offsets for an extended cluster |
| WriterCluster.Cluster.AddContent | src/writer/cluster.cpp:230-241 | The blob, its offset, the count, the size and the width flag are recorded, and the provider of an empty blob is dropped |
| WriterCluster.Cluster.Size | src/writer/cluster.cpp:92-103 | Offset table at the current width plus data |
| WriterCluster.Cluster.WriteOffsets | src/writer/cluster.cpp:104-115 | Emits exactly the table of shifted offsets at the width |
| WriterCluster.Cluster.WriteData | src/writer/cluster.cpp:249-265 | Drains the providers into exactly the concatenated blobs, though those of empty ones are gone |
| WriterCluster.Cluster.WriteContent | src/writer/cluster.cpp:117-125 | Table and data: the specified cluster content |
| WriterCluster.Cluster.Close | src/writer/cluster.cpp:77-149 | For lzma and zstd the compressed data is the encoding of the content and the raw data is dropped; for none and the default nothing is encoded or dropped; for zip and bzip2 closing fails and changes nothing |
| WriterCluster.Cluster.Write | src/writer/cluster.cpp:173-228 | The info byte, then for none and the default the content, for zip, bzip2, lzma and zstd its encoding: the specified image |
| WriterCluster.Cluster.GetDataOffset | src/writer/cluster.h:72-75 | Where the data begins in the image, counting the info byte |
| WriterCluster.Cluster.GetBlobOffset | src/writer/cluster.h:71-71 | Where blob n begins in the data |
| WriterCluster.OffsetsAgree | src/writer/cluster.h:71-75 | The writer's data offset plus blob offset is the reader's offset of that blob |
| WriterCluster.DroppingEmptyOnesKeepsTheData | src/writer/cluster.cpp:236-241 | Leaving the empty blobs out changes nothing in the data |
| ReaderCluster.Cluster.ReadHeader | src/cluster.cpp:95-121 | Accepts exactly the headers the specification accepts, with its offsets, and leaves the stream at the first blob |
| ReaderCluster.Cluster.GetBlobSize | src/cluster.cpp:123-129 | The difference of two offsets, or out of range |
| ReaderCluster.Cluster.GetReader | src/cluster.cpp:131-143 | Blob n of the decoded stream, whatever was asked before, by reading on from where the stream stands |
| ReaderCluster.Cluster.GetBlob | src/cluster.cpp:145-156 | In any order of calls: bytes [offset n, offset n+1) of the decoded stream, or nothing beyond the last |
| ReaderCluster.Cluster.GetBlobPart | src/cluster.cpp:158-173 | For an offset within blob n: the smaller of the size and what is left behind the offset, and byte k of the answer is byte blobOffsets[n] + offset + k of the decoded stream; nothing when the offset is beyond the blob or n beyond the last |
| ReaderCluster.ClusterRoundTrip | src/cluster.cpp:95-173 | Reading back what was written, empty blobs included and for both widths, gives the count and every blob |
| StreamReader.DecoderStreamReader.ReadImpl | src/decoderstreamreader.h:77-85 | The next n bytes of the decoded stream, however the codec divides its work |
| StreamReader.DecoderStreamReader.DecodeMoreBytes | src/decoderstreamreader.h:59-75 | One call writes the next decoded bytes, keeps input and output position matching, and makes progress |
| StreamReader.DecoderStreamReader.ReadNextChunk | src/decoderstreamreader.h:52-58 | Takes the next 1024 bytes of input, or what is left |
| StreamReader.RawStreamReader.ReadImpl | src/rawstreamreader.h:38-49 | The next n bytes, and the position advances by n |
| StreamReader.StoreCodecDecodes | src/decoderstreamreader.h:59-75 | The contract asked of a codec can be met |
| DirentFormat.Write | src/writer/dirent.cpp:37-72 | The pieces written are the specified encoding, the title left out when it equals the path |
| DirentFormat.ParseEncoded | src/dirent.cpp:43-114 | Parsing the encoding of an item or a redirect gives it back, whatever follows |
| DirentFormat.TitleSurvives | src/writer/dirent.cpp:62-70 | Path and title are those of the writer, the omitted title included |
| DirentFormat.ParseIsStable | src/dirent.cpp:43-114 | Once a buffer parses, every longer buffer parses the same |
| DirentFormat.PrefixNeedsMore | src/dirent.cpp:83-101 | Every proper prefix of an encoding that has at least 16 bytes asks for more |
| DirentFormat.ParameterOverruns | src/dirent.cpp:83-108 | For every positive extraLen there is a buffer of at least 16 bytes that the parser reads outside of |
| DirentFormat.OverrunNeedsParameter | src/dirent.cpp:83-108 | With extraLen 0, a buffer of at least 16 bytes is never read outside of |
| DirentFormat.ReadDirentLoop | src/dirent.cpp:116-141 | The growing-buffer loop ends, with the specified result |
| DirentFormat.ReadDirentIff | src/dirent.cpp:132-141 | Reading a written dirent from the file gives it back if and only if the 256-byte read steps stay inside the file |
| DirentFormat.LongPathNearTheEnd | src/dirent.cpp:132-141 | A path of 300 bytes near the end of a file cannot be read |
| FileCompound.MultiPartIsSlicing | src/file_reader.cpp:89-125 | For every division into parts, every in-range read gives the slice of the concatenation if and only if no part with data follows an empty part |
| FileCompound.MultiPartFileReader.Read | src/file_reader.cpp:89-125 | The loop over the located parts gives what the specified loop gives, with nothing left to read at its end |
| FileCompound.LocateIsOverlap | src/file_compound.h:81-85 | On tiles the located parts are exactly those that overlap the request, in order; an entry behind the tiles is out of reach of a request that stays within |
| FileCompound.ReadTiles | src/file_reader.cpp:89-125 | On tiles without gaps, reading the located parts gives the slice of the concatenation, whatever entries lie behind |
| FileCompound.ReadTileByte | src/file_reader.cpp:63-87 | One byte is the byte of the concatenation |
| FileCompound.SubReaderIsSlice | src/file_reader.cpp:213-218 | Reading through a sub-reader of a sub-reader is slicing the slice |
| FileCompound.BuildOfData | src/file_compound.cpp:36-41 | Non-empty parts become tiles that lie end to end |
| FileCompound.EmptyHidesData | src/file_compound.h:43-52 | Whenever data follows an empty part, reading the first byte behind the parts in front of it fails |
| FileCompound.FileCompound.AddOnePart | src/file_compound.cpp:36-41 | One part is added to the map as specified and the size grows by its length |
| Md5.Md5Context.Update | src/md5.c:120-157 | After any number of calls of any lengths for which the block loop's 32-bit index does not wrap, state, buffer and the two-word counter are those of the whole message so far |
| Md5.LoopStopsIff | src/md5.c:145-146 | Behind the last whole block the loop's 32-bit test fails, as it must, if and only if that index plus 63 is below 2^32 |
| Md5.Md5Context.Final | src/md5.c:162-186 | The digest of the whole message under sections 3.1 to 3.5 of RFC 1321, whose values Md5Vectors pins, and the context is cleared |
| Md5.MD5Transform | src/md5.c:190-281 | The four unrolled rounds compute the compression function of section 3.4 of RFC 1321, stated by its tables |
| Md5.CountAdds | src/md5.c:131-135 | Adding a length to the two words, carry included, gives 8 * total length modulo 2^64 |
| Md5.CountBytes | src/md5.c:168-169 | The two words, low one first, are the little-endian bytes of the 64-bit count |
| Md5.IndexIsLength | src/md5.c:128-129 | The buffer index taken from the low word is the length modulo 64 |
| Md5.PaddedAt | src/md5.c:173-179 | Byte by byte, the padded message is the message, one byte 0x80, zeros, and the bit count in eight bytes |
| Md5.FChooses | src/md5.c:70-70 | F takes y where x is set and z elsewhere |
| Md5.GChooses | src/md5.c:71-71 | G takes x where z is set and y elsewhere |
| Md5.HIsParity | src/md5.c:72-72 | H has the bits set in one of the three words or in all |
| Md5.IDiffers | src/md5.c:73-73 | I differs from y exactly where x is set or z is clear |
| Md5Vectors.EmptyDigest | src/md5.c:162-281 | The digest of the empty message is d41d8cd98f00b204e9800998ecf8427e, as appendix A.5 of RFC 1321 gives it |
| Md5Vectors.AbcDigest | src/md5.c:162-281 | The digest of "abc" is 900150983cd24fb0d6963f7d28e17f72 |
| Md5Vectors.DigitsDigest | src/md5.c:120-281 | The digest of "1234567890" eight times, which takes two blocks, is 57edf4a22be3c955ac49da2e2107b67a |
| Md5.DigestOf | src/md5.c:120-186 | However a message is cut into calls, the digest is that of the whole |
| Md5.WriterChecksum | src/writer/creator.cpp:371-389 | Hashing 1024 bytes at a time gives the digest of the whole file |
| Md5.Verify | src/fileimpl.cpp:480-522 | Hashing byte by byte over the parts accepts exactly if the checksum position is in the file and the stored sixteen bytes are the digest of what precedes them; past the end it refuses |
| Md5.ChecksumAccepted | src/fileimpl.cpp:480-522 | The reader accepts the writer's checksum, however the finished file is divided into parts |
| LruCache.AnswersAreLeastRecentlyUsed | src/lrucache.h:89-137 | For every run of operations every answer is the one given by the log of all accesses: a key is there exactly if fewer than cap other keys were accessed since, with the value its latest access left |
| LruCache.ApplyIsConsult | src/lrucache.h:89-137 | One operation answers as the log does and leaves the cap most recent keys, each once, in recency order |
| LruCache.CachedIffLive | src/lrucache.h:120-122 | A key is cached if and only if it was accessed and fewer than cap other keys have been since |
| LruCache.LatestIs | src/lrucache.h:89-137 | In the log, the latest access of a key is its last entry with that key, and the keys accessed since are those of the entries behind it |
| LruCache.LruCache.Get | src/lrucache.h:110-118 | List, map and answer become what the specification says; list and map stay in bijection and within capacity |
| LruCache.LruCache.Put | src/lrucache.h:100-108 | The same for a put, which replaces the value of a key that is there |
| LruCache.LruCache.GetOrPut | src/lrucache.h:89-98 | The same for getOrPut |
| LruCache.LruCache.PutMissing | src/lrucache.h:129-137 | The new entry is in front and the last one goes when there are too many, at capacity zero the new one itself |
| LruCache.SpliceMoves | src/lrucache.h:92-92 | Splicing a node moves its entry to the front and leaves the map as it is |
| ConcurrentCache.EveryRun | src/concurrent_cache.h:61-73 | In every interleaving, at every moment: each call's locked section handed out the future of its key's latest access if fewer than cap other keys were locked since, and otherwise inserted a new future, and there are no other futures; f has run at most once for each future, in the thread that inserted it and with a value that may come out for its key; each future has been fulfilled at most once, by that thread, with the value f gave it; every answer is the value of the future its call was handed, one inserted for the key asked; a run has at most four steps a call |
| ConcurrentCache.CallsShare | src/concurrent_cache.h:61-73 | In every run, two calls for a key, in whichever threads, between whose locked sections fewer than cap other keys were locked get the same future, and once answered the same value |
| ConcurrentCache.OncePerKey | src/concurrent_cache.h:61-73 | In every run over no more distinct keys than the capacity, each key has at most one future and f runs at most once for it |
| ConcurrentCache.StoppedRunsAnswer | src/concurrent_cache.h:61-73 | A run that cannot go on has answered every call of every thread in order with the value of a future inserted for its key, and for each future f ran exactly once and the value was set exactly once, by the thread that inserted it |
| ConcurrentCache.SomeoneCanGoOn | src/concurrent_cache.h:61-73 | As long as a call is unanswered some thread can take a step: eviction never strands a waiter |
| ConcurrentCache.SetValueKeeps | src/concurrent_cache.h:67-69 | The promise is fulfilled by its own thread and for the first time, and the invariant is kept |
| ConcurrentCache.LockKeeps | src/concurrent_cache.h:63-66 | The locked section inserts a future, whose value its thread goes on to compute, if and only if its key is not live in the log of all locked sections before; otherwise it inserts none and its thread waits for the future of the key's latest access; and the invariant is kept |
| DirentAccessor.DirectDirentAccessor.GetDirent | src/dirent_accessor.cpp:40-56 | Whatever is cached, the answer is that of reading the pointer and the dirent again, errors included |
| DirentAccessor.EveryHitIsDirect | src/dirent_accessor.cpp:40-56 | In every interleaving of the locked sections of any number of threads, a hit is what reading again gives |
| DirentAccessor.DirectDirentAccessor.GetOffset | src/dirent_accessor.cpp:58-65 | The eight bytes at 8 * i, or out of range |
| DirentAccessor.GetDirectIndex | src/dirent_accessor.cpp:79-86 | The four bytes at 4 * i, or out of range |
| DirentAccessor.GetIndirect | src/dirent_accessor.cpp:88-92 | The dirent of the entry that the title index names |
| Header.ReadWrittenIff | src/fileheader.cpp:72-139 | A written header reads back as itself, whatever follows, if and only if its major version is 5 or 6, it has clusters exactly if it has entries and no more of them, its MIME list is at byte 80 or 72, and no table or checksum position is before that, a checksum position of 0 excepted |
| Header.ParseWritten | src/fileheader.cpp:46-111 | Every field comes back from the 80 bytes |
| Header.Write | src/fileheader.cpp:46-70 | The thirteen fields placed in the buffer are the specified bytes |
| ArchiveWriter.WriteArchive | src/writer/creator.cpp:321-390 | Given the file with its clusters, the seeks and writes leave exactly the archive (header, MIME list, zeros to byte 1024, clusters, dirents, pointer tables, checksum), the plans whose header the reader will refuse included |
| ArchiveWriter.WriteParts | src/writer/creator.cpp:328-366 | The positions recorded on the way are where the parts begin |
| ArchiveWriter.WriteDirents | src/writer/creator.cpp:340-345 | Each dirent is appended at the offset it is given |
| ArchiveFormat.HeaderIsSane | src/writer/creator.cpp:295-319 | The header that the creator fills fits its fields, and passes the reader's sanity check exactly when there are no more clusters than entries |
| ArchiveReader.ArchiveOpens | src/fileimpl.cpp:104-156 | The finished archive's header is read back and sane, the quick check of the last cluster offset and the checksum position passes, and the stored checksum is the digest of everything before it |
| ArchiveReader.OpensIff | src/fileheader.cpp:113-139 | Whatever plan the creator writes, the reader accepts the header if there are no more clusters than entries and otherwise finds it insane |
| ArchiveReader.TruncatedIsRefused | src/fileimpl.cpp:197-214 | Every proper prefix of the finished archive is refused |
| ArchiveReader.OtherLengthIsRefused | src/fileimpl.cpp:212-214 | Any file with the archive's header and another length is refused |
| ArchiveReader.ClusterBehindTheEndIsRefused | src/fileimpl.cpp:203-209 | A file whose last cluster pointer is behind its end is refused |
| ArchiveReader.EscapeIsInverse | src/decoderstreamreader.h:59-75 | The assumption on the coders can be met: escaping every byte and ending with a mark decodes whatever follows |
| ArchiveReader.MimesRead | src/fileimpl.cpp:217-265 | The upper limit of the MIME list is byte 1024, and the list read is the creator's |
| ArchiveReader.DirentIsRead | src/dirent_accessor.cpp:40-71 | Entry i through the pointer table is the dirent that was written |
| ArchiveReader.ClusterIsRead | src/fileimpl.cpp:401-419 | Every blob comes back through the cluster pointer table, decoded if need be |
| ArchiveReader.StreamByCode | src/cluster.cpp:47-72 | By the number in the info byte: 0 and 1 give the file behind it as it is, 4 and 5 what it decodes to, and with any other number no blob can be read |
| ArchiveReader.TitleListingIsThere | src/writer/creator.cpp:312-316 | The header's title position points at exactly the bytes of the blob that holds the title listing |
| ArchiveReader.LookUpFinds | src/fileimpl.cpp:277-280 | Looking any path up in the archive gives the title, MIME type and content written for it, or the number it redirects to, and a path that no entry has is not found |
| Additions.GoneIffDangles | src/writer/creator.cpp:608-619 | A dirent of the table is no entry of the archive if and only if a descending chain of redirects leads from its path to one where nothing was added |
| CreatorRun.Create | src/writer/creator.cpp:206-260 | Running the creator's objects over any good list of additions (codes, table, clusters, then removing, numbering, sorting the MIME types, listing the titles, closing) leaves exactly the plan: the entries with their codes, redirect numbers, clusters and blobs, the MIME list, the main page's number or none if it was removed, the listed clusters, the title item's place; and the bytes of a listing of everything and of a listing of the front articles |
| CreatorRun.AddOne | src/writer/creator.cpp:528-561 | One addition moves the table, the MIME codes and the clusters to what the specification says of one addition more |
| CreatorRun.Settle | src/writer/creator.cpp:591-624 | The table becomes the entries; every dirent has its entry's rank or still 0, exactly the removed redirects are marked, each that stayed points at the dirent that was at its target, and the main page is dropped if it was removed |
| CreatorRun.Recode | src/writer/creator.cpp:626-654 | The MIME list becomes the sorted list of the names added, and each entry's code the place of its own name in it |
| CreatorRun.ListTitles | src/writer/titleListingHandler.cpp:69-74 | What a handler leaves is a listing of what it was handed and not removed, and its provider feeds those entries' numbers in that order, four bytes each |
| WholeArchive.ItemsComeBack | src/writer/creator.cpp:161-180 | For every sequence of additions, paths repeated and redirects leading anywhere: the first item added at a path is found there in the finished archive, with its title (its path, if it had none), its MIME type and exactly its content |
| WholeArchive.RedirectsComeBack | src/writer/creator.cpp:602-624 | The first redirect at a path without an item: if a descending chain of redirects leads from it to a path where nothing was added, its path is not found; otherwise it is found with its title, and the number it leads to is that of the entry at its target if and only if no such chain starts at the target |
| WholeArchive.NothingElseIsFound | src/fileimpl.cpp:277-280 | A path that nobody added is not found; with the first two rows, every path is accounted for |
| WholeArchive.FirstOfPath | src/writer/creator.cpp:468-492 | At every path where something was added there is a first item, or no item and a first redirect |
| WholeArchive.MainPageIs | src/writer/creator.cpp:303-306 | The header read back names no main page if none was asked for or if it is a redirect from which a descending chain leads to nothing, the entry at its path if it is the one that path keeps, and entry 0 if it was refused |
| WholeArchive.LargeItemExtends | src/writer/creator.cpp:297-301 | The major version is 6 if some item is larger than 2^32 - 1 bytes, and 5 otherwise |
| WholeArchive.PlanIsReadable | src/writer/creator.cpp:206-293 | What the creator makes of additions satisfies all that reading asks for, if it fits: a strictly sorted table, MIME codes, clusters and blobs in range, clusters and dirents that fit |
| WholeArchive.SmallCreationFits | src/writer/cluster.cpp:230-241 | What is asked of the finished file follows from what a caller can see: no two items at one path, a cluster limit below 4 GiB, no item of a size from 2^32 - 8 to 2^32 - 1, path and title of at most 238 bytes together, a MIME list that ends before byte 1024, a file below 2^64 bytes |
| WholeArchive.RefusedItemClosesArchive | src/writer/creator.cpp:479-485 | With a cluster limit of zero, for every list of items in which a path repeats, the finished archive's header is refused as insane |
| WholeArchive.ClusterFits | src/writer/creator.cpp:506-516 | A cluster filled under such a limit reads back, unless its only blob has one of those eight sizes |
| WholeArchive.PipelineFillsFile | src/writer/creator.cpp:255-280 | However the threads ran, the file and the recorded offsets are what writing the rest starts from |
| TitleSearch.FindTitle | src/fileimpl.cpp:305-349 | Searching the finished archive for a title, in the listing of front articles as the library does: found if and only if an entry of that namespace that was added with the hint has the title, and then at a place whose number is that of such an entry; for every order of equal titles that the sort may leave |
| TitleSearch.RefusedFrontNamesFirst | src/writer/creator.cpp:479-485 | A front article that the table refused or replaced stays in the listing, at a place whose number is 0 |
| TitleSearch.FrontIndexIsListing | src/fileimpl.cpp:147-175 | Looking the listing's path up, its dirent, its uncompressed cluster and the reader's offsets of its blob lead to exactly the bytes of the item that was added, so the search never falls back on the header's index |
| TitleSearch.SectionInArchive | src/fileimpl.cpp:166-174 | Any blob of an uncompressed cluster lies in the file where cluster offset plus the reader's blob offset says, in its full size |
| TitleSearch.TitlesRead | src/dirent_accessor.cpp:79-92 | Read by the numbers of any listing, the archive's titles are those of the listing in its order, which the binary search accepts and the integrity check finds right |
| TitleSearch.ListingIsEntries | src/writer/titleListingHandler.cpp:69-74 | A listing holds exactly the final entries among what was handed over, in the order of namespace and title, when the table refused none of it |
| TitleSearch.FullIndexIsListing | src/fileimpl.cpp:645-647 | With distinct paths, the index that the header points at is the four-byte numbers of a listing of all entries, each once |
| TitleSearch.CheckTitleListing | src/fileimpl.cpp:621-638 | The loop over neighbours accepts exactly if every number is that of an entry and no entry comes before one of a smaller namespace or, in the same namespace, of a smaller title |
| TitleSearch.PseudoTitleIsOrder | src/fileimpl.cpp:616-619 | Comparing pseudo-titles is comparing namespaces and then titles |
| TitleSearch.CheckAccepts | src/fileimpl.cpp:642-655 | The integrity check of both title indices accepts every finished archive of additions with distinct paths, for every order of equal titles |
| ReaderRun.LookUpRun | src/fileimpl.cpp:277-280 | The sampled lookup, the cached dirent accessor, the lazy cluster and its stream, run over a finished archive with caches of any size and any codec that meets its contract, give the answer of the specification reader, and so the title, type and content that were added |
| ReaderRun.ReadBlob | src/fileimpl.cpp:401-414 | Opening the cluster at an offset and asking it for a blob gives the blob of the specification, raw or through the decoder |
| ReaderRun.GetClusterReader | src/cluster.cpp:47-72 | Codes 0 and 1 give a raw reader of the file behind the info byte, codes 4 and 5 a decoder whose stream is what that decodes to |
| ReaderRun.EscapeDecodes | src/decoderstreamreader.h:59-75 | The assumptions on coder, decoder and codec can be met together: a decoder of one byte a call for the escaping code |

## Left out

- Pipeline: an exception in a thread, the sleeps, and a poll that finds nothing are not steps; a
  cluster's bytes are what its closed state writes, so compression itself takes no time; index tasks
  do nothing and their own counter is not modelled.
- ConcurrentCache: a function that throws (its promise is then never fulfilled) is outside the model;
  the computed value is any that the function may return for the key.
- StreamReader: codecs are abstract, with a stated contract (each call takes a prefix of its input,
  writes what comes next and does not stall); lzma and zstd are not modelled, and neither is a
  truncated or corrupt stream.
- ArchiveReader: a decoder gives back what was encoded whatever follows it in the file; a cluster is
  read from its offset on, without the bound that the next cluster would give.
- WholeArchive: an item's MIME type is the one passed on to be numbered; the default for an empty one and the
  compression hint are choices made before.
- TitleSearch.FindTitle: asks that each front article is the one its path keeps, since the place of another one in the
  listing says entry 0 (`TitleSearch.RefusedFrontNamesFirst`).
- ReaderRun.LookUpRun: asks, as `DirentLookup` does, that the sample of keys stays below 4 GiB; the cluster cache is in
  `ConcurrentCache`.
- LruCache: `std::list` is an order of nodes with stable names and `std::map` a map to them; node
  allocation is not modelled.
- PostProcessing: `std::set` is a strictly sorted sequence; the tree is not modelled. Whether a dirent is a
  redirect is fixed when it is created, where the source asks whether its MIME code is 0xffff.
- NarrowDown.NarrowDown.Add: says what the grid decodes to only while the packed area is below 4 GiB, the range of
  its offsets.
- NarrowDown.NarrowDown.Close: likewise.
- DirentLookup.DirentLookup.constructor: asks that the packed sample stays below 4 GiB, beyond which its 32-bit
  offsets wrap.
- ReaderCluster.Cluster.ReadHeader: asks that the stream holds the table its first offset announces; what a reader does
  past the end of its stream is not modelled.
- Md5.Md5Context.Update: asks that the loop index does not wrap, the exact condition of `Md5.LoopStopsIff`; beyond it
  the source reads past its input.
- Md5.Verify: a checksum position less than sixteen bytes before the end, whose read fails, is not modelled.
- FindByPath: entries are compared as namespace and url; ranges are pairs of positions, not iterators.
- TitleListing: range exactness of `findByTitle` and `iterByTitle`; titles may repeat, so the begin index is
  not determined.
- ItemPlacement: the statistics counters, `isEmpty` and the archive-wide `isExtended` flag; the latter is a
  function of the clusters in `ArchiveFormat`.
- Header: the uuid is sixteen given bytes; its generation from time is not modelled.
- File descriptors, `pread`, memory mapping, Windows and Unix layers, environment values: a file is a
  sequence of bytes, and a short read or a failed write does not happen.
- The split of an archive into parts on disk and the search for `.zimaa` names; parts are given.
- Sizes beyond 2^64, and `size_t` narrower than 64 bits.
- Xapian indexing and search, ICU accent removal, the HTML and template parsers, logging.
- Integrity checks other than the checksum, the quick check and the orders of dirents and titles: loops over entries
  that compare one field with a bound.
- `getIndexByClusterOrder` and entries in cluster order: a sort of pairs.
