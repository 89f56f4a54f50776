# zimru, verified model

zimru reads and writes ZIM archives (openZIM, "ZIM file format"): a header, a list of media types, compressed clusters
of blobs, and tables of directory entries sorted by path and by title. This project models, in Dafny, the streaming
writer together with the reader that must recover what was written, and the tools around them, and proves what they
promise.

| part | modules |
|---|---|
| bytes, text, numerals, results | `Outcome`, `Bytes`, `Text`, `Numerals`, `Counting` |
| encoders and parsers | `Headers`, `MimeTypes`, `Dirents`, `Clusters` |
| reader | `Reader`, `Extents`, `Ranges`, `Cache`, `Checks` |
| bin-packing, as functions on values with their invariant, and the inputs at the decode limit | `Packing`, `Chunked`, `Limits` |
| encode pipeline, as a transition system over every interleaving | `Pipeline` |
| `finalize` | `Graph`, `Sorting`, `Tables`, `Histogram`, `Census`, `Deferred`, `Closing`, `Assembly`, `Staging`, `Layout`, `Sealing`, `ReadBack`, `Gate` |
| the writer object: fields updated in place by its methods | `Writer` (Creator.dfy) |
| tools | `Recreate` with `Metadata`, `Split`, `Dump`, `Symlinks`, `Civil`; `Graph` also holds the loop checks of zimcheck |

The main results, with the members that state them:

1. **Round trip.** `Writer.Creator.Finalize` fails exactly for an open item, a type list without room for the types it
   still has to add, a redirect without target or in a loop, a scratch file that failed or a cluster the codec refuses,
   and a file its closing checks refuse. All but the last are conditions on the state before the call: which clusters the
   codec is going to be given is a function of that state (`Closing.Closed`), each of them is made of accepted bodies
   alone, and a codec that refuses nothing leaves nothing unencoded (`Writer.Creator.TotalEncodes`). Within the limits of
   the format (fewer than 2^32 entries, clusters and blobs per cluster, sizes below 2^64, outside of which the code's
   unchecked casts cut values off) the last happens only with a title listing of the caller's own; without one,
   `finalize` then succeeds whenever the other conditions hold. The file holds exactly the added entries, the histogram
   and the listing, its clusters nothing but their bodies, and within those limits a reader finds one entry per key with
   its title and type, its redirect target, or its body (`ReadBack.ReadsAllBack`, `Writer.BodyDelivered`); a chain is
   followed exactly when it has at most 16 redirects (`ReadBack.FollowsToItem`). The proof runs through an invariant kept
   by every operation in every order (`Packing.Faithful`: every pending or committed dirent designates exactly its own
   body, and every cluster holds accepted bodies only).

   Reading the body back has a condition, because the writer accepts what the reader's decode limit of 16 GiB refuses.
   As long as the bucket target plus 8 bytes for each entry and one more stays within that limit, a body is read back
   if and only if it is stored uncompressed or is at least 16 bytes below the limit (`ReadBack.BodyFits`); otherwise the
   answer is a decompression error. `Limits.OversizedBody` shows a body that is too long, `Limits.SharedTooLong` two
   short enough ones that a larger target lets share a cluster that is not, and `Limits.RoomyExact` that the bound on
   the target is exact.
2. **Pipeline.** Every interleaving of producer, workers and writer, failures included, leaves the file of a sequential
   writer (`Pipeline.RefinesSequentialWriter`), keeps the byte budget (`Pipeline.BudgetSafe`), is never stuck
   (`Pipeline.DeadlockFree`) and ends within a stated number of steps with every permit released
   (`Pipeline.RunsEndClean`).
3. **The closing checks pass** on every file the writer produces within the limits of the format, unless the caller
   supplied a title listing of its own (`Gate.GatePasses`, `Writer.GateOpens`).
4. **Recreate keeps the content.** When `Recreate.Run` succeeds on a dirent-ordered archive (with non-empty URLs if it is
   a legacy one), the output shows the same entries in the same order, in terms of the view `readall --content-md5`
   hashes. No body of the source is too long for the copy: stored ones stay stored, and compressed ones were within the
   limit already. Only a bucket target too large for the decode limit can spoil the copy, so the result asks for
   the bound of item 1 on it; `Recreate.ContentPreserved` says what happens at any target. The copy also has all metadata of
   the source but the counter and the scraper's name, which are its own, and no other (`Metadata.AllMetadata`); its main
   page leads where the source's does (`Recreate.MainPageKept`); and what is left behind is named (`Recreate.EachEntryOnce`).
5. **Lookups and ranges are exact** on sorted tables (`Reader.ByPathExact`, `Ranges.ByTitleExact`,
   `Ranges.TitlePrefixExact`, `Ranges.PrefixEntriesExact`, `Ranges.NamespaceRangeExact`). `namespace_range` is exact for
   every namespace below 255 and for 255 exactly when that namespace is empty, because its saturating upper bound then
   equals the lower one; `Ranges.LastNamespaceLost` is an archive whose only entry it loses.
6. **Walks.** The memoised walks of `finalize`, zimcheck and zimwriterfs agree with walking every chain on its own. All
   their loops together, following and labelling, take linearly many rounds.
7. **Text and types.** Valid UTF-8 is exactly what encodes a sequence of scalar values (`Text.ValidUtf8Exact`); media types
   are accepted and stripped of their parameters exactly by their grammar (`MimeTypes.ValidMimeExact`,
   `MimeTypes.ParametersExact`, `MimeTypes.BareExact`); a reader of the counter finds the counts it was made of
   (`Histogram.RenderReads`).
8. **Split, dump, cache, date.** Greedy splitting is optimal; dump destinations never collide and every link leads to
   where its target lies; the cluster cache is transparent and within budget; the date arithmetic is the Gregorian
   calendar.

Zstandard, xz and MD5 are parameters. `Clusters.Codec` is any set of (de)compressors whose decoders give back what the
encoders were given, within the decode limits of `src/cluster.rs:47-54`; a compressor may also refuse its input.

Where the repository's comments and its code differ, the model follows the code: the writer emits version 6.3
(`src/writer.rs:2705-2708`, the comment at line 16 says 5.1), and pipeline clusters land in submission order
(`src/writer.rs:1570-1581`), not in completion order as `src/archive.rs:159-163` says.

## Model

| member | source | states |
|---|---|---|
| `Bytes.LeRoundTrip` | src/raw.rs:13-31 | a little-endian field reads back exactly the numbers below 256^width; any other number is cut off |
| `Bytes.LeDigits` | src/raw.rs:13-31 | byte i of a field is digit i of the number in base 256 |
| `Bytes.AtJoin` | src/writer.rs:2658-2689 | each part of a concatenation lies at the sum of the lengths before it |
| `Text.CStrAtStored` | src/raw.rs:36-49 | a NUL-terminated string of valid UTF-8 without NUL reads back, with the offset behind its terminator |
| `Text.ValidUtf8Exact` | src/raw.rs:36-49 | valid UTF-8 is exactly the concatenation of the encodings of some sequence of scalar values, given arithmetically |
| `Text.CStrAtExact` | src/raw.rs:36-49 | a NUL-terminated field is read as it is when it encodes scalar values and refused as bad UTF-8 otherwise |
| `Text.HasControlExact` | src/writer.rs:1196-1203 | a text has a control character exactly when one of its scalar values is in U+0000-U+001F or U+007F-U+009F |
| `Text.Utf8BytesSmall` | src/archive.rs:690-701 | no byte of valid UTF-8 reaches 0xF5, so 0xFF sorts behind every title |
| `Text.CompareTotal` | src/dirent.rs:210-212 | byte order is total: exactly one of less, equal, greater, and equal only for the same bytes |
| `Text.LtExact` | src/dirent.rs:210-212 | a text is smaller exactly when it ends first or has the smaller byte at the first difference |
| `Headers.HeaderRoundTrip` | src/header.rs:46-81 | an encoded header parses back field by field for major versions 5 and 6, and is refused for any other |
| `Headers.MimesRoundTrip` | src/mime.rs:13-26 | a list of non-empty NUL-free types parses back, and parsing ends where the encoding ends |
| `Headers.ParseMimeList` | src/mime.rs:13-26 | the reading loop computes the parse of the list, including every error |
| `Headers.EncodeMimeList` | src/writer.rs:2862-2870 | the writing loop computes the encoding of the list |
| `MimeTypes.ValidMimeStorable` | src/writer.rs:1218-1276 | an accepted media type is never empty and can be stored NUL-terminated |
| `MimeTypes.ValidMimeExact` | src/writer.rs:1218-1276 | a media type is accepted exactly when it is printable ASCII, fits the list, and is a token, a slash, a token and a written-out run of parameters |
| `MimeTypes.ParametersExact` | src/writer.rs:1239-1275 | what is accepted as parameters is exactly a run of `; name = value` with token or quoted values, and space between the parts and behind |
| `MimeTypes.BareExact` | src/writer.rs:1337 | the bare type is t exactly when the type is t, free of semicolons, with space around it and perhaps a semicolon and more behind |
| `MimeTypes.BareOfTyped` | src/writer.rs:1337 | of an accepted type exactly type/subtype is left, with neither semicolon nor equals sign |
| `MimeTypes.PageTypeExact` | src/writer.rs:2552-2558 | a page type is exactly text/html in any case, with or without parameters |
| `MimeTypes.OwnTypesValid` | src/writer.rs:2443-2463 | the types the writer adds by itself pass its own validation |
| `MimeTypes.InternKeeps` | src/writer.rs:1278-1302 | interning keeps the list free of repetitions, inside its reserved region, and its indices below the reserved values |
| `MimeTypes.InternAllExact` | src/writer.rs:1278-1302 | a list takes several types exactly when it has room for the missing ones, in number and in bytes, and then they are appended |
| `MimeTypes.MissingExact` | src/writer.rs:1278-1302 | the missing types are the wanted ones that are not in the list, each once |
| `MimeTypes.EncodeMimesLen` | src/writer.rs:1278-1302 | the length the interning limit accounts for is the length of the encoded list |
| `Dirents.DirentRoundTrip` | src/dirent.rs:89-141 | an encoded dirent parses back to what was stored, an elided title reading as the path |
| `Dirents.ProbesAgree` | src/dirent.rs:150-177 | on every dirent that parses, the cheap key probes read the keys of the full parse |
| `Numerals.DecimalExact` | src/writer.rs:1350 | a numeral has digits only, no superfluous zero in front, and reads back from the left as its number |
| `Clusters.Encode` | src/writer.rs:2932-3037 | the encoder's loops compute the encoding that the round trip is about, failing exactly with the codec |
| `Clusters.PayloadEntry` | src/writer.rs:2932-2963 | no offset is cut off by its cast, with 4-byte and with 8-byte offsets: entry i is the table plus the lengths before blob i |
| `Clusters.ParseEncoding` | src/cluster.rs:74-113 | parsing any encoding of a cluster gives exactly its blobs, on both sides of the switch to 8-byte offsets, and fails exactly when a compressed payload exceeds the decode limit |
| `Clusters.ParseTiles` | src/cluster.rs:74-151 | the blobs of any accepted cluster are all readable and tile the payload from the end of the table to the last offset |
| `Clusters.CompressedBlobFits` | src/cluster.rs:74-113 | a blob read from a compressed cluster is at least 16 bytes below the decode limit |
| `Clusters.ValidateOffsetsExact` | src/cluster.rs:221-233 | a table is accepted exactly when it starts right behind itself and never steps back or past the payload |
| `Clusters.ValidateOffsetsLoop` | src/cluster.rs:221-233 | the validating loop computes that answer |
| `Clusters.InPlaceAgrees` | src/cluster.rs:161-191 | for an accepted stored cluster the in-place range addresses the same bytes as the parsed one, with the same errors; for a compressed one it declines |
| `Clusters.StreamHeaderIsTable` | src/writer.rs:1767-1782 | the table written ahead of a streamed body is the table of the one-blob cluster, with the same offset width |
| `Clusters.StreamedRawIsEncoded` | src/writer.rs:1767-1782 | the raw passthrough file is, for any chunking, byte for byte the encoded cluster |
| `Reader.EntryByNsPath` | src/archive.rs:595-623 | the search loop computes the lookup of the next row, on any file |
| `Reader.ByPathExact` | src/archive.rs:595-623 | on sorted dirents a lookup finds an entry with the key exactly when there is one |
| `Reader.DirectAccessExact` | src/archive.rs:1105-1128 | for an accepted stored cluster the offset and size address exactly the bytes of the blob in the file, with the errors of reading it; for a compressed one there is none |
| `Reader.UnfollowedExact` | src/archive.rs:1504-1520 | a redirect that is not followed is no item; any other entry is its own |
| `Reader.TitleListingExact` | src/archive.rs:346-367 | from version 6.1 on the v1 listing is used when present; otherwise, and in older files at once, the table of the header, and without one the v0 and then the unversioned listing |
| `Extents.RangesDisjoint` | src/archive.rs:1152-1200 | distinct offsets below the first table give non-empty, disjoint byte ranges, in whatever order the indices come |
| `Extents.RangesCover` | src/archive.rs:1152-1200 | every byte from the lowest offset to the first table lies in some cluster's range |
| `Extents.LaidClusterRaw` | src/archive.rs:1193-1207 | on a file whose clusters lie one after the other the reader cuts out exactly each cluster's bytes |
| `Ranges.LowerBound` | src/archive.rs:576-592 | the shared search loop computes the lower bound for any probe, errors included |
| `Ranges.NamespaceRangeExact` | src/archive.rs:869-874 | the range holds exactly the entries of the namespace if and only if the namespace is below 255 or has no entries |
| `Ranges.LastNamespaceLost` | src/archive.rs:869-874 | the failing input: an archive with one entry, in namespace 255, whose range is empty |
| `Ranges.ByPrefix` | src/archive.rs:934-968 | the iterator, driven to its end, yields the run of the next row |
| `Ranges.PrefixEntriesExact` | src/archive.rs:1848-1867 | on sorted dirents the iterator yields exactly the entries with the prefix, in path order |
| `Ranges.TitlePrefixExact` | src/archive.rs:690-724 | on an accepted listing the range holds exactly the listed entries of the namespace whose title has the prefix |
| `Ranges.EntryByNsTitle` | src/archive.rs:628-675 | the search and scan loops compute the lookup of the next row |
| `Ranges.ByTitleExact` | src/archive.rs:628-675 | with listings the checks accept, full or subset, a title lookup finds an entry with that effective title exactly when there is one |
| `Checks.CheckDirentPtrs` | src/archive.rs:1273-1286 | true exactly when every dirent can be read |
| `Checks.CheckDirentOrder` | src/archive.rs:1292-1309 | true exactly when neighbouring path keys never step back |
| `Checks.ValidTitleListing` | src/archive.rs:1337-1360 | true exactly when the listing is in range, free of repetitions, in title order, and full or a content subset |
| `Checks.CheckTitleIndex` | src/archive.rs:1314-1335 | true exactly when every listing present is valid and some listing is present |
| `Checks.CheckClusterPtrs` | src/archive.rs:1365-1376 | true exactly when every cluster pointer is below the file length |
| `Checks.CheckMimetypes` | src/archive.rs:1382-1403 | true exactly when every article's type is in the list |
| `Checks.VerifyArchive` | src/writer.rs:2805-2828 | the gate opens exactly when all five checks hold |
| `Checks.CheckedDirents` | src/archive.rs:1273-1309 | dirents that pass the first two checks form a table path lookups can search: adjacent order is global order |
| `Checks.SortedIsValid` | src/archive.rs:1337-1360 | conversely, a listing in title order without repetitions is accepted |
| `Cache.ClusterByteCache.LookUp` | src/archive.rs:76-87 | a hit returns the resident cluster and makes it the most recent; counters move by one |
| `Cache.ClusterByteCache.Insert` | src/archive.rs:89-96 | the inserted cluster is resident and most recent whatever its size, and the total stays exact and within budget |
| `Cache.ClusterByteCache.SetBudget` | src/archive.rs:98-101 | shrinking evicts down to the new budget |
| `Cache.ClusterByteCache.EvictToBudget` | src/archive.rs:103-112 | the loop leaves the entries of the next row and counts what it dropped |
| `Cache.EvictedExact` | src/archive.rs:103-112 | what stays is within budget unless a single entry, and is the longest recent stretch that is |
| `Cache.ClusterByteCache.LoadCluster` | src/archive.rs:1216-1227 | the answer is always the uncached one, whatever other threads do to the cache between the two lock sections, and it is resident afterwards |
| `Graph.Classify` | src/writer.rs:2534-2568 | fails exactly when the redirect graph has a cycle; otherwise each node has the flag of the end of its own chain; the following and the draining loops together take at most three rounds per node |
| `Graph.CheckRedirects` | src/bin/zimcheck.rs:626-655 | reports a loop exactly when the graph has a cycle, at any depth; colouring grey and then black takes at most three rounds per node in all |
| `Graph.FollowLoop` | src/bin/zimcheck.rs:1171-1181 | finds the end of a chain exactly when it has one |
| `Packing.BucketKey` | src/writer.rs:2152-2187 | a bucket key starts with the tag of the effective compression, so no cluster mixes compressions |
| `Packing.SharedBucket` | src/writer.rs:2152-2187 | two items share a bucket exactly when they have the same compression and, by the strategy, any path and type, the same type, the same extension or the same first path segment |
| `Packing.ExtensionExact` | src/writer.rs:2171-2174 | the extension is what follows the last dot, unless a slash follows too |
| `Packing.FirstSegmentExact` | src/writer.rs:2175-2178 | the first segment is what precedes the first slash |
| `Packing.CompressionExact` | src/writer.rs:151-162 | a body without either opt-out gets the compression of the writer; with one it is stored |
| `Packing.PushFills` | src/writer.rs:2192-2246 | a push closes what the bucket held exactly when the body no longer fits behind it, and the bucket with the body exactly when it reaches the target; nothing else is submitted |
| `Packing.FlushKeeps` | src/writer.rs:2253-2293 | flushing a bucket loses nothing: each of its dirents designates its own body in the new cluster, everything else stays |
| `Packing.FlushKnown` | src/writer.rs:2253-2293 | a flushed cluster holds the bodies of accepted items and nothing else |
| `Packing.PutKeeps` | src/writer.rs:2192-2246 | a body put into a bucket is designated by its pending dirent, and nothing else changes |
| `Packing.PushKeeps` | src/writer.rs:2192-2246 | pushing an item records exactly its title, type and body under its key and keeps the invariant: own body per dirent, one compression per cluster, one blob or within the target, each slot filled once |
| `Packing.PushUnderfull` | src/writer.rs:2192-2246 | between operations no bucket holds the target or more |
| `Packing.PushMimes` | src/writer.rs:2192-2246 | a push fails only for a type without room, and adds only that type to the list |
| `Packing.SubmitSlots` | src/writer.rs:1601-1628 | a submitted cluster takes a fresh slot; no slot is taken twice |
| `Chunked.BeginKeeps` | src/writer.rs:1732-1876 | beginning an item changes nothing accepted before; a slot is reserved exactly for a large announced size and a streamable compression |
| `Chunked.BeginExact` | src/writer.rs:1732-1876 | an item can be begun exactly when none is open, its size leaves room for the table, and, when streamed, its type fits |
| `Chunked.ChunkExact` | src/writer.rs:1898-1957 | a chunk is refused exactly when nothing is open or it would exceed the announced size |
| `Chunked.CompleteExact` | src/writer.rs:1959-1990 | an item can be ended only with exactly the announced number of bytes |
| `Chunked.ChunkKeeps` | src/writer.rs:1898-1957 | a chunk is appended whole, or refused whole |
| `Chunked.ScratchEncodes` | src/writer.rs:1785-1876 | the scratch file of a complete streamed item, stored or compressed as it arrives, is an encoding of the one-blob cluster with its body |
| `Chunked.EndKeeps` | src/writer.rs:1959-2084 | ending a complete item records exactly the received bytes, buffered or streamed; an incomplete item stays open; a failed push loses that item only |
| `Limits.RoomyExact` | src/cluster.rs:47-54 | compressed clusters of n bodies within the target can all be decoded if and only if target + 8 (n + 1) is within the decode limit |
| `Limits.OversizedBody` | src/writer.rs:2192-2293 | a compressed body less than 16 bytes below the limit is accepted, and its cluster cannot be decoded |
| `Limits.SharedTooLong` | src/writer.rs:2192-2293 | with a target above the bound two accepted bodies that fit alone share a cluster that cannot be decoded |
| `Pipeline.InvStep` | src/writer.rs:1514-1670 | every atomic step of producer, workers and writer, failing ones included, keeps the pipeline invariant |
| `Pipeline.RefinesSequentialWriter` | src/writer.rs:1536-1587 | in every state of every run the file is the base and the encodings of jobs 0..next in order, plus at most a partial write of the next job, and the recorded offsets are where the jobs start |
| `Pipeline.BudgetSafe` | src/writer.rs:467-505 | `used` is the sum of the live permits, within the limit or held by one permit with every other live one of size zero; the peak is bounded by the limit or one request |
| `Pipeline.NeverOverflows` | src/writer.rs:476-489 | with the limit and every request at most max, no reachable state counts more than max, and an admitted request does not lift the counter above it |
| `Pipeline.NeverStuck` | src/writer.rs:1601-1628 | while a job is under way some thread other than the producer can move, full channels and oversized jobs included |
| `Pipeline.DeadlockFree` | src/writer.rs:1634-1670 | a reachable state in which nothing can move is final |
| `Pipeline.MeasureFalls` | src/writer.rs:1514-1670 | every step lowers the measure |
| `Pipeline.RunsEndClean` | src/writer.rs:1634-1670 | a run has at most 9 steps per job plus workers plus 2; where it cannot go on every permit is back; a clean end has written every submitted job; a failure has a cause |
| `Sorting.Sort` | src/writer.rs:2465-2470 | a permutation of the ids in key order |
| `Sorting.BinarySearch` | src/writer.rs:2480-2529 | finds a key exactly when it is there |
| `Tables.SortByPath` | src/writer.rs:2465-2470 | a permutation of the entries, in path order |
| `Tables.NoDuplicates` | src/writer.rs:2472-2475 | true exactly when no two neighbours have the same key |
| `Tables.Resolve` | src/writer.rs:2480-2529 | fails exactly when some redirect has no target; otherwise each redirect carries the number of the entry it names and nothing else changes |
| `Tables.DanglingIsMissing` | src/writer.rs:2480-2529 | a redirect dangles exactly when its target was never added |
| `Tables.CyclicIsLooping` | src/writer.rs:2534-2568 | the table's graph has a cycle exactly when an added alias leads back to itself |
| `Tables.YieldsIsEligible` | src/writer.rs:2534-2568 | the memoised flag of an entry is what walking its own chain gives |
| `Tables.ListPages` | src/writer.rs:2531-2600 | fails exactly when aliases loop; otherwise lists exactly the content entries that lead to a content page of type text/html in any case, with or without parameters, in title order; at most three loop rounds per entry |
| `Histogram.BuildCounter` | src/writer.rs:1316-1353 | the array, fold and join compute the counter text, and for accepted types a reader of that text finds exactly the folded counts |
| `Histogram.RenderReads` | src/writer.rs:1343-1352 | the text splits at semicolons and equals signs back into exactly the pairs it was made of |
| `Histogram.FoldExact` | src/writer.rs:1316-1353 | every bare media type in use appears once, with the number of content articles of that type; `MimeTypes.BareExact` says what the bare type is |
| `Census.ListArticles` | src/writer.rs:2378-2394 | the scan over committed dirents and the pending ones of each bucket computes the list of the next row |
| `Census.ArticlesListed` | src/writer.rs:2378-2394 | that list has every accepted item exactly once, with its namespace and type |
| `Census.CounterCounts` | src/writer.rs:2353-2406 | a reader of the generated counter finds each type of the accepted content, its parameters left out, once, with the number of content items of that type |
| `Deferred.Redeem` | src/writer.rs:2325-2351 | a promise that has been pushed stays kept under its key, with all the others |
| `Deferred.ValidArticleExact` | src/writer.rs:1196-1276 | an article is accepted exactly when its namespace is a printable character, path and title hold no control character, and its type is a well-formed media type |
| `Deferred.Replace` | src/writer.rs:1004-1021 | changing the main page replaces exactly that promise |
| `Assembly.FlushedTabulates` | src/writer.rs:2408-2441 | once every bucket is flushed the dirents are the accepted items, one each |
| `Assembly.FilledTabulates` | src/writer.rs:2569-2600 | filling the reserved listing entry adds the listing and changes nothing else |
| `Assembly.PlacedLaid` | src/writer.rs:2090-2143 | once every slot is placed the clusters lie one after the other, each decodable to its plan, spliced ones included |
| `Staging.DirentCursor` | src/writer.rs:2630-2641 | the cursor over lengths gives each dirent's offset |
| `Staging.WriteOut` | src/writer.rs:2658-2721 | staging, seeking back and appending the digest produce exactly the file of the layout |
| `Layout.FileIsWritten` | src/writer.rs:2621-2689 | the positions computed ahead of the bytes are where the bytes end up |
| `Layout.DirentPlace` | src/writer.rs:2875-2930 | the length formula sums to where each dirent is rendered |
| `Layout.ReadsCluster` | src/archive.rs:1204-1207 | decoding cluster c of the file gives the blobs of plan c, or fails exactly past the decode limit |
| `Sealing.SealCarries` | src/writer.rs:2612-2689 | within the limits of the format the sealed image is well formed and carries exactly the entries, in clusters of one blob or within the target, and of no more blobs than entries |
| `ReadBack.ReadsAlias` | src/archive.rs:1529-1535 | a redirect's one-step target is the entry it names |
| `ReadBack.ReadsAllBack` | src/writer.rs:2315-2721 | the reader opens the file and finds exactly one entry per key, with title and type, redirect target, or body; the body is read back exactly when its cluster decodes, which for a target with room means exactly when the body fits |
| `ReadBack.FollowsToItem` | src/archive.rs:1504-1526 | following redirects reaches the end of a chain exactly when it has at most 16 of them, and reports a loop otherwise |
| `Gate.PresentListing` | src/archive.rs:380-400 | the generated listing is read back as the numbers written |
| `Gate.GatePasses` | src/writer.rs:2805-2828 | the written file passes all five checks when the caller supplied no title listing |
| `Writer.Creator.InternMime` | src/writer.rs:1278-1302 | the map and the list stay in step; a type gets the index of its place in the list |
| `Writer.Creator.PushItem` | src/writer.rs:2192-2246 | the method on the fields is the push whose invariant is proved on values; on error the dirents and buckets are as before |
| `Writer.Creator.FlushBucket` | src/writer.rs:2253-2293 | the method on the fields is that flush |
| `Writer.Creator.TryAddItem` | src/writer.rs:720-732 | accepts exactly an item with valid strings, a free key and a type that fits, and then promises exactly that item; otherwise changes nothing |
| `Writer.Creator.BeginChunkedItem` | src/writer.rs:769-798 | opens an item only under a free key; nothing is promised before its end |
| `Writer.Creator.ChunkedItemChunk` | src/writer.rs:803-810 | appends a chunk whole or changes nothing |
| `Writer.Creator.EndChunkedItem` | src/writer.rs:814-821 | exactly the announced and received bytes become the promised body |
| `Writer.Creator.TryAddRedirection` | src/writer.rs:885-906 | promises the redirect under its free content key; otherwise changes nothing |
| `Writer.Creator.TryAddMetadataWithMimetype` | src/writer.rs:946-966 | promises the metadata entry under its free key; otherwise changes nothing |
| `Writer.Creator.TryAddIllustration` | src/writer.rs:979-990 | promises the illustration under its free key, from which its side reads back (`Metadata.SideOfPath`); otherwise changes nothing |
| `Writer.Creator.TrySetMainPath` | src/writer.rs:1004-1021 | promises, or replaces, the main page redirect |
| `Writer.Creator.PushCounter` | src/writer.rs:2353-2406 | adds a text in which a reader finds the histogram of everything added so far, unless the caller brought a counter; fails exactly when its type has no room |
| `Writer.Creator.PushMetadata` | src/writer.rs:2325-2351 | pushes the waiting metadata, and fails exactly when their types have no room |
| `Closing.PushAllMimes` | src/writer.rs:2325-2351 | items can all be pushed one after the other exactly when their types fit the list together |
| `Closing.ClosedFits` | src/writer.rs:2325-2412 | whatever the buckets hold, everything that waits can be packed when its types fit |
| `Closing.SubmitsEncode` | src/writer.rs:1634-1670 | the cluster of the generated listing is never the one that cannot be encoded |
| `Closing.SomeRefused` | src/writer.rs:1634-1670 | when some submitted cluster cannot be encoded, the codec refuses a cluster made of accepted bodies alone |
| `Writer.Creator.Pack` | src/writer.rs:2325-2412 | the draft becomes the one determined by the state before the call, with every bucket closed; fails exactly when the types of the waiting entries and the counter have no room together |
| `Writer.Creator.Collect` | src/writer.rs:2325-2463 | fails exactly when the types of the waiting entries, the counter and the listing have no room together; otherwise the clusters submitted are those determined by the state before, and hold what was added and nothing else |
| `Writer.Creator.FlushAllBuckets` | src/writer.rs:2299-2310 | closes every bucket that holds something, in the one order of their keys; what was added is unchanged |
| `Writer.Creator.Arrange` | src/writer.rs:2465-2600 | fails exactly when a target was never added or aliases loop; the duplicate check never fires |
| `Writer.Creator.ShutdownPipeline` | src/writer.rs:1634-1670 | the file grows by the submitted clusters in order and each slot gets its offset; fails exactly when a cluster cannot be encoded |
| `Writer.Creator.DrainStreamingTasks` | src/writer.rs:2090-2143 | scratch files follow in slot order, and every slot has been filled |
| `Writer.Creator.WriteTables` | src/writer.rs:2612-2721 | the file becomes the layout of the sealed image with the digest of all that precedes it |
| `Writer.GateOpens` | src/writer.rs:2805-2828 | within the format's limits the closing checks pass unless the caller brought a title listing |
| `Writer.BodyDelivered` | src/archive.rs:1660-1666 | for a target with room, a reader of the finished file gets a body if and only if it is stored or at least 16 bytes below the decode limit, and a decompression error otherwise |
| `Writer.Creator.TotalEncodes` | src/writer.rs:1634-1670 | with complete scratch files and a codec that refuses nothing, nothing `finalize` submits is unencodable |
| `Writer.Creator.Finalize` | src/writer.rs:2315-2721 | each way to end has its exact condition over the state before the call: open item, no room for the types, missing or looping targets, a failed scratch file or a cluster the codec refuses; otherwise success exactly when the written file passes the checks, which within the format's limits it does without a title listing of the caller's. An unencodable cluster is made of bodies of the archive; the image consists of the determined clusters, and the file delivers exactly what was added |
| `Recreate.CanonicalOrder` | src/bin/zimrecreate.rs:463-471 | content paths order as the keys do, for legacy archives too when no URL is empty; so different entries get different paths |
| `Metadata.SideOfPath` | src/bin/zimrecreate.rs:515-529 | the path an illustration is stored under parses back to its side |
| `Metadata.DueFirst` | src/bin/zimrecreate.rs:338-354 | the first metadata entry of a path goes in and is the only new metadata |
| `Metadata.DueAgain` | src/bin/zimrecreate.rs:338-354 | a further entry of the same path is passed over, and the first stays |
| `Recreate.CopyMetadata` | src/bin/zimrecreate.rs:338-354 | hands on an illustration under its side length, anything else under its own path with its type and bytes, the first time the path occurs |
| `Recreate.EachEntryOnce` | src/bin/zimrecreate.rs:268-290 | every entry is content, is copied as metadata, or belongs to the named rest that is left behind, and only one of these |
| `Recreate.FirstPass` | src/bin/zimrecreate.rs:268-356 | every entry has been given to the writer as the source shows it, or waits for the second pass, or is not content; all metadata is copied and nothing else is metadata |
| `Recreate.CopyMain` | src/bin/zimrecreate.rs:201-211 | the main page is declared as the content path of the entry the source main page leads to, and none without one |
| `Recreate.SecondPass` | src/bin/zimrecreate.rs:378-430 | every waiting article is given its own title, type and body, and a body from a stored cluster is stored again |
| `Recreate.Run` | src/bin/zimrecreate.rs:167-446 | on success every content entry of the source, and no other, was given to the writer, and so was all metadata with the given scraper name, and no other; the main page is forwarded; and for a target with room the copy opens and has the same content view as the source |
| `Recreate.MetadataBack` | src/bin/zimrecreate.rs:338-354 | a reader of the copy finds each metadata article with the bytes and type of the source, unless it is too long for a compressed cluster |
| `Recreate.MainPageKept` | src/bin/zimrecreate.rs:201-211 | following the main page of the copy gives the content entry the main page of the source leads to |
| `Recreate.ViewLists` | src/bin/zimru.rs:233-268 | a content view lists exactly the content entries, in path order |
| `Recreate.ContentPreserved` | src/bin/zimrecreate.rs:268-430 | at any target the content views are equal if and only if every output cluster with content can be decoded; otherwise the output cannot be listed |
| `Recreate.Preserved` | src/bin/zimrecreate.rs:268-430 | a successful copy has the content view of its source for every target with room for its entries, with no condition on the bodies |
| `Recreate.GivenFits` | src/bin/zimrecreate.rs:378-430 | no body the source gives is too long for the copy |
| `Split.PartEnds` | src/bin/zimsplit.rs:114-165 | for positive offsets: cuts rise to the end of the file, each a boundary, each part within the size unless forced, with the fewest parts possible; an error without force means every split needs more than 676 parts |
| `Split.SplitExists` | src/bin/zimsplit.rs:114-165 | a split exists exactly when no gap between neighbouring boundaries exceeds the size |
| `Split.CopyParts` | src/bin/zimsplit.rs:226-245 | the copy loop writes the bytes between the cuts |
| `Split.PartsJoin` | src/bin/zimsplit.rs:226-245 | the parts concatenate to the file |
| `Split.SuffixesAscend` | src/bin/zimsplit.rs:191-202 | suffixes aa to zz sort in part order |
| `Dump.SafePathExact` | src/bin/zimdump.rs:966-981 | a sanitised path has only plain names, and such paths stay as they are |
| `Dump.SafePathKeeps` | src/bin/zimdump.rs:966-981 | the segments of a sanitised path are all the proper segments of the path, in order, or a single underscore |
| `Dump.BuildEscape` | src/bin/zimdump.rs:937-953 | the escaping loop computes the escape |
| `Dump.UnescapeExact` | src/bin/zimdump.rs:937-953 | percent-decoding the escape gives the path |
| `Dump.EscapeInjective` | src/bin/zimdump.rs:937-953 | different paths have different escaped names |
| `Dump.PlacesApart` | src/bin/zimdump.rs:583-616 | different entries get different destinations, and none is a directory on the way to another |
| `Dump.LinkResolves` | src/bin/zimdump.rs:883-891 | followed from the directory of the stub, the relative link leads to the target |
| `Dump.Plan` | src/bin/zimdump.rs:583-670 | files and stubs are placed as decided up front |
| `Dump.StubsLead` | src/bin/zimdump.rs:654-670 | a stub whose target is dumped leads from where it lies to where the target lies, relocated or not |
| `Symlinks.NormalizeWithin` | src/bin/zimwriterfs.rs:690-709 | the loop computes the normalised path |
| `Symlinks.Cancels` | src/bin/zimwriterfs.rs:690-709 | a name followed by `..`, and a `.`, can be left out anywhere inside the root; with the fixed point this gives every name of the result |
| `Symlinks.StackExact` | src/bin/zimwriterfs.rs:690-709 | a path stays inside the root exactly when no prefix of it climbs above |
| `Symlinks.NormalizedFixed` | src/bin/zimwriterfs.rs:690-709 | a normalised path is normalised to itself |
| `Symlinks.ResolveSymlinks` | src/bin/zimwriterfs.rs:637-685 | the cached walk emits (link, file), in link order, if and only if the uncached chain of the link ends at that ingested file; all loops take at most 2 rounds per graph node and 3 per link |
| `Civil.TodayExact` | src/bin/zimwriterfs.rs:891-911 | for every day count the arithmetic gives the date that many Gregorian days after 1970-01-01 |
| `Civil.TodayNext` | src/bin/zimwriterfs.rs:891-911 | the date is valid, and one more day is the calendar's next date |

## Left out

- The buffered mode of `Creator` before `start_writing` (items kept in memory and pushed later): the model starts with a
  running stream.
- I/O failures outside the pipeline: file system errors of the writer, of dump and of the tools; temp files, `openat`
  confinement and the rename at the end. In `Pipeline` a failing write and a failing encode are both steps.
- `Writer.Creator` submits its clusters to a list and encodes them when the pipeline is shut down, in the order
  `Pipeline` proves for every interleaving; an encode error therefore shows at shutdown, where the original may also
  report it from an earlier send. `Pipeline` itself models all of that.
- Pipeline.InvStep: channels hand over the oldest queued job, and any delivered one to the writer, which covers every
  order of arrival; a job's permit size is a parameter.
- ReadBack.ReadsAllBack: holds for fewer than 2^32 entries, clusters and blobs per cluster and sizes below 2^64, the
  limits of the format, because the original casts counts with unchecked `as u32`; `Sealing.Small` says so. For a bucket
  target above the bound of `ReadBack.Roomy` the body clause speaks of the cluster the body happens to share.
- Recreate.Run: the text stamped as the scraper's name and the rebuilt index blobs are parameters; the index blobs are
  added whole, not streamed.
- Recreate.ContentPreserved: its condition is on the clusters of the output. For a bucket target above the bound of
  `ReadBack.Roomy` it depends on how the bodies happen to share clusters; below it `Recreate.Run` needs no condition.
- Dump.PlacesApart: no sanitised path is `_exceptions` or below it, and different entries have different sanitised
  paths; without this the original overwrites.
- Symlinks.ResolveSymlinks: what each link points to is a given graph; reading the links is not modelled.
- Cache.ClusterByteCache.Insert: sums of payload sizes are assumed not to reach the top of the machine word, where the
  original saturates.
- Civil.TodayExact: the date as a triple; its rendering as YYYY-MM-DD and reading the clock are left out.
- Split.PartEnds: states nothing about a file with a cluster offset of 0, where a first part can be empty.
- Sorting.Sort: orders equal keys by index, one of the orders the original's unstable sort may choose; only titles can be
  equal.
- Title listings of legacy archives beyond the table of the header, random entries, statistics, summaries, warm-up,
  memory advice and the Xapian helper process.
- The C interface, command lines, report printing, URL and HTML scanning, media type sniffing, UUID rendering.
