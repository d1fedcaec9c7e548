# static-web: a verified model of the file server

static-web serves files from a directory over HTTP. It keeps file contents in a
byte-bounded LRU cache, checked URL paths in a second one, negotiates compressed
variants, and answers conditional and range requests itself. This project models
the parts whose behaviour spans functions, states or interleavings, and proves
what they promise. `dafny verify dfyconfig.toml` checks everything.

The main results:

* **The cache is invisible.** `History.Run` builds the caches, preloads them if
  asked, and runs any history of requests and SIGHUPs through path check,
  compression middleware and file handler. Every reply agrees with the one of a
  server without caches (same status, same headers, same decoded bytes) or is a
  304 to a client whose copy is current; where a directory listing is due, the
  reply may instead be the one given with listings off. Only if pre-warming has
  stored a path that is not harmless may the bytes of a compressed reply be wrong.
  `Misreading.CacheInvisibleIff` is the exact condition for every normalised
  request, any path of the path cache and any entries loaded from the request's
  file: a reply differs exactly when a hit of either lookup is a 304 or carries a
  wrong variant, a cached index stands for a listing, or a relative path is misread.
  `Handler.InterleavedHitIff` carries this over to first lookups in the middle of
  any interleaving of cache calls.
* **Ranges.** The parser meets a declarative reading of sections 14.1.2 and 14.2
  of RFC 9110 for every header if and only if twice the file size fits in an
  int64, and every list of range-specs that a client writes is read back as
  written. The in-memory and the streaming server give the same answer. A client's
  decoder, which shares nothing with the printer, reads off every 206 of either
  server the selected bytes of the file and the positions of the first and the
  last of them. The length announced before streaming is the length of the body
  exactly when that fits in an int64.
* **Replies.** Without caches a GET is answered by a table in terms of the file
  system and the configuration (`Replies.Owed`): refusals, listings, the index of a
  directory or its 404, files with their validators. Requests for some bytes of a
  file get exactly these, a stale If-Range gets the whole file, HEAD gets what GET
  gets but for the body, and with listings off no request gets one.
* **Byte accounting.** After every run, and in every interleaving of Get, Put and
  Flush, resident bytes = counter + drift, where resident bytes are the lengths of
  all data and variants held and 256 for each entry. The counter is within the limit
  always; the resident bytes equal it exactly for the runs in which no Put evicted
  the entry it was replacing, and are within the limit throughout exactly for the
  runs in which no Put was overfull. Of the other entries a Put drops those used
  longest ago, and a stored file is found until its time to live is over.
* **Paths.** String prefix tests decide segment prefixes, a path is accepted
  exactly when it is the resolved target at or below the real root, the three
  sources of a safe path lead to one file for absolute and relative roots, and
  cache keys are canonical.
* **Lists and lifecycle.** The in-place list walkers compute what splitting and
  trimming would, and take apart what clients write: an Accept-Encoding is decided
  by the first offer of the coding and its first q, an If-None-Match by weak
  comparison. `AddVary` computes a set. Over all interleavings of the process's
  goroutines no send blocks or meets a closed channel, the channel closes once the
  wait group is at zero, an error before a shutdown is never lost and one after it
  never reported, an exit with 0 means that a TERM or INT was handled, and from
  every state the process can end.

## How the model is built

| file | models |
|---|---|
| `Wrappers`, `Text` | absent values and errors; Go's string splitting, trimming, folding, integer parsing |
| `Lru`, `FileCache`, `CacheCeiling`, `CacheLaws`, `CacheInterleaving` | internal/cache/cache.go: the list, the cache object and its run law, when the memory ceiling holds, real bytes, recency and expiry, the law under concurrent callers |
| `ByteRanges`, `RangeHeader`, `Multipart`, `RangeServing`, `RangeClient`, `Streaming` | the range engine of internal/handler/file.go, the headers clients write and what they read off the answers |
| `HeaderLists`, `ClientLists`, `Vary`, `Http` | internal/headers/headers.go and the walkers of internal/compress/compress.go, and the lists clients write |
| `Paths`, `PathSafety`, `PathCaching`, `CacheKey` | internal/security/security.go and the cache keys |
| `Compression`, `Serving` | the compression middleware, serveFromCache, and what the client gets from both |
| `FileHandling`, `Replies`, `Transparency`, `Misreading`, `Handler`, `Preloading`, `History` | the request handler and the replies it owes, both caches against none, preloading, and whole runs |
| `Linkless`, `Witnesses` | file systems without links meet the hypotheses; three servers on which the caches show |
| `Lifecycle` | internal/server/server.go, internal/server/signals.go and the tail of cmd/static-web/main.go |

Objects whose methods update fields are classes (`FileCache.Cache`,
`FileCache.CachedFile`, `PathCaching.PathCache`, `Vary.ResponseHeader`,
`Http.Response`, `Handler.FileHandler`); each method is proved against a
specification function, and the lemmas are about those functions. Loops stay loops.

The file system is fixed: an oracle for symbolic links and one for os.Stat, both
total, and a working directory (`PathSafety.Links`, `FileHandling.Env`). They are
constrained by what any file system satisfies: an absolute path resolves to a
clean path that resolves to itself, a relative one to what its absolute form
resolves to, and what lies in a directory lies in a directory that resolves.
`Linkless.TreeIsValid` shows that every tree without links meets this. The
compressors are functions with `decode(encode(x)) == x`; hashing, media type
detection, boundaries, the clock, date parsing and the reading of a q-value as a
float are parameters.

Hypotheses of the transparency results: URLs in the normalised form the HTTP
library hands over, an index name that is one plain segment, a working directory
without links in its name, and a root whose text can be cleaned without changing
what it names. Sidecars found beside a file by its absolute path decode to the
file; nothing is assumed about what a relative path leads to. Pre-warming is
harmless (`Transparency.WarmsHarmlessly`) if the root resolves to an absolute path,
or if sidecars or compression are off (`History.WarmsHarmlesslyIf`).

## Where the code falls short of its intent

* **Counter drift** (internal/cache/cache.go:255-262). Put takes the replaced
  entry's size off the counter; if its loop then evicts that same entry, the
  callback takes the size off again. With a limit of 2000, storing 856 bytes under
  `/a`, 856 under `/b` and 1256 under `/a` again leaves 2112 bytes resident
  (`FileCache.CeilingBroken`). The counter stays exact if and only if Put did not
  evict the entry it replaced (`FileCache.CounterExactIff`). The ceiling is a
  different matter: it holds after a Put if and only if the Put was not overfull,
  that is, no cut at which the counter finds room leaves too much
  (`CacheCeiling.PutCeilingIff`, for any drift). With an exact counter a Put is
  overfull exactly when it evicts the entry it replaces and some cut behind that
  entry lies in a window as wide as that entry (`CacheCeiling.OverfullWindow`);
  self-eviction alone can stay within the limit
  (`CacheCeiling.SelfEvictionWithinLimit`).
* **Wrapped sum** (internal/handler/file.go:963-964). For a file of more than
  2^62 bytes `bytes=0-,0-` is accepted although the ranges exceed the file
  (`ByteRanges.MeetsIffDoubleFits`).
* **Conditional requests and listings** (internal/handler/file.go:104-110,
  129-137, 153-156, 271-357). Disk serving of a small file never answers 304, so a
  warm 304 meets a cold 200, and a cached index wins over a directory listing.
  `Transparency.HitsInvisibleIff` gives the exact condition for both lookups. Both
  failures are reached from any state of the caches: `History.Revisit` asks twice
  for a file that fits, the second time with the validators of the first reply, and
  `History.HideListing` asks for the index of a directory and then for the
  directory. `Witnesses.RevisitOneFile` and `Witnesses.BrowseIndexed` do so on
  concrete servers.
* **Relative roots** (cmd/static-web/main.go:231, internal/config/config.go:188).
  PathSafe asks for an absolute root (internal/security/security.go:108-110), but
  PreWarm is given the configured one, by default `./public`. The paths it stores
  are then relative; each leads to the file PathSafe answers with, and is that very
  answer if and only if the root, with its links resolved, is absolute
  (`PathCaching.FoundNames`). The file handler takes such a path for its two checks
  next to the file system as if it were absolute: a sidecar is looked for below the
  root instead of the working directory (internal/handler/file.go:693-698,
  `FileHandling.SidecarPlaceIs`), and the check before a large file is opened
  always fails (`Transparency.RecheckAbsolute`). `Misreading.PathInvisibleIff` says
  for every request when this shows: when both lookups fail and the client is sent
  a sidecar that is not the file's, or a large file would have to be opened. In
  `Witnesses.MisreadNested` a client is sent the contents of `/w/p/p/x.gz` as the
  compressed form of `/w/p/x`. An entry loaded so keeps the wrong variant; the exact
  condition covers hits on it too.
* **Dead alias entries** (internal/cache/preload.go:169-176). The directory key
  under which Preload caches an index a second time is never looked up
  (`Handler.AliasNeverLookedUp`).
* **A first test that cannot fail** for an absolute root
  (internal/security/security.go:160-162), and a re-check
  (internal/handler/file.go:397-401) that can fail, for absolute paths, for the
  root only.
* **X-Cache** (internal/handler/file.go:355-356). The MISS set for a file just
  loaded is overwritten with HIT (`Serving.MarkedAsHit`).
* **A bound in a comment** (internal/handler/file.go:529). The comment says that
  the length to stream is bounded by the file size; every file of two bytes or more,
  asked for with `bytes=0-0,1-`, makes a longer body (`Multipart.BodyExceedsFile`).
  The bound proved is the file size plus sixteen heads and one tail
  (`Multipart.BodyWithinLimit`).

## Model

| member | source | states |
|---|---|---|
| `FileCache.EvictShape` | internal/cache/cache.go:259-262 | The eviction loop removes an initial run of the recency order, the shortest one after which the new entry fits by the counter. |
| `FileCache.EvictedExactly` | internal/cache/cache.go:254-262 | Whether the loop drops the replaced entry is decided by a condition on the state before Put. |
| `FileCache.FitsAfterEvict` | internal/cache/cache.go:259-262 | When the loop ends the new entry fits, whatever error the counter carries. |
| `FileCache.PutKeepsLaw` | internal/cache/cache.go:238-266 | Put keeps resident bytes = counter + drift and leaves the counter within the limit, item-count eviction included. Resident bytes are real bytes: `CacheLaws.HeldIsResident`. |
| `FileCache.CounterExactIff` | internal/cache/cache.go:254-265 | An exact counter stays exact if and only if Put did not evict the entry it replaced. |
| `FileCache.PutNewKey` | internal/cache/cache.go:238-266 | For a new key: the shortest oldest-first run is gone, survivors keep their order, the new key is most recent. |
| `FileCache.RunLaw` | internal/cache/cache.go:184-274 | Over every sequence of operations: the law, the counter's limit, and equality of counter and resident bytes exactly without self-eviction (the exact condition for the ceiling is `CacheCeiling.RunCeilingIff`; both in real bytes: `CacheLaws.HeldLaw`, `CacheLaws.HeldCeilingIff`). |
| `CacheCeiling.PutCeilingIff` | internal/cache/cache.go:238-266 | For any counter error: after a Put the resident bytes are within the limit if and only if no cut at which the counter finds room leaves more than the limit allows. |
| `CacheCeiling.OverfullWindow` | internal/cache/cache.go:254-262 | With an exact counter that is: Put evicts the entry it replaces, and some cut behind it leaves bytes in the window of that entry's size. |
| `CacheCeiling.SelfEvictionWithinLimit` | internal/cache/cache.go:254-262 | A Put that evicts the entry it replaces and keeps the ceiling. |
| `CacheCeiling.RunCeilingIff` | internal/cache/cache.go:184-274 | Over every sequence of operations the ceiling holds throughout if and only if no Put is overfull. |
| `FileCache.CeilingBroken` | internal/cache/cache.go:254-265 | The three-step trace that leaves 2112 bytes resident under a limit of 2000. |
| `FileCache.Cache.Get` | internal/cache/cache.go:209-222 | A hit is the entry whose expiry time, if any, has not passed, made most recent (`Lru.Lru.TouchOrder`); an expired one is removed only if it is still the same; hits and misses are counted. |
| `FileCache.Cache.RemoveIfSame` | internal/cache/cache.go:226-232 | Compare-and-remove, with the callback's effect on the counter. |
| `FileCache.Cache.Put` | internal/cache/cache.go:238-266 | The whole new state, the expiry stamp, and the limit on the counter; what is cached and what is lost: `CacheLaws.PutDecides`, `CacheLaws.NothingLost`, `CacheLaws.OldestGoFirst`. |
| `FileCache.Cache.Flush` | internal/cache/cache.go:269-274 | The cache is empty and the counter zero. |
| `Lru.Lru.TouchOrder` | internal/cache/cache.go:210 | A hit moves the entry found to the end of the recency order; the others stay in their order. |
| `Lru.Lru.AddOrder` | internal/cache/cache.go:264 | The entry added is the last; an old one under its key, or in a full list the oldest one, is taken out, and the others stay in their order. |
| `CacheLaws.HeldIsResident` | internal/cache/cache.go:153-156 | The bytes of all data and of every variant present, and 256 for each entry, are what is accounted for. |
| `CacheLaws.HeldLaw` | internal/cache/cache.go:184-274 | After every run these bytes are the counter and the drift, and the counter is within the limit. |
| `CacheLaws.HeldCeilingIff` | internal/cache/cache.go:184-274 | They are within the limit throughout if and only if no Put of the run is overfull. |
| `CacheLaws.PutDecides` | internal/cache/cache.go:238-265 | A file is cached exactly when it fits with all its variants and 256 bytes more; otherwise nothing changes. |
| `CacheLaws.NothingLost` | internal/cache/cache.go:259-264 | While there is room for its bytes and for one more of 65536 entries, a Put loses no other entry. |
| `CacheLaws.ItemLimit` | internal/cache/cache.go:198-199 | After every run there are at most 65536 entries. |
| `CacheLaws.OldestGoFirst` | internal/cache/cache.go:259-262 | Of two other entries, the one used more recently is dropped by a Put only if the other one is. |
| `CacheLaws.UsedLast` | internal/cache/cache.go:209-262 | After a hit on a path and a Put of another one, the path is gone only if every other old entry is. |
| `CacheLaws.StoreAndAsk` | internal/cache/cache.go:209-266 | A stored file that fits is found until its time to live is over, as the most recent entry, and from then on is not found and not kept. |
| `CacheInterleaving.StepKeepsInv` | internal/cache/cache.go:209-274 | Every step of every caller keeps the accounting law, with the bytes a Put has in hand as the only difference in between. |
| `CacheInterleaving.EveryInterleaving` | internal/cache/cache.go:209-274 | The law and the limit after any interleaving of lookups, removals, insertions and flushes. |
| `CacheInterleaving.EveryEntry` | internal/cache/cache.go:209-266 | In every interleaving, what holds of all files put under their paths holds of all entries and of the files callers have in hand: no entry is invented or gets under another path. |
| `CacheInterleaving.RemovalIsExact` | internal/cache/cache.go:214-232 | A removal deletes only the very entry that its Get saw expired; another entry stored under the key survives. |
| `CacheInterleaving.UndisturbedPut` | internal/cache/cache.go:245-265 | A Put that runs undisturbed does in its small steps what the one-step Put does. |
| `CacheInterleaving.UndisturbedGet` | internal/cache/cache.go:209-232 | A Get nobody disturbs does in its small steps what the one-step Get does to a current and to an expired entry. |
| `CacheInterleaving.UndisturbedFlush` | internal/cache/cache.go:269-274 | A Flush nobody disturbs leaves the empty cache. |
| `ByteRanges.ParseRange` | internal/handler/file.go:903-976 | The parser's loop, with int64 addition, computes the specified result; what that makes of headers clients write: `RangeHeader.OneRange`, `RangeHeader.SixteenAtMost`. |
| `ByteRanges.ParseBounds` | internal/handler/file.go:934-969 | The arithmetic on one range-spec is clipping to the file; the numbers are read as `Text.ParseMeaning` says. |
| `ByteRanges.ClipIsIntersection` | internal/handler/file.go:936-969 | A clipped range holds exactly the positions the spec asks for within the file. |
| `ByteRanges.ParsedMeets` | internal/handler/file.go:903-976 | For sizes whose double fits in an int64: success exactly for 1 to 16 well-formed specs of which some are satisfiable and whose clipped lengths sum to at most the size, then the intersections in order; unsatisfiable exactly when all are well formed and none overlaps. |
| `ByteRanges.WrappedSum` | internal/handler/file.go:963-966 | For larger sizes two full ranges wrap around and are accepted. |
| `ByteRanges.MeetsIffDoubleFits` | internal/handler/file.go:903-976 | The parser meets the reading for all headers if and only if twice the size fits. |
| `Text.ParseMeaning` | internal/handler/file.go:930-952 | A number is one optional sign and digits only, at least one, and stands for what these denote, if an int64 can hold it; everything else is refused. |
| `Text.ParsePrinted` | internal/handler/file.go:930-952 | Every number that is printed is read back, after zeros and with either sign. |
| `RangeHeader.ReadIff` | internal/handler/file.go:910-962 | Exactly when a piece of the list is read as which range-spec: by what stands on both sides of its first hyphen. |
| `RangeHeader.HeaderIsRead` | internal/handler/file.go:903-962 | Every list of range-specs that a client writes is read as that list. |
| `RangeHeader.PaddedIsRead` | internal/handler/file.go:911 | White space around a range-spec does not matter. |
| `RangeHeader.OneIsParsed` | internal/handler/file.go:903-976 | For every size one range-spec gives its clipped range, or is unsatisfiable. |
| `RangeHeader.OneRange` | internal/handler/file.go:924-962 | `bytes=a-b`, `bytes=a-` and `bytes=-n` give the range from a to b, the rest from a on, and the last n bytes. |
| `RangeHeader.SixteenAtMost` | internal/handler/file.go:915-918 | A list that a client writes is accepted exactly with at most sixteen specs of which some are satisfiable and whose clipped lengths sum to at most the size. |
| `RangeHeader.ScanMalformed` | internal/handler/file.go:919-952 | One malformed piece anywhere spoils the header, for every size. |
| `Multipart.RoundTrip` | internal/handler/file.go:848-866 | A decoder that trusts each part's Content-Range recovers from every body exactly the ranges and their slices, in order. |
| `Multipart.LengthIsExact` | internal/handler/file.go:483-499 | The sum of heads and range lengths is the length of the parts. |
| `Multipart.BodyWithinLimit` | internal/handler/file.go:483-509 | A body holds at most the file's size in file bytes, sixteen heads and one tail. |
| `Multipart.BodyExceedsFile` | internal/handler/file.go:526-533 | A header that asks for the first byte and the rest makes a body longer than the file. |
| `RangeServing.IfRangeMeaning` | internal/handler/file.go:873-894 | If-Range lets Range count exactly when it is absent or is the date sent as Last-Modified; a tag never matches. |
| `RangeServing.SelectionMeaning` | internal/handler/file.go:456-468 | The bytes selected are the intersections of all range-specs with the file, in order; nothing when none overlaps, the whole file when the header does not count. |
| `RangeServing.SelectFits` | internal/handler/file.go:903-976 | Accepted ranges lie inside the file and are at most sixteen, whatever the size. |
| `RangeServing.ServeRange` | internal/handler/file.go:809-867 | The response state after the in-memory server, for every outcome; what a client reads off it: `RangeClient.InMemoryDelivers`. |
| `RangeServing.WriteParts` | internal/handler/file.go:852-858 | The buffer loop writes the multipart body. |
| `RangeServing.InMemoryAnswers` | internal/handler/file.go:809-867 | Status, media type, Content-Range, length and bytes are those the selection calls for; how they are read: `RangeClient.AnswerIsRead`, `RangeClient.OtherwiseRead`. |
| `RangeClient.AnswerIsRead` | internal/handler/file.go:836-866 | A client that decodes a 206 by its Content-Range, or by the boundary its media type names, finds the selected bytes of the file with the positions of the first and the last of them; the length is that of the bytes. |
| `RangeClient.HeadIsRead` | internal/handler/file.go:836-846 | A HEAD names the same positions, and their distance as the length. |
| `RangeClient.OtherwiseRead` | internal/handler/file.go:820-834 | A refusal is a 416 that names the size of the file; without ranges the file itself is sent. |
| `RangeClient.InMemoryDelivers` | internal/handler/file.go:809-867 | So is every 206 of the in-memory server read. |
| `RangeClient.AskedIsDelivered` | internal/handler/file.go:809-846 | A request for the bytes from a to b gets `data[a..b+1]`, named as the bytes from a to b. |
| `Streaming.TotalExactIff` | internal/handler/file.go:491-499 | The length computed in int64 arithmetic is the body's length exactly when that fits. |
| `Streaming.PlanParts` | internal/handler/file.go:491-499 | The loop over the ranges prepares every head and the total. |
| `Streaming.ConcatReaders` | internal/handler/file.go:501-525 | The concatenated readers are the file, the slice, or the multipart body. |
| `Streaming.ServeLargeFile` | internal/handler/file.go:372-539 | The response state after the streaming server: limits, 304, 416, HEAD, errors and streams; what a client reads off it: `Streaming.StreamDelivers`. |
| `Streaming.StreamedAnswers` | internal/handler/file.go:456-538 | The stream gives the answer the selection calls for, read as `RangeClient.AnswerIsRead` says. |
| `Streaming.StreamDelivers` | internal/handler/file.go:470-538 | What a client reads off a streamed 206 is what was selected, with its positions. |
| `Streaming.ServersAgree` | internal/handler/file.go:456-538 | Both servers give the same status, media type, Content-Range, length and bytes for the same file, boundary, Range header and If-Range verdict. |
| `Streaming.AnnounceableSize` | internal/handler/file.go:491-533 | A size a little below the int64 limit is enough for a correct announcement. |
| `HeaderLists.TokensAreListed` | internal/headers/headers.go:172-192 | What a walker sees from any position on are the trimmed pieces of the split list, a blank last one excluded. |
| `HeaderLists.ETagMatches` | internal/headers/headers.go:167-193 | Membership up to one W/ prefix on either side, or a lone wildcard. |
| `HeaderLists.TagInMeaning` | internal/headers/headers.go:167-193 | Membership spelled out as the existence of a listed tag. |
| `HeaderLists.AcceptsEncodingStr` | internal/compress/compress.go:90-128 | The verdict of the first case-insensitive match, by its q-value. |
| `HeaderLists.QPositive` | internal/compress/compress.go:132-151 | The weight is that of the first q parameter; missing or unparsable counts as 1. |
| `ClientLists.ListIsRead` | internal/compress/compress.go:94-128 | Every list a client writes is read as its elements, in order. |
| `ClientLists.EqualFoldIff` | internal/compress/compress.go:123 | Names are compared letter by letter, in either case. |
| `ClientLists.OffersAreRead` | internal/compress/compress.go:90-151 | For every list of offers with parameters that a client writes, a coding is accepted exactly when the first offer of that name, in any case, has no q parameter or a first one that does not weigh nothing. |
| `ClientLists.TagsAreRead` | internal/headers/headers.go:167-193 | For every list of tags that a client writes, a tag matches exactly when its opaque part is listed, weak or not (weak comparison of section 8.8.3.2 of RFC 9110). |
| `Vary.ResponseHeader.AddVary` | internal/headers/headers.go:61-100 | The nested loops compute the merged header. |
| `Vary.AddedIsSeen` | internal/headers/headers.go:61-100 | From an empty header any calls leave one line without tokens that fold alike, listing what was added up to a wildcard. |
| `Vary.SeenIsAdded` | internal/headers/headers.go:61-100 | As a set up to folding the listed tokens are the added ones, in whatever order they came. |
| `Vary.SeenGrows` | internal/headers/headers.go:61-100 | Any further calls leave the tokens already listed in place, in their order. |
| `Vary.AddedIdempotent` | internal/headers/headers.go:61-100 | Adding a listed token, or anything after the wildcard, changes nothing. |
| `Vary.StarStays` | internal/headers/headers.go:79-81 | The wildcard is absorbing. |
| `Http.CheckNotModified` | internal/headers/headers.go:130-162 | A 304 with its validators exactly when the conditional headers ask for it. |
| `Http.NotModifiedMeaning` | internal/headers/headers.go:130-193 | A 304 is due exactly when the tag is listed up to weakness or the wildcard stands alone, or without a list when the date given is not before Last-Modified. |
| `Http.Revalidated` | internal/headers/headers.go:104-162 | A client that sends back the validators it was given gets a 304. |
| `Paths.SegmentsPlain` | internal/security/security.go:146 | Cleaning a rooted path leaves no empty, dot or dot-dot segment. |
| `Paths.CleanIdempotent` | internal/security/security.go:146 | Cleaning is idempotent. |
| `Paths.SegmentLaws` | internal/security/security.go:146 | What a further element does to a cleaned path: an empty one or a dot nothing, two dots drop the last segment, anything else is added. |
| `Paths.JoinSegments` | internal/security/security.go:148-150 | Joining root and cleaned URL puts their segments in a row. |
| `Paths.FromDirDown` | internal/security/security.go:148-150 | A relative path goes down from the directory, an absolute one does not depend on it. |
| `Paths.UnderRootIsPrefix` | internal/security/security.go:152-162 | The separator-aware string test holds exactly for segment prefixes. |
| `PathSafety.FirstTestHolds` | internal/security/security.go:146-162 | For every URL the candidate passes the first test. |
| `PathSafety.DotTest` | internal/security/security.go:184-195 | The test on the trimmed and split text finds exactly the dot-leading segments below the root. |
| `PathSafety.PathSafe` | internal/security/security.go:130-198 | The string checks compute the verdict stated on segments. |
| `PathSafety.Contained` | internal/security/security.go:130-198 | Every success is at or below the real root, without dot-leading segments when blocked, and fully resolved if said to exist. |
| `PathSafety.AcceptedIff` | internal/security/security.go:130-198 | A path is the result if and only if the URL has no null byte, the path is what the target resolves to (or the target, where nothing exists), it is at or below the root, and no segment below the root starts with a dot when those are blocked. |
| `PathSafety.RefusedIff` | internal/security/security.go:130-198 | Exactly which error a URL is refused with: a null byte; a target that does not resolve or resolves to a place not below the root; a dot-leading segment below it, existing or not. |
| `PathSafety.FoundIsVerdict` | internal/security/security.go:130-198 | For a root given relative to the working directory: a path found leads to the file of the absolute root's verdict, and is its very text if and only if the root, once resolved, is absolute. |
| `PathCaching.PathCache.PreWarm` | internal/security/security.go:88-97 | For any root, the loop stores exactly the existing paths found, in order. |
| `PathCaching.FoundNames` | internal/security/security.go:88-97 | What pre-warming stores for an accepted URL leads to the file PathSafe answers with, and equals the answer if and only if the root, once resolved, is absolute. |
| `PathCaching.VisitedIsCached` | internal/security/security.go:72-97 | After a request for an existing path, and after pre-warming it, the path is cached as the most recent one; a refused URL changes nothing. |
| `PathCaching.LookedIsRecent` | internal/security/security.go:72-75 | A lookup makes the path found the most recent one. |
| `PathCaching.CheckPath` | internal/security/security.go:286-320 | The middleware passes on the cached path or the verdict's; what it stores and leaves in the context. |
| `PathCaching.HandlerPath` | internal/handler/file.go:81-98 | Cache, context value and recomputation lead the handler to the same file, with the same text unless the root is relative. |
| `PathCaching.RunFaithful` | internal/security/security.go:58-102 | After any run every entry leads to the verdict's existing file, for the root resolved or not, within capacity; it is PathSafe's very answer exactly when it is absolute. |
| `CacheKey.KeyIsNamed` | internal/headers/headers.go:22-43 | The key is the text of the cleaned target, completed by the index. |
| `CacheKey.KeyCanonical` | internal/headers/headers.go:22-43 | Keys are clean, never end in a separator, and are their own keys. |
| `CacheKey.SameKeyIff` | internal/headers/headers.go:22-43 | Two URLs share a key exactly when they name the same target. |
| `CacheKey.KeyOfNormalised` | internal/handler/file.go:101-140 | For a normalised URL the first key is the index URL of a directory request and the URL itself otherwise. |
| `Compression.TableWithinPrefixes` | internal/cache/preload.go:222-245 | Whatever media type the middleware would compress, the preloader compresses too. |
| `Compression.CompressibleIff` | internal/compress/compress.go:24-39 | Which media types are compressed: fourteen, in any case, with any parameters. |
| `Compression.After` | internal/compress/compress.go:184-247 | The post-processing decision and the compressed response. |
| `Compression.CompressedIff` | internal/compress/compress.go:184-247 | Exactly which responses leave compressed, with a body that decodes to the original; all others leave as they are. |
| `Serving.NegotiateEncoding` | internal/handler/file.go:249-266 | The first accepted available variant in the order br, zstd, gzip. |
| `Serving.ServeFromCache` | internal/handler/file.go:182-246 | The response state after serving a cached file. |
| `Serving.MarkedAsHit` | internal/handler/file.go:183 | Whatever was set before, a reply made from a file's contents is marked as a hit. |
| `Serving.NeverRecompressed` | internal/compress/compress.go:161-249 | Without Range the middleware leaves every cached response as it is. |
| `Serving.HeadLikeGet` | internal/handler/file.go:196-228 | Warm HEAD and GET agree on status, headers and length. |
| `Serving.Consistent` | internal/handler/file.go:182-246 | After the middleware a 200 decodes to the file, a 206 has no coding and a client reads off it the selected bytes with their positions, a 416 names the size, and Content-Length is the body's length. |
| `FileHandling.ValidateSidecarPath` | internal/handler/file.go:684-727 | Success exactly when the sidecar's place resolves at or below the real root, and then where to. |
| `FileHandling.LoadSidecar` | internal/handler/file.go:729-770 | What is read as a sidecar: a readable regular file below the root, within the size limit. |
| `FileHandling.SidecarPlaceIs` | internal/handler/file.go:684-698 | A sidecar is looked for as if the root were the working directory, which is beside the file for an absolute path. |
| `FileHandling.LoadFile` | internal/handler/file.go:310-344 | Which variants a loaded file gets, sidecars first. |
| `FileHandling.LoadSoundIff` | internal/handler/file.go:322-344 | Every variant decodes to the file if and only if the sidecars used are honest, and gzip is there whenever the middleware would make it. |
| `FileHandling.LargeLikeSmall` | internal/handler/file.go:292-357 | Streamed as a large file or served as a small one in identity coding, a file gives the same answer on the wire, although the tags differ. |
| `FileHandling.ResolveIndexPath` | internal/handler/file.go:147-171 | Path, canonical URL and stat result of a request; what each request is then answered: `Replies.ColdOwed`, `Replies.DirectoryOwed`, `Replies.ListingOwed`. |
| `Replies.ColdOwed` | internal/handler/file.go:76-357 | Without caches every GET for a whole file or directory is answered by the table: a refusal with its status, a listing, the index, or the file with its weak tag, time, caching and media type; 403, 404, 413 and 500 where it cannot be sent. |
| `Replies.DirectoryOwed` | internal/handler/file.go:147-171 | With listings off any request for a directory is one for its index: `env.missing` under the index URL when there is none, a refusal, 403, 413 or 500 when it is refused, unreadable or too large. |
| `Replies.ListingOwed` | internal/handler/file.go:120-125 | With listings on a directory is listed unless the first lookup finds its index. |
| `Replies.NeverListed` | internal/handler/file.go:152-156 | With listings off the rendering of listings makes no difference to any reply: no request gets one. |
| `Replies.HitOwed` | internal/handler/file.go:101-110 | A cached file is sent whole with its validators, or as an empty 304 with the validators exactly when the client's copy is current. |
| `Replies.LargeOwed` | internal/handler/file.go:372-539 | A large file is sent whole with its validators, or as an empty 304 exactly when the client's copy is current, without any cache. |
| `Replies.UnopenedOwed` | internal/handler/file.go:372-519 | A large file is opened only to look at its first bytes, when its extension says nothing, or to send it: one that cannot be opened still answers HEAD and conditional requests otherwise. |
| `Replies.SliceOwed` | internal/handler/file.go:182-246 | Without caches a GET for the bytes from a to b of a file, small or large, gets these, named so, in no coding. |
| `Replies.StaleOwed` | internal/handler/file.go:815-834 | A Range request whose If-Range is a tag or not the date sent gets the whole file. |
| `Replies.HeadOwed` | internal/handler/file.go:196-230 | Without caches HEAD gets the status, coding, length and description that GET gets, and no body. |
| `Replies.SidecarIff` | internal/handler/file.go:684-770 | A sidecar is read exactly when its place resolves to a readable regular file strictly below the root and within the limit. |
| `Replies.VariantsLoaded` | internal/handler/file.go:322-344 | Which variants a loaded file gets: the sidecars named `.gz`, `.br` and `.zst`, and gzip and zstd made where there is none; none at all for files that do not qualify. |
| `Replies.CodingOwed` | internal/handler/file.go:249-266 | For every list of offers a client writes: brotli before zstd before gzip, of what there is and the client takes. |
| `Transparency.FirstHit` | internal/handler/file.go:101-110 | An entry found by the first key is what disk serving of the request would load, under the same canonical URL. |
| `Transparency.SecondHit` | internal/handler/file.go:129-137 | So is an entry found by the canonical URL. |
| `Transparency.HitsAgreeIff` | internal/handler/file.go:182-246 | An entry and a sound one of the same file give replies that agree if and only if no wrong variant is sent, for all methods, codings and ranges. |
| `Transparency.HitsInvisibleIff` | internal/handler/file.go:101-140 | For every normalised URL, any headers, listings on or off and any entries loaded from the URL's file: with the verdict's path the reply agrees with the one without a cache if and only if no hit of either lookup shows. |
| `Misreading.PathInvisibleIff` | internal/handler/file.go:81-98 | For any path to the URL's file, relative or not, and any request: the reply agrees with the one by the absolute path if and only if the path is not misread. |
| `Misreading.DiskIff` | internal/handler/file.go:271-357 | Disk serving from a path and from its absolute form agree unless a small file is sent in a sidecar that is not its own, or a large one has to be opened and only the absolute path passes the check. |
| `Misreading.SmallMisreadMeaning` | internal/handler/file.go:322-326 | A small file is misread exactly when a GET without Range is sent, in the coding chosen, a sidecar that does not decode to the file. |
| `Misreading.HarmlessNotMisread` | internal/handler/file.go:322-326 | Absolute paths, and relative ones to small files with honest sidecars, are never misread. |
| `Misreading.DiffersHow` | internal/handler/file.go:76-141 | No listing being due and relative paths leading to no large file, a reply that differs is a 304, or a compressed answer to a GET with the right status and headers. |
| `Misreading.CacheInvisibleIff` | internal/handler/file.go:76-141 | For every normalised request, any path to the URL's file from the path cache and any entries of that file from the two lookups: the reply agrees with the one without caches if and only if no hit shows and the path is not misread. |
| `Transparency.ProcessedAgree` | internal/compress/compress.go:184-247 | The middleware keeps agreeing replies in agreement. |
| `Transparency.RecheckHolds` | internal/handler/file.go:394-401 | The check before opening a large file fails for no safe path but the root. |
| `Transparency.RecheckAbsolute` | internal/handler/file.go:394-401 | It fails for every relative path. |
| `Handler.FileHandler.HandleRequest` | internal/handler/file.go:76-141 | The reply as a function of the path and of what the two lookups find (what it is: `Replies.ColdOwed` for a miss, `Replies.HitOwed` for a hit), and the new state of both caches; the entry invariants are kept, and a repeated request for a file that fits is a hit by one of its two lookups. |
| `Handler.FileHandler.ServeFromDisk` | internal/handler/file.go:271-357 | The reply from disk, and the cache with the loaded file stored exactly when there is a small readable one. |
| `Handler.DestinationOK` | internal/handler/file.go:147-171 | What a miss loads satisfies the entry invariant under its canonical URL. |
| `Handler.InterleavedHitIff` | internal/handler/file.go:101-110 | A first lookup in the middle of any interleaving of cache calls finds an entry from which the reply agrees with the one without caches if and only if the hit does not show. |
| `Handler.AliasNeverLookedUp` | internal/cache/preload.go:169-176 | No request, whatever its URL, looks up the directory key of an index. |
| `Preloading.PreloadSound` | internal/cache/preload.go:140-164 | Preloaded contents have the same source as loaded ones and satisfy what the middleware relies on. |
| `Preloading.VariantsPreloaded` | internal/cache/preload.go:153-159 | What is preloaded has no sidecars, and gzip exactly for files of a listed kind that are large enough. |
| `Preloading.ChosenOK` | internal/cache/preload.go:74-166 | A preloaded entry holds what disk serving of its key yields. |
| `Preloading.ChosenIff` | internal/cache/preload.go:79-139 | A file or link of the walk is loaded exactly when it resolves to a place below the root whose URL is answered with that very place, a small readable file; the key is that URL. |
| `Preloading.KeysAre` | internal/cache/preload.go:138-177 | The keys of a file are its URL and, for an index, the URL of its directory with a slash at its end. |
| `Preloading.KeysStored` | internal/cache/preload.go:164-175 | A chosen file that fits is in the cache afterwards, most recent under the last of its keys. |
| `Preloading.TallyStep` | internal/cache/preload.go:164-177 | The statistics count every entry as loaded, with its bytes and keys, or as skipped. |
| `Preloading.AliasOK` | internal/cache/preload.go:169-176 | The directory entry of an index stands for a directory below the root. |
| `Preloading.TallyLeads` | internal/cache/preload.go:166-176 | Every key reported for pre-warming is an accepted URL of a small file or a directory. |
| `Preloading.Choose` | internal/cache/preload.go:79-150 | Which files of the walk are loaded and under which key, by string tests on links, dots and sizes. |
| `Preloading.Preload` | internal/cache/preload.go:58-183 | Every chosen file of the walk is stored in order, an index under its directory too; the entry invariant is kept; statistics and keys are reported. |
| `History.HandleHUP` | internal/server/signals.go:68-87 | A failed reload keeps both caches, any other SIGHUP empties them. |
| `History.Answer` | internal/handler/middleware.go:51-71 | One request through the whole chain is answered as without caches or by a 304 to a client whose copy is current; where a listing is due, possibly as the same server would with listings off. If a pre-warmed path is not harmless, a compressed answer may have wrong bytes, but not a wrong status or header. What the middleware can compress for a client is sent compressed. |
| `History.WarmsHarmlesslyIf` | cmd/static-web/main.go:231 | What PreWarm stores for preloaded URLs is served like the absolute path if the root resolves to an absolute path, or sidecars or compression are off. |
| `History.Startup` | cmd/static-web/main.go:200-243 | The handler before the first request: its cache is empty or holds what was stored for the walk, and the path cache is pre-warmed with the keys reported, by the root as configured. |
| `History.Run` | cmd/static-web/main.go:200-243 | Startup and any history of requests and SIGHUPs: every reply is such an answer. |
| `History.Revisit` | internal/handler/file.go:101-137 | From any state of the caches: a file that fits, asked for again with the validators of the first reply, is answered 304 where a server without caches sends it. |
| `History.HideListing` | internal/handler/file.go:101-110 | From any state of the caches, with listings on: after a request for the index of a directory that fits, the directory is not answered with its listing. |
| `Linkless.TreeIsValid` | internal/handler/file.go:147-171 | Every file system without links meets the hypotheses on the file system. |
| `Witnesses.RevisitOneFile` | internal/handler/file.go:101-110 | A repeated request on a concrete server: 304 against 200. |
| `Witnesses.BrowseIndexed` | internal/handler/file.go:101-127 | The index and then the directory on a concrete server: the reply is not the listing. |
| `Witnesses.NestedMisread` | internal/handler/file.go:322-326 | With the root given as `./p`, what pre-warming stores for a URL is not its verdict's path, and the reply by it does not agree with the one without caches. |
| `Witnesses.MisreadNested` | internal/handler/file.go:322-326 | The same as a run: after pre-warming, the handler sends another file's contents as the gzip form of a file. |
| `Lifecycle.StepKeepsInv` | internal/server/server.go:173-207 | Every step of every goroutine keeps the protocol's invariant. |
| `Lifecycle.SendsNeverBlock` | internal/server/server.go:173-207 | In every run a send finds room and an open channel, and no send has panicked. |
| `Lifecycle.ClosedOnce` | internal/server/server.go:204-207 | The channel closes at most once, and only when every loop is gone, which follows from the wait group's counter. |
| `Lifecycle.ReportsAreFresh` | internal/server/server.go:185-201 | Every reported error comes from a loop that read `stopping` as false. |
| `Lifecycle.LateErrorUnreported` | internal/server/server.go:186-201 | Once a TERM or INT has begun the shutdown, a loop that was serving or had not yet read `stopping` never reports an error. |
| `Lifecycle.CleanShutdown` | internal/server/signals.go:58-61 | A shutdown that begins while every loop is serving can end with exit code 0 only, whatever the loops return. |
| `Lifecycle.EarlyErrorArrives` | cmd/static-web/main.go:257-268 | An error of a loop that finds the server not stopping is never lost: it is under way, or has cancelled the context and the main goroutine has found it or will. |
| `Lifecycle.CanClose` | internal/server/server.go:204-207 | From every state of every run all loops can end and the channel can be closed. |
| `Lifecycle.ExitCodes` | cmd/static-web/main.go:257-286 | Return by cancellation means an error is there and the exit code is 1; exit 0 means that the handler returned after a TERM or INT. |
| `Lifecycle.CanExit` | cmd/static-web/main.go:271-286 | From every state a TERM can end the process, with 1 if an error is there and with 0 otherwise. |

## Left out

- Sockets, TLS, binding of listeners, the HTTP library, signal delivery and timers: library behaviour; only channel, flag and context steps are modelled.
- Methods other than GET and HEAD, CORS, security header lists, logging, redirects, configuration loading: single-branch members.
- The embedded default assets, the 404 page and the rendering of directory listings: parameters of the environment, functions of path and request.
- Reading the bytes of files: the file system is fixed, so sizes and contents agree and a stream delivers what the file holds; a seek that fails after sniffing is not modelled.
- A directory whose index name is itself a directory: disk serving answers 500 in the model; the code would do so for directories within the cache's file limit only.
- Compressors that fail: encoding is total in the model, as it is for in-memory writers.
- `Text.Fold`: folds the letters A-Z and the two characters that fold to ASCII letters; other Unicode folding and lower-casing does not occur in the tokens compared.
- HTTP dates: requests carry parsed dates; the three date formats are not modelled, and neither is the fallback Cache-Control for files whose headers were not initialised, which is unused.
- HEAD with Range: the code answers 206 without a body and skips compression; no agreement with GET is claimed.
- `Misreading.CacheInvisibleIff`: does not cover URLs that are not normalised or an index name with separators, because there the three keys of a request differ.
- `PathCaching.RunFaithful`: pre-warming is for URLs that the site accepts, as those of the preloader are (`Preloading.TallyLeads`).
- `Replies.ColdOwed`: GETs without Range and conditional headers; the others are `Replies.SliceOwed`, `Replies.StaleOwed`, `Replies.LargeOwed` and `Replies.HeadOwed`, and for what cannot be sent `Replies.DirectoryOwed`.
- `ClientLists.TagsAreRead`: tags without commas; the walker splits a listed tag at a comma inside its quotes, and no tag that this server sends has one.
- `ClientLists.OffersAreRead`: lists as clients usually write them, of words with spaces after commas and semicolons; for any other text `HeaderLists.AcceptsEncodingStr` gives the verdict by the split list.
- A root whose text changes its meaning when cleaned, such as a link followed by `..`, and a working directory that cannot be determined.
- `History.Run`: histories are sequential, request by request; concurrent requests are covered for the calls on the file cache only (`CacheInterleaving.EveryEntry`, `Handler.InterleavedHitIff`).
- `Streaming.ServersAgree`: requires that the multipart body fits in an int64, because beyond that the announced length wraps; `Streaming.TotalExactIff` gives the exact condition.
- `CacheInterleaving.EveryInterleaving`: the unsynchronised write of an entry's expiry time is not modelled, because the verdict on expiry is left to the environment.
- Fairness and termination of the goroutines in `Lifecycle`: safety properties only.
