# GA World Wind Suite — verified model of its core logic

This project is a Dafny model of the pure and near-pure logic inside the
Geoscience Australia World Wind suite, with proofs of the properties that logic
promises. Each module follows one source class:

- `CacheNames`, `Retrieval`, `PostProcessors`, `ActiveRetrievers`, `Downloader`:
  the viewer's download/cache coordinator. It maps URLs to cache file names. It
  keeps one waiter list (`HandlerPostProcessor`) per fetch and a registry of
  active fetches (`ActiveRetrieverCache`). Its entry points decide between the
  cache, joining a running fetch, and starting a new one. The coordinator is a
  sequential state machine over one `World` value. Every `synchronized` block
  that returns without waiting is one atomic transition. Each blocking
  `downloadImmediately*` call is split into a start transition and a finish
  transition. Between them the service runs the queued job (`RunJob`). The
  model lets other transitions run in that gap as well (see Left out).
- `GocadParameters`: the GOCAD reader configuration record, with its defaults,
  its constructor from an attribute-value list, and its getters and setters.
- `GocadTokens`, `TSurfReader`: the GOCAD TSurf line reader. Input lines come
  already classified into a datatype, and numbers come already parsed
  (`Token`).
- `SectionLayers`: the layer list whose sections each own a marker layer.
- `Codependants`: the armed/enabled co-dependency helper of the animator.
- `Sectors`: the tiler's latitude/longitude box, over `real`.
- `Animations`: the documented key-frame contract of the animator's
  `Animation` interface, as a reference model over a frame-sorted sequence.
- `MarkerLayers`: marker shape-type canonicalisation and the pick/highlight
  state of the marker point layer.
- `ViewerApplication`: small helpers embedded in the viewer application. These
  are `-sandpit` detection, `#bbox#` substitution, screenshot extension fixing,
  screen-device lookup, and the maximised test.
- `Text`, `Wrappers`: Java string operations the above rely on
  (ASCII case folding, `trim`, `indexOf`, `lastIndexOf`), and `Option`/`Result`.

Interpretations made where the text leaves room:

- The cache-name expression `[\/:*?"<>|]` does not match a backslash: inside
  a Java character class `\/` is an escaped `/`. The code comment lists `\` as
  replaced. The model follows the code (`CacheNames.BackslashIsKept`).
- `Animation` documents the key frame "before" a frame as the *first* one
  before it. The model takes the nearest such key frame, meaning the one with
  the largest frame below the given frame. This is the only reading under
  which interpolation between neighbouring key frames works. The "after"
  search mirrors it.
- The TSurf reader's vertex and no-data columns are read with the corrected
  `splitStringToDoubles` (see Findings).
- GocadReaderParameters.java has no painted-variable accessor, but
  `begin` calls one. `TSurfReader.Begin` therefore takes the painted-variable
  name as a separate argument.
- The reader applies the coordinate transformation only when the parameters
  hold one. The transformation itself is a function parameter.

## Model

| member | source | states |
|---|---|---|
| CacheNames.Sanitize | Applications/Viewer/src/au/gov/ga/worldwind/dataset/downloader/Downloader.java:321 | the result has the input's length; each targeted character becomes `_` and every other character is kept in place |
| CacheNames.FilenameForUrl | Applications/Viewer/src/au/gov/ga/worldwind/dataset/downloader/Downloader.java:317-322 | the cache name is the "GA Viewer Cache" directory, one separator, then the sanitised external form, position by position |
| CacheNames.SanitizedHasNoReplacedChar | Applications/Viewer/src/au/gov/ga/worldwind/dataset/downloader/Downloader.java:319-321 | no targeted character survives sanitising |
| CacheNames.SanitizeFixesClean | Applications/Viewer/src/au/gov/ga/worldwind/dataset/downloader/Downloader.java:321 | a string without targeted characters is its own sanitised form |
| CacheNames.SanitizeIdempotent | Applications/Viewer/src/au/gov/ga/worldwind/dataset/downloader/Downloader.java:320-321 | sanitising twice equals sanitising once |
| CacheNames.FilenameTailIsStable | Applications/Viewer/src/au/gov/ga/worldwind/dataset/downloader/Downloader.java:317-322 | the file-name part of a cache name is already sanitised |
| CacheNames.BackslashIsKept | Applications/Viewer/src/au/gov/ga/worldwind/dataset/downloader/Downloader.java:319-321 | a backslash passes through, although the comment lists it |
| CacheNames.DistinctUrlsCanCollide | Applications/Viewer/src/au/gov/ga/worldwind/dataset/downloader/Downloader.java:321 | two different external forms can share one cache file |
| Retrieval.CreateRetriever | Applications/Viewer/src/au/gov/ga/worldwind/dataset/downloader/Downloader.java:324-331 | the retriever carries the URL and the if-modified-since time; it is the HTTP retriever iff the protocol equals `http` or `https` ignoring case, else the file retriever |
| Retrieval.HttpExactlyForWebProtocols | Applications/Viewer/src/au/gov/ga/worldwind/dataset/downloader/Downloader.java:324-331 | the retriever is the HTTP one exactly when the lower-cased protocol is `http` or `https` |
| PostProcessors.New | Applications/Viewer/src/au/gov/ga/worldwind/dataset/downloader/Downloader.java:379-382 | a new waiter list holds exactly its first handler and no result |
| PostProcessors.AddHandler | Applications/Viewer/src/au/gov/ga/worldwind/dataset/downloader/Downloader.java:384-394 | before resolution the handler is appended and nobody is called; after it the list is unchanged and only the new handler is called, with the stored result |
| PostProcessors.Run | Applications/Viewer/src/au/gov/ga/worldwind/dataset/downloader/Downloader.java:396-407 | the buffer becomes the stored result, and the calls made reach exactly the registered handlers, in order, all with that result |
| PostProcessors.ResolvedDeliversImmediately | Applications/Viewer/src/au/gov/ga/worldwind/dataset/downloader/Downloader.java:384-394 | on a resolved list, any later additions leave it unchanged and each added handler is called once, in order, with the stored result |
| PostProcessors.DeliversEachHandlerOnce | Applications/Viewer/src/au/gov/ga/worldwind/dataset/downloader/Downloader.java:384-407 | with one resolution anywhere in a history of additions, every handler (first, before and after the run) is called exactly once, in insertion order, with the same result |
| ActiveRetrievers.Lookup | Applications/Viewer/src/au/gov/ga/worldwind/dataset/downloader/Downloader.java:460-468 | lookup succeeds iff an equal retriever is registered, and yields its post-processor |
| ActiveRetrievers.Add | Applications/Viewer/src/au/gov/ga/worldwind/dataset/downloader/Downloader.java:470-476 | after registering, the retriever maps to the given post-processor and every other lookup is unchanged |
| ActiveRetrievers.Sweep | Applications/Viewer/src/au/gov/ga/worldwind/dataset/downloader/Downloader.java:442-458 | nothing pending clears the registry; otherwise exactly the retrievers the service still holds survive, each with its post-processor |
| ActiveRetrievers.SweepIdempotent | Applications/Viewer/src/au/gov/ga/worldwind/dataset/downloader/Downloader.java:442-458 | a second sweep with the same report changes nothing |
| ActiveRetrievers.LookupAfterSweep | Applications/Viewer/src/au/gov/ga/worldwind/dataset/downloader/Downloader.java:442-468 | after a sweep a lookup succeeds iff the retriever was registered, something is pending and the service still holds it |
| Downloader.GetFromCache | Applications/Viewer/src/au/gov/ga/worldwind/dataset/downloader/Downloader.java:256-274 | a cached result exists iff the URL's cache name has a file, and it is that file |
| Downloader.SaveToCache | Applications/Viewer/src/au/gov/ga/worldwind/dataset/downloader/Downloader.java:276-293 | afterwards the URL's cache name holds the result's bytes; other cache names and the rest of the state are unchanged |
| Downloader.Handle | Applications/Viewer/src/au/gov/ga/worldwind/dataset/downloader/Downloader.java:149-160 | a handler call is logged once; a write-through cacher handler with data stores that data under its URL; nothing else changes |
| Downloader.HandleAll | Applications/Viewer/src/au/gov/ga/worldwind/dataset/downloader/Downloader.java:401-405 | the calls of one critical section are logged in order and only log and cache change; the cache effect is stated by `HandleAllWritesThrough` and `HandleAllKeepsOtherNames` |
| Downloader.HandleAllWritesThrough | Applications/Viewer/src/au/gov/ga/worldwind/dataset/downloader/Downloader.java:401-405 | when every call carries one result, a cache name that some write-through cacher with data targets holds that result's bytes, stamped now, after the section |
| Downloader.HandleAllKeepsOtherNames | Applications/Viewer/src/au/gov/ga/worldwind/dataset/downloader/Downloader.java:401-405 | a cache name that no write-through cacher with data targets keeps its entry, or its absence, across the section |
| Downloader.Submit | Applications/Viewer/src/au/gov/ga/worldwind/dataset/downloader/Downloader.java:56-64 | if an equal retriever is registered the handler joins its post-processor and nothing is registered or queued; joining a resolved one is exactly one call of the new handler with the stored result, write-through included; otherwise one fresh post-processor holding only the handler is registered and then queued; either way the handler ends up waiting or answered |
| Downloader.RunJob | Applications/Viewer/src/au/gov/ga/worldwind/dataset/downloader/Downloader.java:333-337 | running a queued job removes it from the queue, resolves its post-processor with the buffer, keeps its handlers and every other post-processor, and logs every waiter's call in order |
| Downloader.RunJobWritesThrough | Applications/Viewer/src/au/gov/ga/worldwind/dataset/downloader/Downloader.java:333-337 | with a fetched buffer, every write-through cacher of the job's post-processor leaves the bytes, stamped now, as its URL's cache file, and its client is called with the result |
| Downloader.RunJobCacheFrame | Applications/Viewer/src/au/gov/ga/worldwind/dataset/downloader/Downloader.java:333-337 | a cache name no write-through cacher of the job targets, or every name when nothing was fetched, is left as it was |
| Downloader.SweepRegistry | Applications/Viewer/src/au/gov/ga/worldwind/dataset/downloader/Downloader.java:442-458 | the daemon's pass sweeps the registry against the queue and changes nothing else |
| Downloader.StartDownloadImmediately | Applications/Viewer/src/au/gov/ga/worldwind/dataset/downloader/Downloader.java:40-64 | with `cache` set and cached data present the call is answered from the cache and no retriever exists; otherwise the world is exactly `Submit` of a retriever without if-modified-since time for a new blocked call, so an already registered retriever is joined and never fetched twice |
| Downloader.FinishDownloadImmediately | Applications/Viewer/src/au/gov/ga/worldwind/dataset/downloader/Downloader.java:66-74 | the received result is written to the cache iff `cache` is set and the result has data |
| Downloader.StartDownloadIfModifiedImmediately | Applications/Viewer/src/au/gov/ga/worldwind/dataset/downloader/Downloader.java:89-111 | the cached file's time is sent as if-modified-since exactly when the cached result has data; the retriever is the one `createRetriever` makes, and the world is exactly `Submit` of it for a new blocked call |
| Downloader.FinishDownloadIfModifiedImmediately | Applications/Viewer/src/au/gov/ga/worldwind/dataset/downloader/Downloader.java:113-122 | a fetched result with data is cached and returned; otherwise the cached result (possibly none) is returned and the cache is untouched |
| Downloader.Download | Applications/Viewer/src/au/gov/ga/worldwind/dataset/downloader/Downloader.java:136-174 | with `cache` set and cached data present the handler is called once, marked cached, and nothing is submitted; otherwise a cacher handler is submitted |
| Downloader.DownloadWithCacheHandler | Applications/Viewer/src/au/gov/ga/worldwind/dataset/downloader/Downloader.java:217-254 | the cache handler is called, marked cached, iff cached data exists; if-modified-since is sent iff `checkIfModified` and cached data exists; the fetch is always submitted with a write-through handler |
| Downloader.DownloadIfModified | Applications/Viewer/src/au/gov/ga/worldwind/dataset/downloader/Downloader.java:192-196 | the conditional form sends the cached file's time iff cached data exists |
| Downloader.DownloadAnyway | Applications/Viewer/src/au/gov/ga/worldwind/dataset/downloader/Downloader.java:211-215 | the unconditional form never sends an if-modified-since time |
| Downloader.DownloadAnywayRefreshesCache | Applications/Viewer/src/au/gov/ga/worldwind/dataset/downloader/Downloader.java:198-254 | when no equal fetch is active, `downloadAnyway` queues one job, and running it with data stores the new bytes as the URL's cache file and calls the download client with them |
| Downloader.CacheHitFetchesNothing | Applications/Viewer/src/au/gov/ga/worldwind/dataset/downloader/Downloader.java:43-49 | a blocking cached download with cached data is answered with a result that has data |
| Downloader.WriteThroughServesLaterDownloads | Applications/Viewer/src/au/gov/ga/worldwind/dataset/downloader/Downloader.java:149-160 | after a write-through handler saw data, a later blocking cached download of that URL is answered from the cache with those bytes |
| Downloader.TwoDownloadsShareOneFetch | Applications/Viewer/src/au/gov/ga/worldwind/dataset/downloader/Downloader.java:165-173 | two downloads of one URL issued before completion queue one job, and running it calls both handlers in order with the same result |
| Downloader.ConditionalRefreshKeepsOrReplaces | Applications/Viewer/src/au/gov/ga/worldwind/dataset/downloader/Downloader.java:89-123 | with cached data, a fetch without data returns the cached result and keeps the cache; a fetch with data is returned and replaces the cache file |
| GocadParameters.Get | Applications/Common/src/main/java/au/gov/ga/worldwind/common/layers/model/gocad/GocadReaderParameters.java:87-259 | each getter reports the value of its own field |
| GocadParameters.Set | Applications/Common/src/main/java/au/gov/ga/worldwind/common/layers/model/gocad/GocadReaderParameters.java:98-259 | a setter's field reads back the value set, and every other field is unchanged |
| GocadParameters.GettersDetermineRecord | Applications/Common/src/main/java/au/gov/ga/worldwind/common/layers/model/gocad/GocadReaderParameters.java:20-30 | two records with equal getters are equal |
| GocadParameters.SetWhatIsThereIsNoChange | Applications/Common/src/main/java/au/gov/ga/worldwind/common/layers/model/gocad/GocadReaderParameters.java:87-259 | setting a field to what its getter reports changes nothing |
| GocadParameters.Present | Applications/Common/src/main/java/au/gov/ga/worldwind/common/layers/model/gocad/GocadReaderParameters.java:44-81 | a present key yields a setting for its own field |
| GocadParameters.GetAfterSetAll | Applications/Common/src/main/java/au/gov/ga/worldwind/common/layers/model/gocad/GocadReaderParameters.java:44-81 | after a series of setter calls a field holds the last value set for it, or its earlier value |
| GocadParameters.OverridesPick | Applications/Common/src/main/java/au/gov/ga/worldwind/common/layers/model/gocad/GocadReaderParameters.java:44-81 | among the constructor's overrides, a field's last override is its present key, if any |
| GocadParameters.ConstructorOrderPick | Applications/Common/src/main/java/au/gov/ga/worldwind/common/layers/model/gocad/GocadReaderParameters.java:44-81 | in the constructor's key order, each field's last override is exactly its present key |
| GocadParameters.FromAttributeValues | Applications/Common/src/main/java/au/gov/ga/worldwind/common/layers/model/gocad/GocadReaderParameters.java:44-81 | each field holds its present key's value, or the default when the key is absent |
| GocadParameters.OverriddenFields | Applications/Common/src/main/java/au/gov/ga/worldwind/common/layers/model/gocad/GocadReaderParameters.java:44-81 | field by field: present keys override, absent keys keep the default, and a coordinate system key is turned into a transformation |
| GocadParameters.FromAttributeValuesFields | Applications/Common/src/main/java/au/gov/ga/worldwind/common/layers/model/gocad/GocadReaderParameters.java:44-81 | the constructor's result, field by field, is the present value or the default |
| GocadParameters.EmptyAttributesGiveDefaults | Applications/Common/src/main/java/au/gov/ga/worldwind/common/layers/model/gocad/GocadReaderParameters.java:22-35 | an empty attribute list gives little-endian order, subsampling 1/1/1, dynamic subsampling with 50 samples, bilinear minification, no transformation and no colour map |
| GocadTokens.SplitToDoublesAsWritten | Applications/Common/src/main/java/au/gov/ga/worldwind/common/layers/model/gocad/GocadTSurfReader.java:298-316 | as written: the loop returns `AsWrittenValues`, one slot per token holding its number or 0.0 when it does not parse |
| GocadTokens.SplitsAgreeWhenAllParse | Applications/Common/src/main/java/au/gov/ga/worldwind/common/layers/model/gocad/GocadTSurfReader.java:298-316 | when every token parses, the corrected split and the loop as written return the same numbers, slot for slot |
| GocadTokens.SplitToDoubles | Applications/Common/src/main/java/au/gov/ga/worldwind/common/layers/model/gocad/GocadTSurfReader.java:298-316 | the corrected split is never longer than the tokens |
| GocadTokens.SplitToDoublesConcat | Applications/Common/src/main/java/au/gov/ga/worldwind/common/layers/model/gocad/GocadTSurfReader.java:303-312 | splitting distributes over concatenation, so token order is kept |
| GocadTokens.SplitToDoublesSingle | Applications/Common/src/main/java/au/gov/ga/worldwind/common/layers/model/gocad/GocadTSurfReader.java:305-311 | one token gives its number, or nothing when it does not parse |
| GocadTokens.SplitToDoublesFromNumbers | Applications/Common/src/main/java/au/gov/ga/worldwind/common/layers/model/gocad/GocadTSurfReader.java:298-316 | every number in the result comes from a parsed token |
| GocadTokens.AllNumbersKeepLength | Applications/Common/src/main/java/au/gov/ga/worldwind/common/layers/model/gocad/GocadTSurfReader.java:313-314 | when every token parses, the result is those numbers, same length and order |
| GocadTokens.AsWrittenKeepsUnparseableSlot | Applications/Common/src/main/java/au/gov/ga/worldwind/common/layers/model/gocad/GocadTSurfReader.java:305-311 | for the tokens `1 x 2` the code as written yields `[1.0, 0.0, 2.0]`, where `[1.0, 2.0]` is intended |
| GocadTokens.AsWrittenBlankGivesZero | Applications/Common/src/main/java/au/gov/ga/worldwind/common/layers/model/gocad/GocadTSurfReader.java:300-307 | for a blank column list the code as written yields `[0.0]`, where nothing is intended |
| TSurfReader.Begin | Applications/Common/src/main/java/au/gov/ga/worldwind/common/layers/model/gocad/GocadTSurfReader.java:72-81 | a fresh reader is empty and valid, has an empty range (min above max), positive z, no painted column, and the parameters' painted variable |
| TSurfReader.ColumnValue | Applications/Common/src/main/java/au/gov/ga/worldwind/common/layers/model/gocad/GocadTSurfReader.java:113-125 | the value is the elevation with no column selected, the selected column when it exists, and NaN when the column number exceeds the columns |
| TSurfReader.Append | Applications/Common/src/main/java/au/gov/ga/worldwind/common/layers/model/gocad/GocadTSurfReader.java:126-131 | one position and one value are appended; the range widens to include a counting value and is untouched by NaN or the no-data value |
| TSurfReader.Transformed | Applications/Common/src/main/java/au/gov/ga/worldwind/common/layers/model/gocad/GocadTSurfReader.java:101-108 | a point is transformed iff the parameters hold a transformation |
| TSurfReader.ColumnValueWhenColumnsParse | Applications/Common/src/main/java/au/gov/ga/worldwind/common/layers/model/gocad/GocadTSurfReader.java:113-125 | when every column parses, the value read is the elevation with no column selected, the selected column of the loop as written when present, and NaN past the end: the same as the code's value |
| TSurfReader.BlankColumnsGiveNaN | Applications/Common/src/main/java/au/gov/ga/worldwind/common/layers/model/gocad/GocadTSurfReader.java:113-125 | a blank column group with column 1 selected reads as NaN, where the loop as written yields the single slot 0.0 |
| TSurfReader.AddVertex | Applications/Common/src/main/java/au/gov/ga/worldwind/common/layers/model/gocad/GocadTSurfReader.java:88-134 | a mapped id fails as a duplicate; otherwise the id maps to the old position count, exactly one position (depth-negated, transformed, latitude y, longitude x) and one value are appended, and the invariant holds |
| TSurfReader.AddAtom | Applications/Common/src/main/java/au/gov/ga/worldwind/common/layers/model/gocad/GocadTSurfReader.java:136-176 | a mapped new id fails as a duplicate, an unmapped reference fails as unknown; otherwise the referenced position is appended under the new id |
| TSurfReader.SelectProperties | Applications/Common/src/main/java/au/gov/ga/worldwind/common/layers/model/gocad/GocadTSurfReader.java:221-235 | the painted column becomes the 1-based index of the first matching name; with no match nothing changes |
| TSurfReader.SetNoData | Applications/Common/src/main/java/au/gov/ga/worldwind/common/layers/model/gocad/GocadTSurfReader.java:237-245 | with no column selected the access at index -1 fails; with the column present its entry becomes the no-data value; otherwise nothing changes |
| TSurfReader.SetNoDataWhenTokensParse | Applications/Common/src/main/java/au/gov/ga/worldwind/common/layers/model/gocad/GocadTSurfReader.java:237-245 | when every token parses, a selected column present in the line becomes the no-data value taken from the loop as written, and a column past the end leaves the reader unchanged |
| TSurfReader.AddLine | Applications/Common/src/main/java/au/gov/ga/worldwind/common/layers/model/gocad/GocadTSurfReader.java:84-246 | keeps the reader invariant and only widens the range; triangles append exactly their three ids in order; `ZPOSITIVE` sets z positive iff the word is not "depth" ignoring case; a painted-variable line counts only without a configured variable; name, z-positive and painted-variable lines change only their own field, and unrecognised lines nothing |
| TSurfReader.ReadLines | Applications/Common/src/main/java/au/gov/ga/worldwind/common/layers/model/gocad/GocadTSurfReader.java:84-246 | reading lines in order keeps the invariant and only widens the range |
| TSurfReader.AddLineBracketsCountedValue | Applications/Common/src/main/java/au/gov/ga/worldwind/common/layers/model/gocad/GocadTSurfReader.java:126-130 | a counting vertex or atom value lies within the range afterwards |
| TSurfReader.RangeBracketsTrackedValues | Applications/Common/src/main/java/au/gov/ga/worldwind/common/layers/model/gocad/GocadTSurfReader.java:126-172 | after reading, the range brackets every value that counted when read, and is non-empty once one has |
| TSurfReader.MapIds | Applications/Common/src/main/java/au/gov/ga/worldwind/common/layers/model/gocad/GocadTSurfReader.java:251-259 | mapping succeeds iff every triangle id is mapped, index by index; otherwise it fails on the first unmapped id |
| TSurfReader.End | Applications/Common/src/main/java/au/gov/ga/worldwind/common/layers/model/gocad/GocadTSurfReader.java:248-296 | the shape fails iff some triangle id is unmapped; otherwise its indices are valid position indices in triangle order, its name defaults to "TSurf", and with a colour map exactly the counting values are coloured |
| SectionLayers.IndexOf | Applications/Viewer/src/au/gov/ga/worldwind/panels/layers/ExtendedLayerList.java:31 | the first index holding the layer, absent iff the layer is not in the list |
| SectionLayers.RegisterSection | Applications/Viewer/src/au/gov/ga/worldwind/panels/layers/ExtendedLayerList.java:18-23 | one marker is appended at the end and the section maps to it; other sections keep their mapping; a fresh marker is distinct from every layer already there |
| SectionLayers.MarkerIndex | Applications/Viewer/src/au/gov/ga/worldwind/panels/layers/ExtendedLayerList.java:28-32 | the position of the section's marker, absent iff the section is unmapped or its marker is not in the list |
| SectionLayers.AddAllFromSection | Applications/Viewer/src/au/gov/ga/worldwind/panels/layers/ExtendedLayerList.java:26-41 | with a marker at i the new layers go, in order, right after i with the prefix up to i and the rest kept; otherwise they are appended; the length grows by their count |
| SectionLayers.Without | Applications/Viewer/src/au/gov/ga/worldwind/panels/layers/ExtendedLayerList.java:46 | a layer remains iff it was there and is not being removed |
| SectionLayers.WithoutCounts | Applications/Viewer/src/au/gov/ga/worldwind/panels/layers/ExtendedLayerList.java:46 | every occurrence of a removed layer goes, and other layers keep their count |
| SectionLayers.RemoveAllFromSection | Applications/Viewer/src/au/gov/ga/worldwind/panels/layers/ExtendedLayerList.java:44-47 | removes every occurrence of the given layers whatever the section, keeps the others with their counts, and leaves the sections alone |
| SectionLayers.WithoutConcat | Applications/Viewer/src/au/gov/ga/worldwind/panels/layers/ExtendedLayerList.java:46 | removal keeps the relative order of the remaining layers |
| SectionLayers.WithoutDisjoint | Applications/Viewer/src/au/gov/ga/worldwind/panels/layers/ExtendedLayerList.java:46 | removing absent layers changes nothing |
| SectionLayers.WithoutCovered | Applications/Viewer/src/au/gov/ga/worldwind/panels/layers/ExtendedLayerList.java:46 | a list made only of removed layers becomes empty |
| SectionLayers.WithoutSplice | Applications/Viewer/src/au/gov/ga/worldwind/panels/layers/ExtendedLayerList.java:46 | removing a spliced-in block restores the list around it |
| SectionLayers.RemoveUndoesAdd | Applications/Viewer/src/au/gov/ga/worldwind/panels/layers/ExtendedLayerList.java:26-47 | removing layers that were new before adding them, from any section, restores the list |
| SectionLayers.RegisterThenAdd | Applications/Viewer/src/au/gov/ga/worldwind/panels/layers/ExtendedLayerList.java:18-41 | after registering a section, adding to it appends right after its new marker at the end |
| Codependants.Add | Applications/Animator/src/au/gov/ga/worldwind/animator/util/CodependantHelper.java:28-35 | without an owner nothing changes; a new member joins and is connected to the owner once; a known member changes nothing |
| Codependants.AddIsIdempotent | Applications/Animator/src/au/gov/ga/worldwind/animator/util/CodependantHelper.java:28-35 | adding the same member twice connects it at most once |
| Codependants.AddAll | Applications/Animator/src/au/gov/ga/worldwind/animator/util/CodependantHelper.java:28-35 | a helper for a series of additions; it keeps the owner, and its members and connections are stated by `AddAllMembers`, `AddAllConnectsToOwner` and `AddAllConnectsEachNewcomerOnce` |
| Codependants.AddAllMembers | Applications/Animator/src/au/gov/ga/worldwind/animator/util/CodependantHelper.java:28-35 | with an owner the members become the old ones plus all added; without one nothing changes and nobody is connected |
| Codependants.AddAllConnectsToOwner | Applications/Animator/src/au/gov/ga/worldwind/animator/util/CodependantHelper.java:28-35 | every connection made is to the owner |
| Codependants.AddAllConnectsEachNewcomerOnce | Applications/Animator/src/au/gov/ga/worldwind/animator/util/CodependantHelper.java:28-35 | each added value is connected exactly once if it was new and there is an owner, and never otherwise |
| Codependants.SetAll | Applications/Animator/src/au/gov/ga/worldwind/animator/util/CodependantHelper.java:37-46 | every member ends with the flag value, non-members keep theirs, and the setter is invoked exactly on members whose flag differed |
| Codependants.NewHelper | Applications/Animator/src/au/gov/ga/worldwind/animator/util/CodependantHelper.java:22-26 | a new helper has its two owners and two empty sets |
| Codependants.AddCodependantArmable | Applications/Animator/src/au/gov/ga/worldwind/animator/util/CodependantHelper.java:28-35 | adds to the armable set as `Add` does and leaves the enableables untouched |
| Codependants.AddCodependantEnableable | Applications/Animator/src/au/gov/ga/worldwind/animator/util/CodependantHelper.java:48-55 | adds to the enableable set as `Add` does and leaves the armables untouched |
| Codependants.SetCodependantArmed | Applications/Animator/src/au/gov/ga/worldwind/animator/util/CodependantHelper.java:37-46 | every co-dependant armable ends armed as asked, only those that differed are set, other objects are untouched |
| Codependants.SetCodependantEnabled | Applications/Animator/src/au/gov/ga/worldwind/animator/util/CodependantHelper.java:57-66 | the same for enableables and their enabled flag |
| Sectors.DeltaLatitude | Utilities/Tiler/src/main/java/au/gov/ga/worldwind/tiler/util/Sector.java:40-43 | the delta added to the minimum gives the maximum, and is non-negative iff the bounds are ordered |
| Sectors.DeltaLongitude | Utilities/Tiler/src/main/java/au/gov/ga/worldwind/tiler/util/Sector.java:45-48 | the same on longitude |
| Sectors.CenterLatitude | Utilities/Tiler/src/main/java/au/gov/ga/worldwind/tiler/util/Sector.java:50-53 | the centre is equidistant from both bounds |
| Sectors.CenterLongitude | Utilities/Tiler/src/main/java/au/gov/ga/worldwind/tiler/util/Sector.java:55-58 | the same on longitude |
| Sectors.ContainsPoint | Utilities/Tiler/src/main/java/au/gov/ga/worldwind/tiler/util/Sector.java:60-64 | a point is inside when both coordinates lie within the closed bounds; its relation to the deltas, centre, corners and ordering is stated by the lemmas below |
| Sectors.ContainsMeansWithinDeltas | Utilities/Tiler/src/main/java/au/gov/ga/worldwind/tiler/util/Sector.java:40-64 | a point is contained iff its offsets from the minima lie within the deltas |
| Sectors.CentreAndCornersContained | Utilities/Tiler/src/main/java/au/gov/ga/worldwind/tiler/util/Sector.java:50-64 | with ordered bounds the centre and the four corners are contained |
| Sectors.ContainingImpliesOrdered | Utilities/Tiler/src/main/java/au/gov/ga/worldwind/tiler/util/Sector.java:60-64 | a sector containing any point has non-negative deltas |
| Sectors.FullSphereContainsEveryCoordinate | Utilities/Tiler/src/main/java/au/gov/ga/worldwind/tiler/util/Sector.java:5 | the full sphere contains a point iff its latitude is in [-90, 90] and its longitude in [-180, 180]; its centre is (0, 0) and its deltas 180 and 360 |
| Animations.KeyFrameCount | Applications/Animator/src/au/gov/ga/worldwind/animator/animation/Animation.java:34-37 | the count is the number of key frames |
| Animations.HasKeyFrames | Applications/Animator/src/au/gov/ga/worldwind/animator/animation/Animation.java:28-32 | there are key frames iff the count is positive |
| Animations.LastIndexBefore | Applications/Animator/src/au/gov/ga/worldwind/animator/animation/Animation.java:39-51 | the last index whose key frame is before the frame and holds the parameter, none iff there is no such key frame |
| Animations.FirstIndexAfter | Applications/Animator/src/au/gov/ga/worldwind/animator/animation/Animation.java:53-65 | the first index whose key frame is after the frame and holds the parameter, none iff there is no such key frame |
| Animations.KeyFrameBefore | Applications/Animator/src/au/gov/ga/worldwind/animator/animation/Animation.java:39-51 | a key frame strictly before the frame holding the parameter, the nearest one; none iff no such key frame exists |
| Animations.KeyFrameAfter | Applications/Animator/src/au/gov/ga/worldwind/animator/animation/Animation.java:53-65 | a key frame strictly after the frame holding the parameter, the nearest one; none iff no such key frame exists |
| Animations.FirstKeyFrame | Applications/Animator/src/au/gov/ga/worldwind/animator/animation/Animation.java:67-70 | none iff there are no key frames; otherwise a key frame with the smallest frame |
| Animations.LastKeyFrame | Applications/Animator/src/au/gov/ga/worldwind/animator/animation/Animation.java:79-82 | none iff there are no key frames; otherwise a key frame with the largest frame |
| Animations.FrameOfFirstKeyFrame | Applications/Animator/src/au/gov/ga/worldwind/animator/animation/Animation.java:72-77 | 0 without key frames; otherwise the minimum frame of a key frame |
| Animations.FrameOfLastKeyFrame | Applications/Animator/src/au/gov/ga/worldwind/animator/animation/Animation.java:84-89 | 0 without key frames; otherwise the maximum frame of a key frame |
| Animations.UpTo | Applications/Animator/src/au/gov/ga/worldwind/animator/animation/Animation.java:111-119 | keeps exactly the key frames at or below the frame |
| Animations.UpToSorted | Applications/Animator/src/au/gov/ga/worldwind/animator/animation/Animation.java:111-119 | truncation keeps the key frames sorted |
| Animations.SortedCons | Applications/Animator/src/au/gov/ga/worldwind/animator/animation/Animation.java:20-26 | a key frame before every frame of a sorted list extends it sorted |
| Animations.SetFrameCount | Applications/Animator/src/au/gov/ga/worldwind/animator/animation/Animation.java:111-119 | the frame count is set; shrinking drops exactly the key frames past the new count; growing keeps them all; the result stays sorted |
| Animations.ApplyFrame | Applications/Animator/src/au/gov/ga/worldwind/animator/animation/Animation.java:121-128 | a frame below 0 or above the frame count is rejected, any other is accepted |
| Animations.AtFrame | Applications/Animator/src/au/gov/ga/worldwind/animator/animation/Animation.java:152-160 | the key frame at a frame, none iff no key frame has that frame |
| Animations.Insert | Applications/Animator/src/au/gov/ga/worldwind/animator/animation/Animation.java:152-160 | insertion keeps the list sorted, adds only at the new frame and loses no key frame at another frame |
| Animations.InsertMerges | Applications/Animator/src/au/gov/ga/worldwind/animator/animation/Animation.java:152-160 | at an occupied frame the values merge with the new ones taking precedence and the count does not grow; otherwise the key frame is added and the count grows by one |
| Animations.InsertKeyFrame | Applications/Animator/src/au/gov/ga/worldwind/animator/animation/Animation.java:152-160 | the animation stays valid, adds only at the new frame, keeps the other key frames, and changes nothing else |
| Animations.RecordKeyFrame | Applications/Animator/src/au/gov/ga/worldwind/animator/animation/Animation.java:141-150 | an empty parameter collection changes nothing; otherwise the current values are inserted as a key frame |
| Animations.RecordKeyFrameStoresValues | Applications/Animator/src/au/gov/ga/worldwind/animator/animation/Animation.java:141-150 | after recording, the key frame at that frame holds each recorded parameter's current value, keeps other values already keyed there, and the count grows iff the frame was not keyed |
| Text.FirstEqualIgnoringCase | Applications/Common/src/au/gov/ga/worldwind/common/layers/point/types/MarkerPointLayer.java:105-130 | the first name equal to the string ignoring case, none iff no name matches |
| MarkerLayers.FixShapeTypeAmong | Applications/Common/src/au/gov/ga/worldwind/common/layers/point/types/MarkerPointLayer.java:100-131 | a null type stays null; a type matching no name is unchanged; any change yields a listed name equal to the type ignoring case |
| MarkerLayers.FixShapeType | Applications/Common/src/au/gov/ga/worldwind/common/layers/point/types/MarkerPointLayer.java:100-131 | the same over the eleven shape names |
| MarkerLayers.FixShapeTypeIdempotent | Applications/Common/src/au/gov/ga/worldwind/common/layers/point/types/MarkerPointLayer.java:100-131 | fixing twice equals fixing once |
| MarkerLayers.FixShapeTypeCanonicalises | Applications/Common/src/au/gov/ga/worldwind/common/layers/point/types/MarkerPointLayer.java:105-130 | a type matching a name ignoring case, with no earlier match, becomes exactly that name |
| MarkerLayers.InitialIsValid | Applications/Common/src/au/gov/ga/worldwind/common/layers/point/types/MarkerPointLayer.java:42-46 | the new layer has nothing picked, nothing highlighted and a hidden tooltip |
| MarkerLayers.AddPoint | Applications/Common/src/au/gov/ga/worldwind/common/layers/point/types/MarkerPointLayer.java:88-98 | exactly one marker is appended, carrying the style's link and text and the fixed shape type; nothing else changes |
| MarkerLayers.Highlight | Applications/Common/src/au/gov/ga/worldwind/common/layers/point/types/MarkerPointLayer.java:191-206 | highlighting shows the marker's tooltip at its position; unhighlighting hides the tooltip; markers and pick are unchanged |
| MarkerLayers.Selected | Applications/Common/src/au/gov/ga/worldwind/common/layers/point/types/MarkerPointLayer.java:152-189 | a null event changes nothing; a picked marker becomes the one highlighted pick with its tooltip, and a left click opens its link; otherwise the old pick is unhighlighted and cleared; the tooltip shows iff something is picked |
| MarkerLayers.SelectionKeepsOneHighlight | Applications/Common/src/au/gov/ga/worldwind/common/layers/point/types/MarkerPointLayer.java:152-206 | over any series of events at most one marker is highlighted, only the picked one, and the tooltip shows iff a marker is picked |
| ViewerApplication.LastArgument | Applications/Viewer/src/au/gov/ga/worldwind/viewer/application/Application.java:165 | none iff there are no arguments; otherwise the last argument lower-cased and trimmed |
| ViewerApplication.IsSandpit | Applications/Viewer/src/au/gov/ga/worldwind/viewer/application/Application.java:165-166 | sandpit mode iff the last argument, lower-cased and trimmed, is `-sandpit` or `--sandpit`; with the lemmas below it removes that argument from the theme search |
| ViewerApplication.EffectiveArgumentCount | Applications/Viewer/src/au/gov/ga/worldwind/viewer/application/Application.java:163-171 | one less than the argument count in sandpit mode, the argument count otherwise |
| ViewerApplication.ThemeArgument | Applications/Viewer/src/au/gov/ga/worldwind/viewer/application/Application.java:176-187 | the first argument is the theme candidate iff the effective count is positive |
| ViewerApplication.SandpitFlagDoesNotChangeTheme | Applications/Viewer/src/au/gov/ga/worldwind/viewer/application/Application.java:163-182 | appending a flag that lower-cases and trims to `-sandpit` or `--sandpit` switches sandpit mode on and leaves the count and theme argument as without it |
| ViewerApplication.SubstituteBbox | Applications/Viewer/src/au/gov/ga/worldwind/viewer/application/Application.java:1346-1352 | without the placeholder the URL is unchanged; with it the first occurrence is replaced by the bbox text |
| ViewerApplication.SubstituteFirstPlaceholderOnly | Applications/Viewer/src/au/gov/ga/worldwind/viewer/application/Application.java:1346-1352 | only the first placeholder is replaced, later ones stay |
| ViewerApplication.ChooseExtension | Applications/Viewer/src/au/gov/ga/worldwind/viewer/application/Application.java:900-909 | the chosen filter's format when it is one of the created filters, "jpg" otherwise |
| ViewerApplication.Extension | Applications/Viewer/src/au/gov/ga/worldwind/viewer/application/Application.java:911-916 | an extension exists iff the last dot is past index 0, and it is the text after that dot |
| ViewerApplication.FixExtension | Applications/Viewer/src/au/gov/ga/worldwind/viewer/application/Application.java:918-923 | the name is kept iff its extension, lower-cased, equals the new one; otherwise a dot and the new extension are appended |
| ViewerApplication.FixedNameHasExtension | Applications/Viewer/src/au/gov/ga/worldwind/viewer/application/Application.java:910-923 | a fixed name has the wanted extension, and fixing again changes nothing |
| ViewerApplication.LeadingDotIsNotAnExtension | Applications/Viewer/src/au/gov/ga/worldwind/viewer/application/Application.java:911-923 | `.jpg` becomes `.jpg.jpg` |
| ViewerApplication.ExtensionCaseIsIgnored | Applications/Viewer/src/au/gov/ga/worldwind/viewer/application/Application.java:919-923 | `shot.JPG` is kept for jpg and `shot.png` becomes `shot.png.jpg` |
| ViewerApplication.GraphicsDeviceForId | Applications/Viewer/src/au/gov/ga/worldwind/viewer/application/Application.java:1123-1137 | a null id or no matching device gives the default; otherwise the first device with that id |
| ViewerApplication.FirstWithId | Applications/Viewer/src/au/gov/ga/worldwind/viewer/application/Application.java:1128-1134 | the first device with the id, none iff no device has it |
| ViewerApplication.OtherGraphicsDevice | Applications/Viewer/src/au/gov/ga/worldwind/viewer/application/Application.java:1139-1150 | the first device different from the given one, none iff all devices are the given one |
| ViewerApplication.IsMaximized | Applications/Viewer/src/au/gov/ga/worldwind/viewer/application/Application.java:1073-1076 | maximised iff both the horizontal and vertical maximised bits are set |
| Text.Lower | Applications/Viewer/src/au/gov/ga/worldwind/viewer/application/Application.java:165 | lower-casing keeps the length and maps each character on its own |
| Text.EqualsIgnoreCase | Applications/Common/src/main/java/au/gov/ga/worldwind/common/layers/model/gocad/GocadTSurfReader.java:207 | the strings have equal length and agree position by position after ASCII lower-casing; the lemma below proves this is equality of the lower-cased strings |
| Text.EqualsIgnoreCaseIsLowerEquality | Applications/Common/src/main/java/au/gov/ga/worldwind/common/layers/model/gocad/GocadTSurfReader.java:207 | equality ignoring case is equality of the lower-cased strings |
| Text.Trim | Applications/Viewer/src/au/gov/ga/worldwind/viewer/application/Application.java:165 | trimming never lengthens, leaves no character at or below U+0020 at either end, and keeps whole an input without one at either end |
| Text.TrimBetweenTrimmedRuns | Applications/Viewer/src/au/gov/ga/worldwind/viewer/application/Application.java:165 | the trimmed string is the slice of the input that starts after the leading run dropped by `TrimStart`, and every character outside that slice is at or below U+0020 |
| Text.TrimStart | Applications/Viewer/src/au/gov/ga/worldwind/viewer/application/Application.java:165 | the result is a suffix of the input, every character dropped before it is at or below U+0020, and it does not start with one |
| Text.TrimEnd | Applications/Viewer/src/au/gov/ga/worldwind/viewer/application/Application.java:165 | the result is a prefix of the input, every character dropped after it is at or below U+0020, and it does not end with one |
| Text.IndexOf | Applications/Viewer/src/au/gov/ga/worldwind/viewer/application/Application.java:1348 | the first occurrence of the pattern, -1 iff there is none |
| Text.IndexFrom | Applications/Viewer/src/au/gov/ga/worldwind/viewer/application/Application.java:1348 | the first occurrence at or after a start index, -1 iff there is none |
| Text.LastIndexOf | Applications/Viewer/src/au/gov/ga/worldwind/viewer/application/Application.java:911 | the last index of the character, -1 iff it does not occur |
| Text.LastIndexOfIs | Applications/Viewer/src/au/gov/ga/worldwind/viewer/application/Application.java:911 | an occurrence with none after it is the last index |

## Left out

- Threads: the daemon sweep thread, the `wait`/`notify` of the blocking
  handler and the interleaving of `synchronized` methods (Applications/Viewer/src/au/gov/ga/worldwind/dataset/downloader/Downloader.java:339-371,
  420-439). Each critical section is one transition, and `SweepRegistry` is
  one pass of the sweep loop.
- The World Wind data-file store, `WWIO.saveBuffer`, the file permissions and
  the retrieval service are not part of this model. The cache is a map from
  cache name to file, the service is a job queue, and a save failure (which the
  code only prints) is not modelled.
- The HTTP and file retrievers and the retrieval-result classes are not part of
  this model. A retriever is a value compared by equality, and its fetched
  buffer is an input to `RunJob`.
- The TSurf line regular expressions, `Integer.parseInt`, `Double.parseDouble`
  and `GocadColor.gocadLineToColor`: lines and numbers arrive classified and
  parsed.
- The GDAL coordinate transformation is a function parameter. The colour map's
  colour arithmetic, `FastShape`, `BufferUtil` and the lighting flags are not
  modelled. `TSurfReader.End` states which vertices get a colour, not the
  colour.
- Floating point: `float` and `double` values are `real`. There is no rounding,
  and a `(float)` cast is the identity. NaN is an explicit `Value.NaN`, and the
  starting bounds are plus and minus `Float.MAX_VALUE`.
- Sectors.DeltaLatitude: the deltas and centres are exact over `real`, so
  `double` rounding is not modelled.
- 32-bit integer overflow in vertex ids, subsampling values and frame numbers
  is not modelled, because ids and counts are unbounded integers.
- Case folding is ASCII-only in `Text.Lower`. `toLowerCase` and
  `equalsIgnoreCase` on non-ASCII letters are not modelled.
- `Animation` getters and setters for the current frame, zoom scaling and
  render parameters, and the parameter and animatable collections: they are
  plain accessors with no documented contract. `recordKeyFrame(frame)` is
  `RecordKeyFrame` applied to the enabled parameters, which are an input here.
- Animations.KeyFrameBefore: the nearest key frame is chosen where the
  documentation says "first" (see above).
- Animations.ApplyFrame: only the frame-range check is modelled. Applying
  parameter values to the world depends on parameter implementations outside
  this model.
- `Sector` immutability holds by construction, because a datatype value never
  changes. `toString` is not modelled.
- The eleven marker shape names are the fully qualified `BasicMarkerShape`
  names of World Wind, which is not part of this model. The canonicalisation
  proofs hold for any list of names.
- Marker material backup and restore, `DefaultLauncher.openURL` and URL
  validity: `MarkerLayers.Selected` returns the link to open instead of
  opening it, and a malformed link is not modelled.
- The viewer's Swing, menu and frame code, the file chooser and the
  overwrite dialog, `Settings`, and the theme URL/file fallback after the
  theme argument are not modelled.
- The bbox text is an input to `SubstituteBbox`, so its number formatting is
  not modelled. The screenshot file's parent directory is not modelled either.
- File.separator is fixed to `/`.
- GocadTokens.SplitToDoubles: the contract states only the length bound. The
  content (order kept, unparseable tokens dropped) is stated by
  `SplitToDoublesConcat`, `SplitToDoublesSingle`, `SplitToDoublesFromNumbers`
  and `AllNumbersKeepLength`.
- Downloader.DownloadIfModified: the contract states only the if-modified-since
  choice. The rest is `Downloader.DownloadWithCacheHandler`'s contract, to
  which it delegates.
- Downloader.StartDownloadImmediately: `downloadImmediately` and
  `downloadImmediatelyIfModified` are `static synchronized` and wait while
  holding the class lock (Applications/Viewer/src/au/gov/ga/worldwind/dataset/downloader/Downloader.java:40, 67, 89, 114, 346-352). No other entry point
  can run between their start and finish. The model still allows any
  transition in that gap, so its reachable worlds over-approximate the code's.
  `FinishDownloadImmediately` closes the same gap.
- Downloader.StartDownloadIfModifiedImmediately: the same over-approximation
  as Downloader.StartDownloadImmediately, closed by
  `FinishDownloadIfModifiedImmediately`.
- ActiveRetrievers.Lookup: a retriever is identified by structural equality of
  its kind, URL and if-modified-since time. World Wind's `URLRetriever.equals`
  is not part of this model, and it may compare only the class and URL. Under
  that equality a conditional and an unconditional download of one URL would
  share one fetch, and the model would keep them apart. ActiveRetrievers.Add
  and Downloader.Submit use the same equality.
- Codependants.SetAll: `setArmed`/`setEnabled` are assumed to change only the
  receiver's own flag. `Armable` and `Enableable` are not part of this model.
  A member whose setter calls back into its own helper
  (Applications/Animator/src/au/gov/ga/worldwind/animator/util/CodependantHelper.java:33, 41, 53, 61) could change other members' flags before the loop
  reaches them. The members invoked would then be a subset of those named
  here.
- Codependants.SetCodependantArmed: rests on the same assumption about
  `setArmed` as Codependants.SetAll.
- Codependants.SetCodependantEnabled: rests on the same assumption about
  `setEnabled` as Codependants.SetAll.
- TSurfReader.ColumnValue: columns are read with the corrected split (see
  Findings). When a column does not parse, or the column group is blank, the
  code as written reads 0.0 where the model reads NaN or a later column.
  `ColumnValueWhenColumnsParse` proves that the two agree whenever every
  column parses, and `BlankColumnsGiveNaN` exhibits the blank case.
- TSurfReader.AddVertex: its value comes from `TSurfReader.ColumnValue`, with
  the same divergence on unparseable or blank columns (Applications/Common/src/main/java/au/gov/ga/worldwind/common/layers/model/gocad/GocadTSurfReader.java:113-125).
- TSurfReader.AddAtom: the atom line's own column group is read in the same
  way, with the same divergence (Applications/Common/src/main/java/au/gov/ga/worldwind/common/layers/model/gocad/GocadTSurfReader.java:155-166).
- TSurfReader.SetNoData: a blank or unparseable `NO_DATA_VALUES` line sets the
  no-data value to 0.0 in the code as written, where the model leaves it
  unchanged or takes a later column. `SetNoDataWhenTokensParse` proves
  agreement whenever every token parses.
- GocadParameters.FromAttributeValues: attribute values arrive typed. The
  constructor casts each value it reads, and a value of the wrong type throws
  `ClassCastException`; that failure is not modelled.
- Downloader.DownloadAnywayRefreshesCache: states the case where no equal
  fetch is active. A download that joins an active fetch gets the same
  write-through when that fetch runs, by `Downloader.RunJobWritesThrough`.
- SegmentGeometry, TransformViewUtils, FreeRotateOrbitViewInputHandler,
  SearchWmsServerDialog, JVisibleDialog, ThemeOpener, MultiPointZ, the path
  Position class, AVKeyMore, GeometryLayerBase, ParameterCurveModel,
  ParameterCurveKeyNode and XmlAnimationWriter are not part of this model.
  They are rendering math, UI, constants, delegation or XML I/O.

## Findings

| source | as written | input that shows it | evidently intended | confidence | as-written member | corrected member |
|---|---|---|---|---|---|---|
| Applications/Common/src/main/java/au/gov/ga/worldwind/common/layers/model/gocad/GocadTSurfReader.java:298-316 | `array[i++] = Double.parseDouble(sp)` increments `i` before the parse can throw. An unparseable token therefore keeps a 0.0 slot, `i` always reaches `split.length`, and the array is never shortened. | the column text `1 x 2` gives `[1.0, 0.0, 2.0]`; a blank text splits into one empty token and gives `[0.0]` | only the parseable numbers, in order: `[1.0, 2.0]` and `[]` | high; not executed | GocadTokens.SplitToDoublesAsWritten (with GocadTokens.AsWrittenKeepsUnparseableSlot and GocadTokens.AsWrittenBlankGivesZero) | GocadTokens.SplitToDoubles (with GocadTokens.SplitToDoublesConcat, GocadTokens.SplitToDoublesSingle and GocadTokens.AllNumbersKeepLength) |
