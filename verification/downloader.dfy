/** `Downloader`: the download entry points over one explicit world state (the
    cache store, the active-retriever registry, the post-processors, the
    retrieval service's queue and what callers have observed). Every
    `synchronized` section is one atomic transition. A blocking call is split in
    two transitions: the one that starts or joins the fetch, and the one that
    continues once its handler has received the result. */
module Downloader {
  import opened Wrappers
  import opened Retrieval
  import CacheNames
  import PP = PostProcessors
  import AR = ActiveRetrievers

  /** A retriever handed to the retrieval service, with the post-processor it runs. */
  datatype Job = Job(retriever: Retriever, pp: nat)

  /** What callers observe: the result handed to a blocked call, or a call of a
      caller's own handler. */
  datatype Event =
    | Stored(call: nat, result: RetrievalResult)
    | Called(client: Client, result: RetrievalResult, cached: bool)

  /** The coordinator's whole state. Post-processors are referred to by their
      index in `processors`. */
  datatype World = World(
    cache: map<string, CacheFile>,
    registry: AR.Registry,
    processors: seq<PP.PostProcessor>,
    queue: seq<Job>,
    log: seq<Event>,
    nextCall: nat)

  /** Every post-processor reference in the registry and the queue is allocated. */
  predicate Valid(w: World) {
    && (forall r :: r in w.registry ==> w.registry[r] < |w.processors|)
    && (forall i :: 0 <= i < |w.queue| ==> w.queue[i].pp < |w.processors|)
  }

  /** The cache file name of a URL. */
  function CacheKey(url: Url): string {
    CacheNames.FilenameForUrl(url.external)
  }

  /** `getFromCache`: the cached file for the URL as a result, or null. */
  function GetFromCache(w: World, url: Url): (o: Option<RetrievalResult>)
    ensures o.Some? <==> CacheKey(url) in w.cache
    ensures o.Some? ==> o.value == FileResult(w.cache[CacheKey(url)]) && o.value.FileResult?
  {
    if CacheKey(url) in w.cache then Some(FileResult(w.cache[CacheKey(url)])) else None
  }

  /** True when the cache holds readable data for the URL. */
  predicate CachedWithData(w: World, url: Url) {
    var c := GetFromCache(w, url);
    c.Some? && c.value.HasData()
  }

  /** `saveToCache`: the result's bytes become the URL's cache file, stamped `now`. */
  function SaveToCache(w: World, url: Url, r: RetrievalResult, now: int): (w': World)
    requires r.HasData()
    ensures GetFromCache(w', url) == Some(FileResult(CacheFile(Some(r.AsBuffer()), now)))
    ensures forall u :: CacheKey(u) != CacheKey(url) ==> GetFromCache(w', u) == GetFromCache(w, u)
    ensures w' == w.(cache := w'.cache)
  {
    w.(cache := w.cache[CacheKey(url) := CacheFile(Some(r.AsBuffer()), now)])
  }

  /** What a caller sees of one handler call. */
  function EventOf(d: PP.Delivery): Event {
    match d.handler
    case Immediate(call) => Stored(call, d.result)
    case Cacher(_, _, client) => Called(client, d.result, false)
  }

  function Events(ds: seq<PP.Delivery>): (es: seq<Event>)
    ensures |es| == |ds| && forall i :: 0 <= i < |ds| ==> es[i] == EventOf(ds[i])
    decreases |ds|
  {
    if |ds| == 0 then [] else [EventOf(ds[0])] + Events(ds[1..])
  }

  /** One handler call. The cacher handler writes a result with data through to
      the cache before it calls the caller's handler. */
  function Handle(w: World, d: PP.Delivery, now: int): (w': World)
    ensures w'.log == w.log + [EventOf(d)]
    ensures w' == w.(log := w'.log, cache := w'.cache)
    ensures d.handler.Cacher? && d.handler.writeThrough && d.result.HasData() ==>
      w'.cache == w.cache[CacheKey(d.handler.url) := CacheFile(Some(d.result.AsBuffer()), now)]
    ensures !(d.handler.Cacher? && d.handler.writeThrough && d.result.HasData()) ==> w'.cache == w.cache
  {
    match d.handler
    case Immediate(call) => w.(log := w.log + [Stored(call, d.result)])
    case Cacher(url, writeThrough, client) =>
      var w1 := if writeThrough && d.result.HasData() then SaveToCache(w, url, d.result, now) else w;
      w1.(log := w1.log + [Called(client, d.result, false)])
  }

  /** The handler calls of one critical section, in order. */
  function HandleAll(w: World, ds: seq<PP.Delivery>, now: int): (w': World)
    ensures w'.log == w.log + Events(ds)
    ensures w' == w.(log := w'.log, cache := w'.cache)
    decreases |ds|
  {
    if |ds| == 0 then w
    else
      var w1 := Handle(w, ds[0], now);
      var w' := HandleAll(w1, ds[1..], now);
      assert w'.log == w.log + Events(ds) by {
        AppendAssociative(w.log, [EventOf(ds[0])], Events(ds[1..]));
      }
      w'
  }

  lemma AppendAssociative<T>(a: seq<T>, b: seq<T>, c: seq<T>)
    ensures (a + b) + c == a + (b + c)
  {
  }

  /** Delivery `d` goes to a cacher that writes its result, which has data,
      through to cache name `k`. */
  predicate WritesThrough(d: PP.Delivery, k: string) {
    d.handler.Cacher? && d.handler.writeThrough && d.result.HasData() && CacheKey(d.handler.url) == k
  }

  /** Write-through over a whole critical section whose deliveries all carry
      one result: a cache name some delivery writes through to ends up holding
      that result's bytes, stamped `now`. */
  lemma {:induction false} HandleAllWritesThrough(w: World, ds: seq<PP.Delivery>, r: RetrievalResult, now: int, k: string)
    requires PP.AllCarry(ds, r)
    requires exists j :: 0 <= j < |ds| && WritesThrough(ds[j], k)
    ensures r.HasData()
    ensures var c := HandleAll(w, ds, now).cache;
      k in c && c[k] == CacheFile(Some(r.AsBuffer()), now)
    decreases |ds|
  {
    var w1 := Handle(w, ds[0], now);
    var rest := ds[1..];
    assert HandleAll(w, ds, now) == HandleAll(w1, rest, now);
    if exists j :: 1 <= j < |ds| && WritesThrough(ds[j], k) {
      var j :| 1 <= j < |ds| && WritesThrough(ds[j], k);
      assert WritesThrough(rest[j - 1], k);
      assert PP.AllCarry(rest, r);
      HandleAllWritesThrough(w1, rest, r, now, k);
    } else {
      assert WritesThrough(ds[0], k) && ds[0].result == r;
      assert k in w1.cache && w1.cache[k] == CacheFile(Some(r.AsBuffer()), now);
      NoLaterWrite(ds, k);
      HandleAllKeepsOtherNames(w1, rest, now, k);
    }
  }

  /** A cache name no delivery writes through to keeps its entry, or its
      absence, across a critical section. */
  lemma {:induction false} HandleAllKeepsOtherNames(w: World, ds: seq<PP.Delivery>, now: int, k: string)
    requires forall j :: 0 <= j < |ds| ==> !WritesThrough(ds[j], k)
    ensures var c := HandleAll(w, ds, now).cache;
      (k in c <==> k in w.cache) && (k in w.cache ==> c[k] == w.cache[k])
    decreases |ds|
  {
    if |ds| > 0 {
      var w1 := Handle(w, ds[0], now);
      assert HandleAll(w, ds, now) == HandleAll(w1, ds[1..], now);
      assert !WritesThrough(ds[0], k);
      assert (k in w1.cache <==> k in w.cache) && (k in w.cache ==> w1.cache[k] == w.cache[k]);
      NoLaterWrite(ds, k);
      HandleAllKeepsOtherNames(w1, ds[1..], now, k);
    }
  }

  /** No write to `k` among `ds` after the first means none in its tail. */
  lemma NoLaterWrite(ds: seq<PP.Delivery>, k: string)
    requires |ds| > 0 && forall j :: 1 <= j < |ds| ==> !WritesThrough(ds[j], k)
    ensures forall j :: 0 <= j < |ds[1..]| ==> !WritesThrough(ds[1..][j], k)
  {
    forall j | 0 <= j < |ds[1..]| ensures !WritesThrough(ds[1..][j], k) {
      assert ds[1..][j] == ds[j + 1];
    }
  }

  /** The handler `h` waits in the unresolved post-processor registered for `retr`. */
  predicate Awaits(w: World, retr: Retriever, h: Handler)
    requires Valid(w)
  {
    retr in w.registry && w.processors[w.registry[retr]].result.None? && h in w.processors[w.registry[retr]].handlers
  }

  /** The decision every entry point makes once it has a retriever: join the
      post-processor registered for an equal retriever, or register the
      retriever and hand it to the service. */
  function Submit(w: World, retr: Retriever, h: Handler, now: int): (w': World)
    requires Valid(w)
    ensures Valid(w') && retr in w'.registry && w'.nextCall == w.nextCall
    // joining: nothing is registered or queued; the handler waits, or is answered at once
    ensures retr in w.registry ==>
      && w'.registry == w.registry && w'.queue == w.queue && |w'.processors| == |w.processors|
      && var id := w.registry[retr];
         && (forall j :: 0 <= j < |w.processors| && j != id ==> w'.processors[j] == w.processors[j])
         && (w.processors[id].result.None? ==>
               w'.processors[id].handlers == w.processors[id].handlers + [h] && w'.log == w.log && w'.cache == w.cache)
         && (w.processors[id].result.Some? ==>
               w' == Handle(w, PP.Delivery(h, w.processors[id].result.value), now))
    // starting: one fresh post-processor holding only `h`, registered before it is queued
    ensures retr !in w.registry ==>
      && w'.processors == w.processors + [PP.New(h)]
      && w'.registry == AR.Add(w.registry, retr, |w.processors|)
      && w'.queue == w.queue + [Job(retr, |w.processors|)]
      && w'.log == w.log && w'.cache == w.cache
    ensures Awaits(w', retr, h) || (retr in w.registry && w.processors[w.registry[retr]].result.Some?)
  {
    match AR.Lookup(w.registry, retr)
    case Some(id) =>
      var s := PP.AddHandler(w.processors[id], h);
      var w0 := w.(processors := w.processors[id := s.pp]);
      if |s.deliveries| > 0 then
        assert HandleAll(w0, s.deliveries, now) == HandleAll(Handle(w0, s.deliveries[0], now), s.deliveries[1..], now);
        HandleAll(w0, s.deliveries, now)
      else HandleAll(w0, s.deliveries, now)
    case None =>
      var id := |w.processors|;
      w.(processors := w.processors + [PP.New(h)],
         registry := AR.Add(w.registry, retr, id),
         queue := w.queue + [Job(retr, id)])
  }

  /** The service executes queued job `i`, whose retriever produced `buffer`:
      the job leaves the queue and its post-processor runs. */
  function RunJob(w: World, i: nat, buffer: Option<Bytes>, now: int): (w': World)
    requires Valid(w) && i < |w.queue|
    ensures Valid(w')
    ensures w'.queue == w.queue[..i] + w.queue[i + 1..]
    ensures w'.registry == w.registry && w'.nextCall == w.nextCall && |w'.processors| == |w.processors|
    ensures var id := w.queue[i].pp;
      && w'.processors[id].result == Some(BufferResult(buffer))
      && w'.processors[id].handlers == w.processors[id].handlers
      && (forall j :: 0 <= j < |w.processors| && j != id ==> w'.processors[j] == w.processors[j])
      && w'.log == w.log + Events(PP.Run(w.processors[id], buffer).deliveries)
  {
    var job := w.queue[i];
    var s := PP.Run(w.processors[job.pp], buffer);
    HandleAll(w.(processors := w.processors[job.pp := s.pp], queue := w.queue[..i] + w.queue[i + 1..]), s.deliveries, now)
  }

  /** Running a job whose post-processor holds a write-through cacher for `u`,
      with a fetched buffer, leaves those bytes, stamped `now`, as `u`'s cache
      file, and the cacher's client is called with the result. */
  lemma RunJobWritesThrough(w: World, i: nat, buffer: Option<Bytes>, now: int, u: Url, c: Client)
    requires Valid(w) && i < |w.queue| && buffer.Some?
    requires Cacher(u, true, c) in w.processors[w.queue[i].pp].handlers
    ensures GetFromCache(RunJob(w, i, buffer, now), u) == Some(FileResult(CacheFile(buffer, now)))
    ensures Called(c, BufferResult(buffer), false) in RunJob(w, i, buffer, now).log
  {
    var job := w.queue[i];
    var s := PP.Run(w.processors[job.pp], buffer);
    var w0 := w.(processors := w.processors[job.pp := s.pp], queue := w.queue[..i] + w.queue[i + 1..]);
    assert RunJob(w, i, buffer, now) == HandleAll(w0, s.deliveries, now);
    var j :| 0 <= j < |s.deliveries| && PP.Handlers(s.deliveries)[j] == Cacher(u, true, c);
    assert s.deliveries[j] == PP.Delivery(Cacher(u, true, c), BufferResult(buffer));
    assert WritesThrough(s.deliveries[j], CacheKey(u));
    HandleAllWritesThrough(w0, s.deliveries, BufferResult(buffer), now, CacheKey(u));
    assert Events(s.deliveries)[j] == Called(c, BufferResult(buffer), false);
    assert RunJob(w, i, buffer, now).log == w.log + Events(s.deliveries);
  }

  /** Running a job leaves alone every cache name that no write-through cacher of
      its post-processor targets, and the whole cache when nothing was fetched. */
  lemma RunJobCacheFrame(w: World, i: nat, buffer: Option<Bytes>, now: int, k: string)
    requires Valid(w) && i < |w.queue|
    requires buffer.None? || forall h :: h in w.processors[w.queue[i].pp].handlers && h.Cacher? && h.writeThrough ==> CacheKey(h.url) != k
    ensures var c := RunJob(w, i, buffer, now).cache;
      (k in c <==> k in w.cache) && (k in w.cache ==> c[k] == w.cache[k])
  {
    var job := w.queue[i];
    var s := PP.Run(w.processors[job.pp], buffer);
    var w0 := w.(processors := w.processors[job.pp := s.pp], queue := w.queue[..i] + w.queue[i + 1..]);
    assert RunJob(w, i, buffer, now) == HandleAll(w0, s.deliveries, now);
    forall j | 0 <= j < |s.deliveries| ensures !WritesThrough(s.deliveries[j], k) {
      assert s.deliveries[j].handler == PP.Handlers(s.deliveries)[j];
      assert s.deliveries[j].result == BufferResult(buffer);
    }
    HandleAllKeepsOtherNames(w0, s.deliveries, now, k);
  }

  /** The retrievers the service still holds. */
  function Pending(w: World): set<Retriever> {
    set j | j in w.queue :: j.retriever
  }

  /** One pass of the registry's sweeping thread. */
  function SweepRegistry(w: World): (w': World)
    requires Valid(w)
    ensures Valid(w')
    ensures w' == w.(registry := AR.Sweep(w.registry, |w.queue|, Pending(w)))
  {
    w.(registry := AR.Sweep(w.registry, |w.queue|, Pending(w)))
  }

  /** How a blocking download starts: answered from the cache, or waiting on the
      handler of call `call` after the fetch was started or joined. */
  datatype Started = Answered(result: RetrievalResult) | Waiting(world: World, call: nat, retriever: Retriever)

  /** The result most recently handed to a blocked call, if any. */
  function ResultOf(log: seq<Event>, call: nat): Option<RetrievalResult>
    decreases |log|
  {
    if |log| == 0 then None
    else if log[|log| - 1].Stored? && log[|log| - 1].call == call then Some(log[|log| - 1].result)
    else ResultOf(log[..|log| - 1], call)
  }

  /** First half of `downloadImmediately`: a cached result with data answers at
      once when `cache` is set, and then nothing is created; otherwise an
      unconditional retriever is submitted with the blocked call's handler. */
  function StartDownloadImmediately(w: World, url: Url, cache: bool, now: int): (s: Started)
    requires Valid(w)
    ensures cache && CachedWithData(w, url) ==> s == Answered(GetFromCache(w, url).value)
    ensures !(cache && CachedWithData(w, url)) ==>
      && s.Waiting? && Valid(s.world) && s.call == w.nextCall && s.world.nextCall == w.nextCall + 1
      && s.retriever == CreateRetriever(url, None)
      && s.world == Submit(w.(nextCall := w.nextCall + 1), s.retriever, Immediate(w.nextCall), now)
      && (Awaits(s.world, s.retriever, Immediate(s.call)) || ResultOf(s.world.log, s.call).Some?)
  {
    if cache && CachedWithData(w, url) then Answered(GetFromCache(w, url).value)
    else
      var call := w.nextCall;
      var retr := CreateRetriever(url, None);
      var w' := Submit(w.(nextCall := call + 1), retr, Immediate(call), now);
      assert !Awaits(w', retr, Immediate(call)) ==> w'.log[|w'.log| - 1] == Stored(call, w'.processors[w'.registry[retr]].result.value);
      Waiting(w', call, retr)
  }

  /** Second half of `downloadImmediately`, once the blocked call holds `result`:
      the result is returned, and written to the cache exactly when `cache` is set
      and it has data. */
  function FinishDownloadImmediately(w: World, url: Url, cache: bool, result: RetrievalResult, now: int): (w': World)
    ensures cache && result.HasData() ==> w' == SaveToCache(w, url, result, now)
    ensures !(cache && result.HasData()) ==> w' == w
  {
    if cache && result.HasData() then SaveToCache(w, url, result, now) else w
  }

  /** How `downloadImmediatelyIfModified` starts: the cached result it read (or
      null), and the blocked call waiting on a conditional retriever. */
  datatype ConditionalStart = ConditionalStart(world: World, cached: Option<RetrievalResult>, call: nat, retriever: Retriever)

  /** The cached file's time is sent as the if-modified-since time only when the
      cached result has data. */
  function StartDownloadIfModifiedImmediately(w: World, url: Url, now: int): (s: ConditionalStart)
    requires Valid(w)
    ensures s.cached == GetFromCache(w, url)
    ensures s.retriever == CreateRetriever(url, s.retriever.ifModifiedSince)
    ensures s.world == Submit(w.(nextCall := w.nextCall + 1), s.retriever, Immediate(w.nextCall), now)
    ensures s.retriever.url == url
    ensures s.retriever.ifModifiedSince.Some? <==> CachedWithData(w, url)
    ensures s.retriever.ifModifiedSince.Some? ==> s.retriever.ifModifiedSince.value == s.cached.value.file.lastModified
    ensures Valid(s.world) && s.call == w.nextCall && s.world.nextCall == w.nextCall + 1
    ensures Awaits(s.world, s.retriever, Immediate(s.call)) || ResultOf(s.world.log, s.call).Some?
  {
    var cached := GetFromCache(w, url);
    var lastModified := if cached.Some? && cached.value.HasData() then Some(cached.value.file.lastModified) else None;
    var call := w.nextCall;
    var retr := CreateRetriever(url, lastModified);
    var w' := Submit(w.(nextCall := call + 1), retr, Immediate(call), now);
    assert !Awaits(w', retr, Immediate(call)) ==> w'.log[|w'.log| - 1] == Stored(call, w'.processors[w'.registry[retr]].result.value);
    ConditionalStart(w', cached, call, retr)
  }

  /** Second half of `downloadImmediatelyIfModified`: a fetched result with data is
      cached and returned; otherwise the cached result (possibly null) is returned
      and nothing changes. */
  function FinishDownloadIfModifiedImmediately(w: World, url: Url, cached: Option<RetrievalResult>, fetched: RetrievalResult, now: int): (o: (World, Option<RetrievalResult>))
    ensures fetched.HasData() ==> o == (SaveToCache(w, url, fetched, now), Some(fetched))
    ensures !fetched.HasData() ==> o == (w, cached)
  {
    if fetched.HasData() then (SaveToCache(w, url, fetched, now), Some(fetched)) else (w, cached)
  }

  /** `download(url, handler, cache)`: with `cache` set and cached data present the
      caller's handler is called at once, marked cached, and nothing else changes;
      otherwise an unconditional retriever is submitted with a cacher handler that
      writes through only when `cache` is set. */
  function Download(w: World, url: Url, client: Client, cache: bool, now: int): (w': World)
    requires Valid(w)
    ensures Valid(w')
    ensures cache && CachedWithData(w, url) ==> w' == w.(log := w.log + [Called(client, GetFromCache(w, url).value, true)])
    ensures !(cache && CachedWithData(w, url)) ==> w' == Submit(w, CreateRetriever(url, None), Cacher(url, cache, client), now)
  {
    if cache && CachedWithData(w, url) then w.(log := w.log + [Called(client, GetFromCache(w, url).value, true)])
    else Submit(w, CreateRetriever(url, None), Cacher(url, cache, client), now)
  }

  /** The outcome of the two-handler download: the new world and the retriever used. */
  datatype Submitted = Submitted(world: World, retriever: Retriever)

  /** The two-handler `download`: the cache handler is called, marked cached,
      exactly when cached data exists; the retriever carries the cached file's time
      exactly when `checkIfModified` is set and cached data exists; the fetch is
      always submitted, with a cacher handler that writes through. */
  function DownloadWithCacheHandler(w: World, url: Url, cacheClient: Client, downloadClient: Client, checkIfModified: bool, now: int): (s: Submitted)
    requires Valid(w)
    ensures Valid(s.world)
    ensures s.retriever.url == url
    ensures s.retriever.ifModifiedSince.Some? <==> checkIfModified && CachedWithData(w, url)
    ensures s.retriever.ifModifiedSince.Some? ==> s.retriever.ifModifiedSince.value == GetFromCache(w, url).value.file.lastModified
    ensures var w1 := if CachedWithData(w, url) then w.(log := w.log + [Called(cacheClient, GetFromCache(w, url).value, true)]) else w;
      s.world == Submit(w1, s.retriever, Cacher(url, true, downloadClient), now)
  {
    var cached := GetFromCache(w, url);
    var hit := cached.Some? && cached.value.HasData();
    var w1 := if hit then w.(log := w.log + [Called(cacheClient, cached.value, true)]) else w;
    var lastModified := if hit && checkIfModified then Some(cached.value.file.lastModified) else None;
    var retr := CreateRetriever(url, lastModified);
    Submitted(Submit(w1, retr, Cacher(url, true, downloadClient), now), retr)
  }

  /** `downloadIfModified`: the conditional form of the two-handler download. */
  function DownloadIfModified(w: World, url: Url, cacheClient: Client, downloadClient: Client, now: int): (s: Submitted)
    requires Valid(w)
    ensures Valid(s.world)
    ensures s.retriever.ifModifiedSince.Some? <==> CachedWithData(w, url)
  {
    DownloadWithCacheHandler(w, url, cacheClient, downloadClient, true, now)
  }

  /** `downloadAnyway`: the unconditional form of the two-handler download. */
  function DownloadAnyway(w: World, url: Url, cacheClient: Client, downloadClient: Client, now: int): (s: Submitted)
    requires Valid(w)
    ensures Valid(s.world)
    ensures s.retriever == CreateRetriever(url, None)
  {
    DownloadWithCacheHandler(w, url, cacheClient, downloadClient, false, now)
  }

  /** `downloadAnyway` followed by the fetch it starts: when the fetch brings
      data, that data becomes the URL's cache file and the download client is
      called with it. */
  lemma DownloadAnywayRefreshesCache(w: World, url: Url, cacheClient: Client, downloadClient: Client, bytes: Bytes, now: int, later: int)
    requires Valid(w) && CreateRetriever(url, None) !in w.registry
    ensures var s := DownloadAnyway(w, url, cacheClient, downloadClient, now);
      && |s.world.queue| == |w.queue| + 1 && s.world.queue[|w.queue|].retriever == s.retriever
      && var w' := RunJob(s.world, |w.queue|, Some(bytes), later);
         && GetFromCache(w', url) == Some(FileResult(CacheFile(Some(bytes), later)))
         && Called(downloadClient, BufferResult(Some(bytes)), false) in w'.log
  {
    var s := DownloadAnyway(w, url, cacheClient, downloadClient, now);
    var id := |w.processors|;
    assert s.world.queue[|w.queue|] == Job(s.retriever, id);
    assert s.world.processors[id] == PP.New(Cacher(url, true, downloadClient));
    RunJobWritesThrough(s.world, |w.queue|, Some(bytes), later, url, downloadClient);
  }

  /** A cache hit answers a blocking download without creating, registering or
      queueing anything. */
  lemma CacheHitFetchesNothing(w: World, url: Url, now: int)
    requires Valid(w) && CachedWithData(w, url)
    ensures StartDownloadImmediately(w, url, true, now).Answered?
    ensures StartDownloadImmediately(w, url, true, now).result.HasData()
  {
  }

  /** Write-through: once a cacher handler that writes through has seen a result
      with data, a blocking cached download of the same URL is answered from the
      cache with those bytes, without a new fetch. */
  lemma WriteThroughServesLaterDownloads(w: World, url: Url, client: Client, r: RetrievalResult, now: int, later: int)
    requires Valid(w) && r.HasData()
    ensures var w' := Handle(w, PP.Delivery(Cacher(url, true, client), r), now);
      Valid(w') && StartDownloadImmediately(w', url, true, later) == Answered(FileResult(CacheFile(Some(r.AsBuffer()), now)))
  {
    var w' := Handle(w, PP.Delivery(Cacher(url, true, client), r), now);
    assert GetFromCache(w', url) == Some(FileResult(CacheFile(Some(r.AsBuffer()), now)));
  }

  /** Two non-blocking downloads of one URL issued before either completes share
      one fetch: one job is queued, and running it calls both handlers, in order,
      with the same result. */
  lemma TwoDownloadsShareOneFetch(w: World, url: Url, c1: Client, c2: Client, buffer: Option<Bytes>, now: int)
    requires Valid(w)
    requires CreateRetriever(url, None) !in w.registry
    ensures var w1 := Download(w, url, c1, false, now);
      var w2 := Download(w1, url, c2, false, now);
      && Valid(w2) && |w2.queue| == |w.queue| + 1
      && RunJob(w2, |w.queue|, buffer, now).log ==
         w.log + [Called(c1, BufferResult(buffer), false), Called(c2, BufferResult(buffer), false)]
  {
    var retr := CreateRetriever(url, None);
    var id := |w.processors|;
    var w1 := Download(w, url, c1, false, now);
    assert w1.processors[id] == PP.New(Cacher(url, false, c1));
    assert w1.registry[retr] == id;
    var w2 := Download(w1, url, c2, false, now);
    assert w2.queue == w1.queue && w2.log == w.log;
    assert w2.processors[id].handlers == [Cacher(url, false, c1), Cacher(url, false, c2)];
    assert w2.queue[|w.queue|] == Job(retr, id);
    var ds := PP.Run(w2.processors[id], buffer).deliveries;
    assert Events(ds) == [Called(c1, BufferResult(buffer), false), Called(c2, BufferResult(buffer), false)];
  }

  /** Conditional refresh: when the server reports no new data (or the fetch
      fails), the blocking conditional download returns the cached result
      unchanged and leaves the cache alone; when it sends data, that data is
      returned and becomes the cache file. */
  lemma ConditionalRefreshKeepsOrReplaces(w: World, url: Url, buffer: Option<Bytes>, now: int)
    requires Valid(w) && CachedWithData(w, url)
    ensures var s := StartDownloadIfModifiedImmediately(w, url, now);
      var o := FinishDownloadIfModifiedImmediately(w, url, s.cached, BufferResult(buffer), now);
      && (buffer.None? ==> o.1 == GetFromCache(w, url) && o.0.cache == w.cache)
      && (buffer.Some? ==>
            o.1 == Some(BufferResult(buffer)) && GetFromCache(o.0, url) == Some(FileResult(CacheFile(buffer, now))))
  {
  }
}
