/** Values exchanged by the download coordinator: URLs, results, retrievers and
    the handlers that wait for a result. */
module Retrieval {
  import opened Wrappers
  import Text

  type Bytes = seq<bv8>

  /** A URL: its protocol and its external (string) form. */
  datatype Url = Url(protocol: string, external: string)

  /** A file in the cache store: its contents (absent when it cannot be read) and
      its modification time. */
  datatype CacheFile = CacheFile(content: Option<Bytes>, lastModified: int)

  /** A retrieval result: read from a cache file, or wrapping the buffer a
      retriever produced (absent when nothing new was fetched or the fetch failed). */
  datatype RetrievalResult = FileResult(file: CacheFile) | BufferResult(buffer: Option<Bytes>) {

    predicate HasData() {
      match this
      case FileResult(f) => f.content.Some?
      case BufferResult(b) => b.Some?
    }

    function AsBuffer(): Bytes
      requires HasData()
    {
      match this
      case FileResult(f) => f.content.value
      case BufferResult(b) => b.value
    }
  }

  datatype RetrieverKind = HttpRetriever | FileRetriever

  /** A retriever; two retrievers are the same request when they are equal values. */
  datatype Retriever = Retriever(kind: RetrieverKind, url: Url, ifModifiedSince: Option<int>)

  /** A caller-supplied `RetrievalHandler`. */
  datatype Client = Client(id: nat)

  /** A handler registered with a post-processor: the one a blocking call waits on,
      or the wrapper that writes the result through to the cache (when
      `writeThrough`) before passing it on to a caller's handler. */
  datatype Handler =
    | Immediate(call: nat)
    | Cacher(url: Url, writeThrough: bool, client: Client)

  /** `createRetriever`: the HTTP retriever exactly for the `http` and `https`
      protocols in any case, the file retriever for every other protocol. */
  function CreateRetriever(url: Url, ifModifiedSince: Option<int>): (r: Retriever)
    ensures r.url == url && r.ifModifiedSince == ifModifiedSince
    ensures r.kind == HttpRetriever <==>
      Text.EqualsIgnoreCase("http", url.protocol) || Text.EqualsIgnoreCase("https", url.protocol)
  {
    if Text.EqualsIgnoreCase("http", url.protocol) || Text.EqualsIgnoreCase("https", url.protocol)
    then Retriever(HttpRetriever, url, ifModifiedSince)
    else Retriever(FileRetriever, url, ifModifiedSince)
  }

  /** The protocol test read as lower-casing: the HTTP retriever exactly when the
      lower-cased protocol is `http` or `https`. */
  lemma HttpExactlyForWebProtocols(url: Url, ifModifiedSince: Option<int>)
    ensures CreateRetriever(url, ifModifiedSince).kind == HttpRetriever <==>
      Text.Lower(url.protocol) == "http" || Text.Lower(url.protocol) == "https"
  {
    Text.EqualsIgnoreCaseIsLowerEquality("http", url.protocol);
    Text.EqualsIgnoreCaseIsLowerEquality("https", url.protocol);
    assert Text.Lower("http") == "http";
    assert Text.Lower("https") == "https";
  }
}
