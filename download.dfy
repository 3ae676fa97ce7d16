/**
 * The download tool: fetch a URL, name the item from the URL path and the
 * content type, write the body and its metadata to the store, and return the
 * metadata.
 */
module Download {
  import opened Wrappers
  import opened Strings
  import opened Filenames
  import opened Store
  import Analyze

  /** The outcome of the GET request, after `raise_for_status`; any other final status is `Fetched`. */
  datatype Fetch =
    | RequestError                                               // any `RequestException`, including a 4xx or 5xx status
    | Fetched(headers: map<string, string>, body: seq<byte>)

  datatype DownloadResult =
    | NothingReturned             // the request failed: logged, and `None` returned
    | Saved(meta: Metadata)       // both files written; the metadata is returned
    | WriteFailed(name: string)   // the inferred name denotes a directory, so `open` raises

  /** The metadata a successful response is saved with; `now` stands for the clock. */
  function MetadataFor(url: string, urlPath: string, headers: map<string, string>, body: seq<byte>, now: string): (meta: Metadata)
    ensures meta.url == url && meta.size == |body| && meta.downloadedAt == now && meta.headers == headers
    ensures meta.contentType == NormaliseContentType(ContentTypeHeader(headers))
    ensures meta.filename == InferFilename(Basename(urlPath), meta.contentType)
  {
    var ct := NormaliseContentType(ContentTypeHeader(headers));
    Metadata(url, InferFilename(Basename(urlPath), ct), ct, |body|, now, headers)
  }

  /**
   * `download(url)`. `urlPath` is the path component of `url`, and `now` the
   * time the item is saved.
   */
  method Download(store: ContentStore, url: string, urlPath: string, fetch: Fetch, now: string)
    returns (r: DownloadResult)
    modifies store
    ensures fetch.RequestError? ==> r == NothingReturned && store.files == old(store.files)
    ensures fetch.Fetched? ==>
      var meta := MetadataFor(url, urlPath, fetch.headers, fetch.body, now);
      if IsFileName(meta.filename)
      then r == Saved(meta) && store.files == Stored(old(store.files), meta.filename, fetch.body, meta)
      else r == WriteFailed(meta.filename) && store.files == old(store.files)
  {
    if fetch.RequestError? {
      return NothingReturned;
    }
    var contentType := Split(ContentTypeHeader(fetch.headers).GetOr(""), ';')[0];
    var filename := Basename(urlPath);
    if StartsWith(contentType, ImagePrefix) {
      ImageTypeSplits(contentType);
      var ext := "." + Split(contentType, '/')[1];
      if !EndsWith(filename, ext) {
        filename := filename + ext;
      }
    } else if contentType in TypeExtensions {
      var ext := TypeExtensions[contentType];
      if !EndsWith(filename, ext) {
        filename := filename + ext;
      }
    }
    var meta := Metadata(url, filename, contentType, |fetch.body|, now, fetch.headers);
    var ok := store.Put(filename, fetch.body, meta);
    if ok {
      r := Saved(meta);
    } else {
      r := WriteFailed(filename);
    }
  }

  /**
   * After a download of `name` is saved, analyzing `name` reads back the
   * same body and metadata and takes the branch of the saved content type.
   */
  lemma AnalyzeAfterSave(store: ContentStore, before: map<string, Blob>, body: seq<byte>, meta: Metadata, query: string)
    requires IsFileName(meta.filename)
    requires store.files == Stored(before, meta.filename, body, meta)
    ensures store.Get(meta.filename) == Ok((body, meta))
    ensures Analyze.AnalyzeFile(store, meta.filename, query) == Ok(Analyze.Dispatch(meta.contentType, query, body))
  {
    ReadAfterWrite(before, meta.filename, body, meta);
  }

  /**
   * A saved item's metadata carries its normalised, parameter-free type, its
   * byte count, and a name with the extension that type calls for.
   */
  lemma SavedMetadataDescribesItem(url: string, urlPath: string, headers: map<string, string>, body: seq<byte>, now: string)
    ensures ';' !in MetadataFor(url, urlPath, headers, body, now).contentType
    ensures MetadataFor(url, urlPath, headers, body, now).size == |body|
    ensures '/' !in MetadataFor(url, urlPath, headers, body, now).filename
    ensures var ct := MetadataFor(url, urlPath, headers, body, now).contentType;
            Extension(ct).Some? ==> EndsWith(MetadataFor(url, urlPath, headers, body, now).filename, Extension(ct).value)
    ensures var ct := MetadataFor(url, urlPath, headers, body, now).contentType;
            Extension(ct).None? ==> MetadataFor(url, urlPath, headers, body, now).filename == Basename(urlPath)
  {
    var ct := NormaliseContentType(ContentTypeHeader(headers));
    InferredNameIsFlat(urlPath, ct);
    if Extension(ct).Some? {
      InferredNameHasExtension(Basename(urlPath), ct, Extension(ct).value);
    }
  }

  /**
   * On a path ending in `/` with a type outside the extension table the name
   * is empty, which denotes the storage directory: nothing is written.
   */
  lemma EmptyNameIsNotWritten(url: string, urlPath: string, headers: map<string, string>, body: seq<byte>, now: string)
    requires |urlPath| > 0 && urlPath[|urlPath| - 1] == '/'
    requires Extension(NormaliseContentType(ContentTypeHeader(headers))).None?
    ensures !IsFileName(MetadataFor(url, urlPath, headers, body, now).filename)
  {
  }

  /** `text/html` and `text/plain` items always get a name that denotes a file, so they are always written. */
  lemma TextTypesAreWritten(base: string, ct: string)
    requires ct == "text/html" || ct == "text/plain"
    ensures IsFileName(InferFilename(base, ct))
  {
    var ext := TypeExtensions[ct];
    assert !StartsWith(ct, ImagePrefix) by { assert ct[0] == 't'; }
    assert Extension(ct) == Some(ext);
    var name := InferFilename(base, ct);
    assert |name| >= |ext| >= 4;
  }

  /**
   * The bare type `image/` has an empty subtype, so on a path ending in `/`
   * the name is `.`, the storage directory itself, and nothing is written.
   */
  lemma BareImageTypeIsNotWritten(path: string, ct: string)
    requires |path| > 0 && path[|path| - 1] == '/'
    requires StartsWith(ct, ImagePrefix) && |ct| == |ImagePrefix|
    ensures InferFilename(Basename(path), ct) == "."
    ensures !IsFileName(InferFilename(Basename(path), ct))
  {
    var sub := Subtype(ct);
    assert |sub| == 0 by { assert StartsWith(ct[|ImagePrefix|..], sub); }
    assert "." + sub == ".";
    assert Extension(ct) == Some(".");
    TrailingSlashName(path, ct, ".");
  }

  /** A client of the tools: the download is analyzable right after it is saved. */
  method DownloadThenAnalyze(store: ContentStore, url: string, urlPath: string, fetch: Fetch, now: string, query: string)
    returns (d: DownloadResult, a: Option<Result<Analyze.AgentInput, StoreError>>)
    modifies store
    ensures d.Saved? ==> fetch.Fetched? && store.Get(d.meta.filename) == Ok((fetch.body, d.meta))
    ensures d.Saved? ==> a == Some(Analyze.AnalyzeFile(store, d.meta.filename, query))
    ensures d.Saved? ==> a == Some(Ok(Analyze.Dispatch(d.meta.contentType, query, fetch.body)))
    ensures !d.Saved? ==> a == None && store.files == old(store.files)
  {
    ghost var before := store.files;
    d := Download(store, url, urlPath, fetch, now);
    assert d.Saved? ==> IsFileName(d.meta.filename);
    if d.Saved? {
      AnalyzeAfterSave(store, before, fetch.body, d.meta, query);
      a := Some(Analyze.AnalyzeFile(store, d.meta.filename, query));
    } else {
      a := None;
    }
  }
}
