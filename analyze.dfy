/**
 * The analyze tool: load an item and its metadata from the store and choose,
 * from the stored content type, what the secondary agent is given.
 */
module Analyze {
  import opened Wrappers
  import opened Store

  /** The closed set of branches of `analyze`. */
  datatype Category = ImageContent | HtmlContent | PlainContent

  /** What the secondary agent is run on, besides the query. */
  datatype AgentInput =
    | BinaryInput(query: string, data: seq<byte>, mediaType: string)  // raw bytes as binary content
    | HtmlInput(query: string, html: seq<byte>)                       // the HTML whose text is extracted
    | TextInput(query: string, text: seq<byte>)                       // the body, which the source decodes as UTF-8 (not modelled)

  /** Only exactly `image/jpeg` is binary and only exactly `text/html` is HTML. */
  function Classify(ct: string): (c: Category)
    ensures c == ImageContent <==> ct == "image/jpeg"
    ensures c == HtmlContent <==> ct == "text/html"
    ensures c == PlainContent <==> ct != "image/jpeg" && ct != "text/html"
  {
    if ct == "image/jpeg" then ImageContent
    else if ct == "text/html" then HtmlContent
    else PlainContent
  }

  /** The input of the branch `Classify` selects. */
  function Dispatch(ct: string, query: string, data: seq<byte>): (input: AgentInput)
    ensures input.query == query
    ensures input.BinaryInput? <==> Classify(ct) == ImageContent
    ensures input.HtmlInput? <==> Classify(ct) == HtmlContent
    ensures input.TextInput? <==> Classify(ct) == PlainContent
    ensures input.BinaryInput? ==> input.data == data && input.mediaType == ct
    ensures input.HtmlInput? ==> input.html == data
    ensures input.TextInput? ==> input.text == data
  {
    match Classify(ct)
    case ImageContent => BinaryInput(query, data, ct)
    case HtmlContent => HtmlInput(query, data)
    case PlainContent => TextInput(query, data)
  }

  /**
   * `analyze(file, query)`: read the item, then hand its bytes to the branch
   * its stored content type selects. Fails when either file cannot be read.
   */
  function AnalyzeFile(store: ContentStore, file: string, query: string): (r: Result<AgentInput, StoreError>)
    reads store
    ensures r.Ok? <==> store.Get(file).Ok?
    ensures r.Ok? ==> r.value.query == query
    ensures r.Ok? ==> r.value == Dispatch(store.files[MetaKey(file)].meta.contentType, query, store.files[file].data)
    ensures r.Err? ==> r.error == store.Get(file).error
  {
    match store.Get(file)
    case Err(e) => Err(e)
    case Ok((content, metadata)) => Ok(Dispatch(metadata.contentType, query, content))
  }

  /** `image/png` is not binary to `analyze`: it goes to the text branch. */
  lemma PngIsReadAsText(query: string, data: seq<byte>)
    ensures Dispatch("image/png", query, data) == TextInput(query, data)
  {
    assert "image/png" != "image/jpeg" by { assert "image/png"[6] != "image/jpeg"[6]; }
  }
}
