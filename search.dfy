/**
 * The search tool: the backend's `results` list, cut to the first
 * `num_results` entries, each validated into a `SearchResult`.
 */
module Search {
  import opened Wrappers

  /** A JSON value of a backend result entry, as far as validation looks at it. */
  datatype Json = JStr(s: string) | JNull | JOther

  /** One backend result: a JSON object. */
  type Entry = map<string, Json>

  /** `SearchResult`: `img_src` may be null, and like the other fields it must be present. */
  datatype SearchResult = SearchResult(title: string, url: string, content: string, imgSrc: Option<string>)

  /**
   * The backend's answer: the request failed (including a 4xx or 5xx status), or a
   * JSON object whose `results` key may be missing.
   */
  datatype Reply = RequestFailed | Answer(results: Option<seq<Entry>>)

  datatype SearchError =
    | UpstreamError          // the request failed, or the status was 4xx or 5xx
    | ValidationError(index: nat)  // the first entry that is not a valid SearchResult

  predicate HasString(e: Entry, key: string) {
    key in e && e[key].JStr?
  }

  /** `SearchResult.model_validate` on one entry; extra keys are ignored. */
  function Validate(e: Entry): (r: Option<SearchResult>)
    ensures r.Some? <==> HasString(e, "title") && HasString(e, "url") && HasString(e, "content")
                         && "img_src" in e && (e["img_src"].JStr? || e["img_src"].JNull?)
    ensures r.Some? ==> r.value.title == e["title"].s && r.value.url == e["url"].s
                        && r.value.content == e["content"].s
    ensures r.Some? ==> (r.value.imgSrc.None? <==> e["img_src"].JNull?)
    ensures r.Some? && e["img_src"].JStr? ==> r.value.imgSrc == Some(e["img_src"].s)
  {
    if HasString(e, "title") && HasString(e, "url") && HasString(e, "content") && "img_src" in e then
      match e["img_src"]
      case JStr(src) => Some(SearchResult(e["title"].s, e["url"].s, e["content"].s, Some(src)))
      case JNull => Some(SearchResult(e["title"].s, e["url"].s, e["content"].s, None))
      case JOther => None
    else None
  }

  /**
   * The list comprehension: validate every entry in order; the first invalid
   * one fails the whole list.
   */
  function ValidateAll(entries: seq<Entry>): (r: Result<seq<SearchResult>, nat>)
    ensures r.Ok? <==> forall i :: 0 <= i < |entries| ==> Validate(entries[i]).Some?
    ensures r.Ok? ==> |r.value| == |entries|
    ensures r.Ok? ==> forall i :: 0 <= i < |entries| ==> Validate(entries[i]) == Some(r.value[i])
    ensures r.Err? ==> r.error < |entries| && Validate(entries[r.error]).None?
    ensures r.Err? ==> forall j :: 0 <= j < r.error ==> Validate(entries[j]).Some?
  {
    if |entries| == 0 then Ok([])
    else
      match Validate(entries[0])
      case None => Err(0)
      case Some(first) =>
        match ValidateAll(entries[1..])
        case Err(i) => Err(i + 1)
        case Ok(rest) => Ok([first] + rest)
  }

  function Min(a: int, b: int): int {
    if a <= b then a else b
  }

  /** `search(query, num_results)` on the backend's reply; `num_results >= 1` is enforced by the tool's schema. */
  function Search(reply: Reply, numResults: int): (r: Result<seq<SearchResult>, SearchError>)
    requires numResults >= 1
    ensures reply.RequestFailed? ==> r == Err(UpstreamError)
    ensures r.Ok? ==> |r.value| <= numResults
    ensures reply.Answer? && reply.results.None? ==> r == Ok([])
  {
    match reply
    case RequestFailed => Err(UpstreamError)
    case Answer(results) =>
      var entries := results.GetOr([]);
      var kept := entries[..Min(numResults, |entries|)];
      match ValidateAll(kept)
      case Err(i) => Err(ValidationError(i))
      case Ok(rs) => Ok(rs)
  }

  /**
   * A successful search returns `min(num_results, len(results))` results, the
   * validated prefix of the backend's list in its own order.
   */
  lemma SearchKeepsPrefix(results: seq<Entry>, numResults: int)
    requires numResults >= 1
    requires Search(Answer(Some(results)), numResults).Ok?
    ensures var rs := Search(Answer(Some(results)), numResults).value;
            |rs| == Min(numResults, |results|)
            && forall i :: 0 <= i < |rs| ==> Validate(results[i]) == Some(rs[i])
  {
    var kept := results[..Min(numResults, |results|)];
    assert forall i :: 0 <= i < |kept| ==> kept[i] == results[i];
  }

  /** A search succeeds exactly when every kept entry validates; entries past the cut are never looked at. */
  lemma SearchSucceedsIffPrefixValid(results: seq<Entry>, numResults: int)
    requires numResults >= 1
    ensures Search(Answer(Some(results)), numResults).Ok?
        <==> forall i :: 0 <= i < Min(numResults, |results|) ==> Validate(results[i]).Some?
  {
    var kept := results[..Min(numResults, |results|)];
    assert forall i :: 0 <= i < |kept| ==> kept[i] == results[i];
  }

  /** A failed validation names the first invalid kept entry. */
  lemma SearchFailsAtFirstInvalid(results: seq<Entry>, numResults: int)
    requires numResults >= 1
    requires Search(Answer(Some(results)), numResults).Err?
    ensures var e := Search(Answer(Some(results)), numResults).error;
            e.ValidationError? && e.index < Min(numResults, |results|)
            && Validate(results[e.index]).None?
            && forall j :: 0 <= j < e.index ==> Validate(results[j]).Some?
  {
    var kept := results[..Min(numResults, |results|)];
    assert forall i :: 0 <= i < |kept| ==> kept[i] == results[i];
  }

  /** An entry without an `img_src` key fails validation, even though the field may be null. */
  lemma MissingImageSourceRejected(e: Entry)
    requires "img_src" !in e
    ensures Validate(e).None?
  {
  }
}
