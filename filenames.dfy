/**
 * How the download tool names what it saves: the response's media type with
 * its parameters stripped, and the URL path's basename with an extension
 * appended for images, HTML and plain text (agent.py, `download`).
 */
module Filenames {
  import opened Wrappers
  import opened Strings

  /** The fixed extension table for non-image types. */
  const TypeExtensions: map<string, string> := map["text/html" := ".html", "text/plain" := ".txt"]

  const ImagePrefix: string := "image/"

  /** The value of the `content-type` response header, if the response has one. */
  function ContentTypeHeader(headers: map<string, string>): (h: Option<string>)
    ensures h.Some? <==> "content-type" in headers
    ensures h.Some? ==> h.value == headers["content-type"]
  {
    if "content-type" in headers then Some(headers["content-type"]) else None
  }

  /**
   * `headers.get("content-type", "").split(";")[0]`: the header text before
   * the first `;`, or the empty string when the header is missing.
   */
  function NormaliseContentType(header: Option<string>): (ct: string)
    ensures ';' !in ct
    ensures header.None? ==> ct == ""
    ensures header.Some? ==> StartsWith(header.value, ct)
    ensures header.Some? && |ct| < |header.value| ==> header.value[|ct|] == ';'
  {
    Split(header.GetOr(""), ';')[0]
  }

  /**
   * `content_type.split('/')[1]` for an `image/...` type: the text after
   * `image/` up to the next `/`, possibly empty.
   */
  function Subtype(ct: string): (sub: string)
    requires StartsWith(ct, ImagePrefix)
    ensures '/' !in sub
    ensures StartsWith(ct[|ImagePrefix|..], sub)
    ensures |ImagePrefix| + |sub| < |ct| ==> ct[|ImagePrefix| + |sub|] == '/'
  {
    ImageTypeSplits(ct);
    Split(ct, '/')[1]
  }

  /** An `image/...` type has a second `/`-field, the text after `image/` up to the next `/`. */
  lemma ImageTypeSplits(ct: string)
    requires StartsWith(ct, ImagePrefix)
    ensures |Split(ct, '/')| >= 2
    ensures Split(ct, '/')[1] == Split(ct[|ImagePrefix|..], '/')[0]
  {
    assert ct[..6] == ImagePrefix;
    assert ct[5] == '/' && forall j :: 0 <= j < 5 ==> ct[j] != '/';
    SplitSecondField(ct, '/', 5);
  }

  /** The extension `download` appends for a normalised content type, if any. */
  function Extension(ct: string): (ext: Option<string>)
    ensures ext.Some? <==> StartsWith(ct, ImagePrefix) || ct == "text/html" || ct == "text/plain"
  {
    if StartsWith(ct, ImagePrefix) then Some("." + Subtype(ct))
    else if ct in TypeExtensions then Some(TypeExtensions[ct])
    else None
  }

  /** `if not name.endswith(ext): name += ext`. */
  function WithExtension(name: string, ext: string): (r: string)
    ensures EndsWith(r, ext)
    ensures r == name || r == name + ext
    ensures r == name <==> EndsWith(name, ext)
  {
    EndsWithAppended(name, ext);
    if EndsWith(name, ext) then name else name + ext
  }

  /** The filename `download` saves under, from the URL path's basename and the normalised type. */
  function InferFilename(base: string, ct: string): (name: string)
    ensures Extension(ct).None? ==> name == base
    ensures Extension(ct).Some? ==> EndsWith(name, Extension(ct).value)
    ensures Extension(ct).Some? ==> (name == base <==> EndsWith(base, Extension(ct).value))
    ensures name == base || (Extension(ct).Some? && name == base + Extension(ct).value)
  {
    match Extension(ct)
    case None => base
    case Some(ext) => WithExtension(base, ext)
  }

  /** An inferred name never holds `/`, so it always names an entry of the flat directory itself. */
  lemma InferredNameIsFlat(path: string, ct: string)
    ensures '/' !in InferFilename(Basename(path), ct)
  {
    var base := Basename(path);
    match Extension(ct)
    case None =>
    case Some(ext) =>
      assert '/' !in ext by {
        if StartsWith(ct, ImagePrefix) {
          assert ext == "." + Subtype(ct);
        } else {
          assert ext == ".html" || ext == ".txt";
        }
      }
      assert InferFilename(base, ct) == base || InferFilename(base, ct) == base + ext;
  }

  /** Normalising an already normalised type changes nothing. */
  lemma NormaliseIdempotent(header: Option<string>)
    ensures NormaliseContentType(Some(NormaliseContentType(header))) == NormaliseContentType(header)
  {
    var ct := NormaliseContentType(header);
    assert Split(ct, ';') == [ct];
  }

  /** Parameters such as `; charset=utf-8` are dropped: the media type before them is kept. */
  lemma NormaliseDropsParameters(mediaType: string, params: string)
    requires ';' !in mediaType
    ensures NormaliseContentType(Some(mediaType + ";" + params)) == mediaType
  {
    var h := mediaType + ";" + params;
    assert h[|mediaType|] == ';';
    assert forall j :: 0 <= j < |mediaType| ==> h[j] == mediaType[j];
    SplitSecondField(h, ';', |mediaType|);
    assert h[..|mediaType|] == mediaType;
  }

  /** Whatever the type, the inferred name ends with the extension when there is one. */
  lemma InferredNameHasExtension(base: string, ct: string, ext: string)
    requires Extension(ct) == Some(ext)
    ensures EndsWith(InferFilename(base, ct), ext)
    ensures EndsWith(base, ext) ==> InferFilename(base, ct) == base
    ensures !EndsWith(base, ext) ==> InferFilename(base, ct) == base + ext
  {
    EndsWithAppended(base, ext);
  }

  /** An `image/<sub>` response gets a name ending in `.<sub>`. */
  lemma ImageNameSuffix(base: string, ct: string)
    requires StartsWith(ct, ImagePrefix)
    ensures EndsWith(InferFilename(base, ct), "." + Subtype(ct))
  {
    InferredNameHasExtension(base, ct, "." + Subtype(ct));
  }

  /** `text/html` gets `.html` and `text/plain` gets `.txt`. */
  lemma TextNameSuffix(base: string, ct: string)
    requires ct == "text/html" || ct == "text/plain"
    ensures ct == "text/html" ==> EndsWith(InferFilename(base, ct), ".html")
    ensures ct == "text/plain" ==> EndsWith(InferFilename(base, ct), ".txt")
  {
    assert !StartsWith(ct, ImagePrefix) by {
      assert ct[..6] != ImagePrefix by { assert ct[0] == 't'; }
    }
    InferredNameHasExtension(base, ct, TypeExtensions[ct]);
  }

  /** Every other type leaves the basename as it is, even when it is empty. */
  lemma OtherTypesKeepBasename(base: string, ct: string)
    requires !StartsWith(ct, ImagePrefix) && ct != "text/html" && ct != "text/plain"
    ensures InferFilename(base, ct) == base
  {
  }

  /** The extension is appended at most once: inferring again from the result changes nothing. */
  lemma InferIdempotent(base: string, ct: string)
    ensures InferFilename(InferFilename(base, ct), ct) == InferFilename(base, ct)
  {
    match Extension(ct)
    case None =>
    case Some(ext) =>
      InferredNameHasExtension(base, ct, ext);
      InferredNameHasExtension(InferFilename(base, ct), ct, ext);
  }

  /** For `image/<sub>` with no further `/`, such as `image/png`, the name ends in `.<sub>`. */
  lemma ImageSubtypeName(base: string, sub: string)
    requires '/' !in sub
    ensures StartsWith(ImagePrefix + sub, ImagePrefix)
    ensures Subtype(ImagePrefix + sub) == sub
    ensures EndsWith(InferFilename(base, ImagePrefix + sub), "." + sub)
  {
    var ct := ImagePrefix + sub;
    assert ct[..6] == ImagePrefix;
    assert ct[5] == '/' && forall j :: 0 <= j < 5 ==> ct[j] != '/';
    SplitSecondField(ct, '/', 5);
    assert ct[6..] == sub;
    assert Split(sub, '/') == [sub];
    ImageNameSuffix(base, ct);
  }

  /**
   * A URL path ending in `/` has an empty basename, so a type with an
   * extension gives exactly that extension as the name, which is never empty.
   */
  lemma TrailingSlashName(path: string, ct: string, ext: string)
    requires |path| > 0 && path[|path| - 1] == '/'
    requires Extension(ct) == Some(ext)
    ensures Basename(path) == ""
    ensures InferFilename(Basename(path), ct) == ext
    ensures |ext| > 0 && ext[0] == '.'
  {
    InferredNameHasExtension("", ct, ext);
    assert EndsWith("", ext) ==> |ext| == 0;
  }

  /** `text/html` is given `.html`, so a URL path ending in `/` saves as `.html`. */
  lemma TrailingSlashHtmlName(path: string, ct: string)
    requires |path| > 0 && path[|path| - 1] == '/'
    requires ct == "text/html"
    ensures InferFilename(Basename(path), ct) == ".html"
  {
    assert !StartsWith(ct, ImagePrefix) by { assert ct[0] == 't'; }
    assert Extension(ct) == Some(".html");
    TrailingSlashName(path, ct, ".html");
  }
}
