# A model of the tools of a search-download-analyze agent

The repository configures an LLM agent and gives it three tools. `search` queries a
SearXNG backend and returns the first `num_results` results. `download` fetches a
URL and saves the body and a metadata record to a flat storage directory.
`analyze` reads an item back and hands it to a second agent, in one of three forms
chosen by its content type. This project models the deterministic part of those
tools in `agent.py`:

- how `download` normalises the content type and infers the file name (`filenames.dfy`, on the string operations in `strings.dfy`);
- the storage directory as a class over a map from file name to contents (`store.dfy`);
- the `download` tool itself, as a method that builds the name step by step and writes both files (`download.dfy`);
- which branch `analyze` takes and what it passes on (`analyze.dfy`);
- how `search` truncates and validates the backend's list (`search.dfy`).

The HTTP requests are inputs. `download` gets a `Fetch`: either a request error or
the response's headers and body. `search` gets a `Reply`: either a failed request or
the decoded JSON object. In `download` the URL's path component is a parameter beside
the URL, and so is the time the item is saved. The storage directory holds two kinds
of file contents: raw bytes (`Raw`) and a metadata record (`Record`). Writing a
record as JSON and reading it back is taken to give the same record.

Some consequences of the code as written, each shown by a lemma:

- `SearchResult.img_src` is declared `str | None` with no default (agent.py:66). Under
  pydantic 2 such a field is required, although its value may be `null`. So a backend entry
  without an `img_src` key fails validation, and with it the whole search
  (`Search.MissingImageSourceRejected`).
- The store has no collision handling. Saving an item named `<name>.meta.json` overwrites
  the metadata file of `<name>` with raw bytes. Reading `<name>` then fails on its
  metadata file (`Store.CompanionNameClobbersMetadata`), until `<name>` is saved again.
- An `image/png` item is saved as `.png`. `analyze` treats only `image/jpeg` as binary,
  though, so a png goes to the text branch (`Analyze.PngIsReadAsText`). That branch
  decodes the body as UTF-8 (agent.py:101). A PNG file begins with the byte 0x89, which
  cannot start a UTF-8 sequence, so `analyze` raises on every real png item. The model
  does not decode, so it shows only the branch choice.
- Some inferred names denote the storage directory, and then the first `open` raises
  instead of writing. An empty basename with a type outside the extension table gives the
  empty name (`storage_dir / ""` is the directory itself). The bare type `image/` on an
  empty basename gives `.`. A basename of `..` under a type that appends no extension gives the parent directory (with
  `text/html` it would be saved as `...html` instead). The model
  returns `WriteFailed` in these cases and writes nothing (`Download.EmptyNameIsNotWritten`,
  `Download.BareImageTypeIsNotWritten`). Reading such a name in `analyze` fails the same
  way (`IsDirectory`).

## Model

| member | source | states |
|---|---|---|
| Strings.StartsWith | agent.py:157 | `str.startswith`; no ensures of its own, specified through `Filenames.Extension` and `Filenames.ImageNameSuffix` |
| Strings.EndsWith | agent.py:159-164 | `str.endswith`; no ensures of its own, specified through `Filenames.WithExtension`, `Filenames.InferredNameHasExtension` and `Filenames.ImageNameSuffix` |
| Strings.Split | agent.py:154 | `str.split` on one character: at least one field; no field contains the separator; the first field is the text before the first separator; there is exactly one field iff the separator does not occur |
| Strings.JoinSplit | agent.py:154 | splitting loses nothing: joining the fields with the separator gives back the original text |
| Strings.Basename | agent.py:155 | the basename has no `/`, is a suffix of the path, and is preceded by `/` unless it is the whole path (the longest `/`-free suffix) |
| Strings.BasenameOfChild | agent.py:155 | the basename of `dir + "/" + name` is `name` when `name` has no `/` |
| Strings.BasenameOfPlainName | agent.py:155 | a path without `/` is its own basename |
| Filenames.NormaliseContentType | agent.py:154 | the normalised type never contains `;`; it is a prefix of the header, followed by `;` when shorter; a missing header gives the empty string |
| Filenames.NormaliseIdempotent | agent.py:154 | normalising a normalised type changes nothing |
| Filenames.NormaliseDropsParameters | agent.py:154 | a header `<type>;<params>` with no `;` in `<type>` normalises to `<type>`, as `text/html; charset=utf-8` does to `text/html` |
| Filenames.ContentTypeHeader | agent.py:154 | the header value is present exactly when the response has a `content-type` header, and is that header's value |
| Filenames.Subtype | agent.py:158 | for an `image/` type, the second `/`-field has no `/` and is the text after `image/` up to the next `/` or the end |
| Filenames.ImageTypeSplits | agent.py:158 | an `image/` type always has a second `/`-field, so the index in the source is in range |
| Filenames.Extension | agent.py:156-162 | an extension exists exactly for `image/*`, `text/html` and `text/plain` |
| Filenames.WithExtension | agent.py:159-160 | the result ends with the extension; it is the name unchanged exactly when the name already ends with it, and otherwise the name with the extension appended once |
| Filenames.InferFilename | agent.py:155-164 | the inferred name is the basename when the type has no extension; otherwise it ends with the extension, and equals the basename exactly when the basename already ends with it, being the basename plus the extension otherwise (see also the lemmas below) |
| Filenames.InferredNameIsFlat | agent.py:155-164 | an inferred name never holds `/`: the basename has none and neither does any extension, so a save always targets an entry of the flat directory |
| Filenames.InferredNameHasExtension | agent.py:157-164 | once an extension applies, the name ends with it; a basename that already ends with it is unchanged, any other gets it appended exactly once |
| Filenames.ImageNameSuffix | agent.py:157-160 | an `image/<sub>` type gives a name ending in `.<sub>` |
| Filenames.ImageSubtypeName | agent.py:157-160 | for `image/<sub>` with `<sub>` free of `/` (for example `image/png`), the subtype is `<sub>` and the name ends in `.<sub>` |
| Filenames.TextNameSuffix | agent.py:161-164 | `text/html` gives a name ending in `.html`, `text/plain` one ending in `.txt` |
| Filenames.OtherTypesKeepBasename | agent.py:155-164 | every other type leaves the basename as it is, even when it is empty |
| Filenames.InferIdempotent | agent.py:159-164 | inferring the name from an inferred name returns it unchanged |
| Filenames.TrailingSlashName | agent.py:155-164 | a URL path ending in `/` has an empty basename, so a type with an extension is named exactly that extension, a non-empty name starting with `.` |
| Filenames.TrailingSlashHtmlName | agent.py:155-164 | a URL path ending in `/` served as `text/html` is saved as `.html` |
| Store.MetaKey | agent.py:179 | the companion name is the item's name followed by `.meta.json` |
| Store.MetaKeyDistinct | agent.py:179 | no name is its own companion, so the two writes never hit the same file |
| Store.MetaKeyInjective | agent.py:179 | two different items never share a companion file |
| Store.IsFileName | agent.py:166-168 | the names whose write target is a file, not the storage directory or its parent; no ensures of its own, specified by `Store.CompanionIsFileName`, `Download.TextTypesAreWritten`, `Download.BareImageTypeIsNotWritten` and `Download.EmptyNameIsNotWritten` |
| Store.CompanionIsFileName | agent.py:179-181 | a companion name always denotes a file, so the metadata write never targets a directory |
| Store.Stored | agent.py:166-182 | after saving, the directory holds the body under the name and the record under its companion; all other files are unchanged and no others appear |
| Store.Lookup | agent.py:82-86 | reading succeeds iff the name denotes a file, holds bytes, and its companion holds a record, returning both; a name denoting the directory or its parent is an `IsDirectory` error; a missing content file or a missing metadata file is a not-found error, content first |
| Store.ReadAfterWrite | agent.py:166-182 | what was just saved under a name is read back from that name |
| Store.OverwriteLastWins | agent.py:166-182 | saving the same name twice leaves only the second write |
| Store.ReadOtherUnaffected | agent.py:166-182 | saving one item leaves every item whose files it does not touch readable exactly as before |
| Store.CompanionNameClobbersMetadata | agent.py:179-182 | saving an item named `<name>.meta.json` makes `<name>` unreadable: its metadata file now holds raw bytes |
| Store.ContentStore.Put | agent.py:166-182 | writes succeed exactly for names that denote a file; the directory is then `Stored(old, name, body, meta)`, and otherwise unchanged |
| Store.ContentStore.Get | agent.py:82-86 | reading an item succeeds exactly when its name denotes a file and both of its files hold what a save writes; it then returns the body and the record |
| Analyze.Classify | agent.py:88-101 | binary exactly for `image/jpeg`, HTML exactly for `text/html`, text for every other type |
| Analyze.Dispatch | agent.py:88-101 | the secondary agent gets the query and the stored bytes, in the form of the selected branch; binary content is labelled with the stored type |
| Analyze.AnalyzeFile | agent.py:82-103 | `analyze` succeeds exactly when the item can be read; it then dispatches on the stored type with the stored bytes; otherwise it fails with the store's error |
| Analyze.PngIsReadAsText | agent.py:88-101 | an `image/png` item goes to the text branch |
| Search.Validate | agent.py:62-66 | an entry validates iff `title`, `url` and `content` are strings and `img_src` is present and is a string or null; `title`, `url` and `content` are copied, and `imgSrc` is `None` for null and `Some` of the string otherwise |
| Search.ValidateAll | agent.py:133 | every entry is validated in order; success iff all validate, giving one result per entry; failure names the first invalid entry |
| Search.Search | agent.py:123-133 | a failed request is an error, not an empty list; a reply without `results` gives no results; never more than `num_results` results |
| Search.SearchKeepsPrefix | agent.py:131-133 | a successful search returns `min(num_results, len(results))` results, the validated backend prefix in the backend's order |
| Search.SearchSucceedsIffPrefixValid | agent.py:133 | a search succeeds iff every entry within the cut validates; entries past it are never examined |
| Search.SearchFailsAtFirstInvalid | agent.py:133 | a failing search reports the first invalid entry within the cut, and all entries before it are valid |
| Search.MissingImageSourceRejected | agent.py:66 | an entry without an `img_src` key fails validation |
| Download.MetadataFor | agent.py:154-178 | the record holds the URL, the inferred name, the normalised type, the body's byte length, the save time and the response headers |
| Download.Download | agent.py:147-184 | a request error returns nothing and writes nothing; otherwise items with a file name are saved under the inferred name with their record, and that record is returned; a name that denotes a directory raises and writes nothing |
| Download.SavedMetadataDescribesItem | agent.py:171-178 | the record's type has no `;`, its size is the body's length, its name holds no `/`, and its name carries the type's extension, or is the bare basename when the type has none |
| Download.EmptyNameIsNotWritten | agent.py:155-168 | a URL path ending in `/` with a type outside the extension table gives a name that denotes the directory, so nothing is written |
| Download.AnalyzeAfterSave | agent.py:82-101 | after a save, analyzing the saved name reads back the same body and record and takes the branch of the saved type |
| Download.TextTypesAreWritten | agent.py:161-168 | `text/html` and `text/plain` items always get a name that denotes a file, so they are always written |
| Download.BareImageTypeIsNotWritten | agent.py:155-168 | the bare type `image/` on a path ending in `/` gives the name `.`, which denotes the directory, so nothing is written |
| Download.DownloadThenAnalyze | agent.py:143-145 | after a saved download, the store reads back the downloaded body and the returned record under the returned file name, and analyzing that name dispatches on the saved type with that body; an unsaved download changes nothing |

## Left out

- The HTTP requests, `raise_for_status` and the timeout (agent.py:123-128, 148-149) are I/O. Their outcome is an input. A 4xx or 5xx status (which `raise_for_status` turns into an `HTTPError`) or any other `requests` exception is a request error (`RequestError`, `RequestFailed`). Every other final status, such as a 304 or a 3xx that `requests` does not follow, arrives as a response (`Fetched`, `Answer`): `download` saves it and `search` decodes it.
- The LLM agents and their runs, the logfire instrumentation (agent.py:23-59, 89-101, 187-191) and the `logger.debug`/`info`/`error` calls (agent.py:121, 132, 151, 167, 180) are foreign calls or logging. The model says only which branch is taken and what that branch receives. The agent's answer is not modelled.
- HTML text extraction with BeautifulSoup (agent.py:98) and UTF-8 decoding (agent.py:98, 101) are library behaviour. A body that is not valid UTF-8 fails in the source; the model does not capture that failure.
- `urlparse` (agent.py:155) is not modelled. The URL's path is given as a string, and only its basename is modelled.
- `requests` matches the header name `content-type` case-insensitively. The model looks the name up exactly, as if the header names were already lower case.
- The clock (agent.py:176) is a parameter. The JSON format and its indent (agent.py:182) are not modelled: a record read back is the record written.
- Analyze.AnalyzeFile: reading a metadata document as content (for example `analyze("x.meta.json")`) is reported as `NotBytes`. In the source the first read gives the document's JSON text. `analyze` then opens `x.meta.json.meta.json`, which raises FileNotFoundError unless an item named `x.meta.json` was saved earlier (and `x` saved after it). Only in that case does the JSON text reach the text branch. The model reports `NotBytes` because serialisation is not modelled. Likewise raw bytes in a companion file are `NotMetadata`, even if they happen to be valid JSON.
- Analyze.AnalyzeFile: a `file` argument holding `/` (such as `../x` or `a/b`) reaches other paths in the source, in or outside the directory. The model has only the directory's own files and reports such names as not found. The names `""`, `.` and `..` are modelled: they are `IsDirectory` errors.
- Store.ContentStore.Put: a name holding `/` is stored as a flat key and reads back. In the source `open(storage_dir / name, "wb")` would write into a subdirectory, or outside the directory for `../x`, or raise when that subdirectory is missing. `download` never produces such a name: `Filenames.InferredNameIsFlat` proves that an inferred name holds no `/`, and `Download.SavedMetadataDescribesItem` states it of the saved record.
- Store.ContentStore.Put: failures of the file system other than a name that denotes a directory (permissions, space, name length, a failed second write after a successful first) are not modelled. The two writes are taken to succeed together.
- Store.ContentStore.constructor starts with an empty directory. Files already in the storage directory at start-up are not modelled.
- Pydantic's lax coercions beyond whether a field is a string, null or something else (agent.py:62-66, 133) are not modelled.
- Search.Search: a backend body that is not JSON, or not an object, or whose `results` is not a list, is not modelled. Neither is a `results` entry that is not a JSON object (a string, number, list or null). `SearchResult.model_validate` rejects such an entry and fails the search, but `Entry` can hold only objects.
- Search.Search: the default of 5 for `num_results` (agent.py:111) is supplied by the tool's schema when the agent omits the argument. The model always takes `num_results` explicitly.
- The framework's `retries=2` (agent.py:136) and the `ge=1` check on `num_results` (agent.py:111) belong to the agent runtime. The second is the precondition of `Search.Search`.
- `src/config.py` (settings and `mkdir` of the storage directory), `src/utils.py` (logging) and `context.py` (a documentation string) hold no tool logic.
- Concurrent downloads into the same directory are not modelled.
