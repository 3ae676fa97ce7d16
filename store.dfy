/**
 * The content store: the flat storage directory the download tool writes and
 * the analyze tool reads. Each saved item is two files, `<name>` with the raw
 * body and `<name>.meta.json` with its metadata record.
 */
module Store {
  import opened Wrappers

  newtype byte = x: int | 0 <= x < 256

  /** The metadata record `download` writes and returns. */
  datatype Metadata = Metadata(
    url: string,
    filename: string,
    contentType: string,
    size: nat,
    downloadedAt: string,
    headers: map<string, string>)

  /** What one file of the directory holds: raw bytes, or a metadata document. */
  datatype Blob = Raw(data: seq<byte>) | Record(meta: Metadata)

  datatype StoreError =
    | NotFound(name: string)     // no such file
    | IsDirectory(name: string)  // the name denotes the directory itself or its parent
    | NotBytes(name: string)     // the content file is a metadata document
    | NotMetadata(name: string)  // the metadata file holds raw bytes, not a record

  const MetaSuffix: string := ".meta.json"

  /** The companion file of `name`. */
  function MetaKey(name: string): (key: string)
    ensures |key| == |name| + |MetaSuffix| && key[..|name|] == name && key[|name|..] == MetaSuffix
  {
    name + MetaSuffix
  }

  /**
   * Names that denote a file of the directory. The empty name and `.` denote
   * the directory itself and `..` its parent, so opening them for writing fails.
   */
  predicate IsFileName(name: string) {
    name != "" && name != "." && name != ".."
  }

  /** A companion name always denotes a file, so the second write of a save never hits a directory. */
  lemma CompanionIsFileName(name: string)
    ensures IsFileName(MetaKey(name))
  {
    assert |MetaKey(name)| >= |MetaSuffix|;
  }

  /** The directory after the two writes of `put`: body first, then metadata. */
  function Stored(files: map<string, Blob>, name: string, body: seq<byte>, meta: Metadata): (after: map<string, Blob>)
    ensures after.Keys == files.Keys + {name, MetaKey(name)}
    ensures after[name] == Raw(body) && after[MetaKey(name)] == Record(meta)
    ensures forall k :: k in files && k != name && k != MetaKey(name) ==> after[k] == files[k]
  {
    files[name := Raw(body)][MetaKey(name) := Record(meta)]
  }

  /** Reading `name` and then `<name>.meta.json`, as `analyze` does. */
  function Lookup(files: map<string, Blob>, name: string): (r: Result<(seq<byte>, Metadata), StoreError>)
    ensures r.Ok? <==> (IsFileName(name) && name in files && files[name].Raw?
                        && MetaKey(name) in files && files[MetaKey(name)].Record?)
    ensures r.Ok? ==> r.value == (files[name].data, files[MetaKey(name)].meta)
    ensures !IsFileName(name) ==> r == Err(IsDirectory(name))
    ensures IsFileName(name) && name !in files ==> r == Err(NotFound(name))
    ensures IsFileName(name) && name in files && files[name].Raw? && MetaKey(name) !in files
            ==> r == Err(NotFound(MetaKey(name)))
  {
    if !IsFileName(name) then Err(IsDirectory(name))
    else if name !in files then Err(NotFound(name))
    else if !files[name].Raw? then Err(NotBytes(name))
    else if MetaKey(name) !in files then Err(NotFound(MetaKey(name)))
    else if !files[MetaKey(name)].Record? then Err(NotMetadata(MetaKey(name)))
    else Ok((files[name].data, files[MetaKey(name)].meta))
  }

  /** No name is its own companion, so the two writes of `put` never clash. */
  lemma MetaKeyDistinct(name: string)
    ensures MetaKey(name) != name
  {
    assert |MetaKey(name)| > |name|;
  }

  /** Companion names determine their item: different items never share a metadata file. */
  lemma MetaKeyInjective(a: string, b: string)
    requires MetaKey(a) == MetaKey(b)
    ensures a == b
  {
    assert |a| == |b|;
    assert a == MetaKey(a)[..|a|];
  }

  /** Read-after-write: what was just stored under `name` is read back from `name`. */
  lemma ReadAfterWrite(files: map<string, Blob>, name: string, body: seq<byte>, meta: Metadata)
    requires IsFileName(name)
    ensures Lookup(Stored(files, name, body, meta), name) == Ok((body, meta))
  {
    MetaKeyDistinct(name);
  }

  /** Storing the same name twice leaves only the second write. */
  lemma OverwriteLastWins(files: map<string, Blob>, name: string, b1: seq<byte>, m1: Metadata, b2: seq<byte>, m2: Metadata)
    ensures Stored(Stored(files, name, b1, m1), name, b2, m2) == Stored(files, name, b2, m2)
  {
    MetaKeyDistinct(name);
  }

  /**
   * Storing `name` leaves every other item readable as before, unless one of
   * its two files is one of the two written ones.
   */
  lemma ReadOtherUnaffected(files: map<string, Blob>, name: string, body: seq<byte>, meta: Metadata, other: string)
    requires other != name && other != MetaKey(name) && MetaKey(other) != name
    ensures Lookup(Stored(files, name, body, meta), other) == Lookup(files, other)
  {
    if MetaKey(other) == MetaKey(name) { MetaKeyInjective(other, name); }
  }

  /**
   * The store has no collision handling: saving an item named
   * `<name>.meta.json` replaces the metadata of `name` with raw bytes, and
   * `name` can no longer be read.
   */
  lemma CompanionNameClobbersMetadata(files: map<string, Blob>, name: string, body: seq<byte>, meta: Metadata,
                                      body2: seq<byte>, meta2: Metadata)
    requires IsFileName(name)
    ensures Lookup(Stored(Stored(files, name, body, meta), MetaKey(name), body2, meta2), name)
         == Err(NotMetadata(MetaKey(name)))
  {
    MetaKeyDistinct(name);
  }

  /** The storage directory, a mutable map from file name to contents. */
  class ContentStore {
    var files: map<string, Blob>

    /** A fresh, empty storage directory. */
    constructor ()
      ensures files == map[]
    {
      files := map[];
    }

    /**
     * Write `body` to `name` and `meta` to `<name>.meta.json`. When `name`
     * denotes a directory the first `open` fails and nothing is written.
     */
    method Put(name: string, body: seq<byte>, meta: Metadata) returns (ok: bool)
      modifies this
      ensures ok == IsFileName(name)
      ensures files == if ok then Stored(old(files), name, body, meta) else old(files)
    {
      if !IsFileName(name) {
        return false;
      }
      files := files[name := Raw(body)];
      files := files[MetaKey(name) := Record(meta)];
      return true;
    }

    /** Read an item and its metadata back. */
    function Get(name: string): (r: Result<(seq<byte>, Metadata), StoreError>)
      reads this
      ensures r.Ok? <==> (IsFileName(name) && name in files && files[name].Raw?
                          && MetaKey(name) in files && files[MetaKey(name)].Record?)
      ensures r.Ok? ==> r.value == (files[name].data, files[MetaKey(name)].meta)
    {
      Lookup(files, name)
    }
  }
}
