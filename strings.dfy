/**
 * The few Python string operations the tools use: `str.split`, `str.startswith`,
 * `str.endswith` and POSIX `os.path.basename`.
 */
module Strings {

  predicate StartsWith(s: string, prefix: string) {
    |prefix| <= |s| && s[..|prefix|] == prefix
  }

  predicate EndsWith(s: string, suffix: string) {
    |suffix| <= |s| && s[|s| - |suffix|..] == suffix
  }

  /** Position of the first `c` in `s`, or `|s|` when there is none. */
  function IndexOf(s: string, c: char): (i: nat)
    ensures i <= |s|
    ensures forall j :: 0 <= j < i ==> s[j] != c
    ensures i < |s| ==> s[i] == c
    ensures i == |s| <==> c !in s
  {
    if |s| == 0 then 0
    else if s[0] == c then 0
    else 1 + IndexOf(s[1..], c)
  }

  /**
   * Python's `s.split(sep)` for a one-character separator: the maximal
   * separator-free fields, in order, including empty ones.
   */
  function Split(s: string, sep: char): (fields: seq<string>)
    ensures |fields| >= 1
    ensures |fields| == 1 <==> sep !in s
    ensures forall k :: 0 <= k < |fields| ==> sep !in fields[k]
    ensures StartsWith(s, fields[0])
    ensures |fields[0]| < |s| ==> s[|fields[0]|] == sep
    decreases |s|
  {
    var i := IndexOf(s, sep);
    if i == |s| then [s] else [s[..i]] + Split(s[i + 1..], sep)
  }

  /** Python's `sep.join(fields)`. */
  function Join(fields: seq<string>, sep: char): string
    requires |fields| >= 1
  {
    if |fields| == 1 then fields[0] else fields[0] + [sep] + Join(fields[1..], sep)
  }

  /** Splitting loses nothing: joining the fields back gives the original text. */
  lemma {:induction false} JoinSplit(s: string, sep: char)
    ensures Join(Split(s, sep), sep) == s
    decreases |s|
  {
    var i := IndexOf(s, sep);
    if i < |s| {
      var head, rest := s[..i], s[i + 1..];
      var fields := Split(rest, sep);
      SplitUnfold(s, sep);
      JoinSplit(rest, sep);
      JoinCons(head, fields, sep);
      CutAt(s, i);
    }
  }

  lemma SplitUnfold(s: string, sep: char)
    requires sep in s
    ensures Split(s, sep) == [s[..IndexOf(s, sep)]] + Split(s[IndexOf(s, sep) + 1..], sep)
  {
  }

  lemma CutAt(s: string, i: nat)
    requires i < |s|
    ensures s == s[..i] + [s[i]] + s[i + 1..]
  {
  }

  lemma JoinCons(head: string, fields: seq<string>, sep: char)
    requires |fields| >= 1
    ensures Join([head] + fields, sep) == head + [sep] + Join(fields, sep)
  {
    assert ([head] + fields)[1..] == fields;
  }

  /** Splitting text that has no separator before position `i` keeps that prefix in the first field. */
  lemma SplitSecondField(s: string, sep: char, i: nat)
    requires i < |s| && s[i] == sep
    requires forall j :: 0 <= j < i ==> s[j] != sep
    ensures |Split(s, sep)| >= 2
    ensures Split(s, sep)[0] == s[..i]
    ensures Split(s, sep)[1] == Split(s[i + 1..], sep)[0]
  {
    assert IndexOf(s, sep) == i;
  }

  /**
   * POSIX `os.path.basename`: the text after the last `/`, which is the
   * longest suffix of `path` that holds no `/`.
   */
  function Basename(path: string): (base: string)
    ensures '/' !in base
    ensures EndsWith(path, base)
    ensures |base| < |path| ==> path[|path| - |base| - 1] == '/'
    decreases |path|
  {
    if |path| == 0 || path[|path| - 1] == '/' then ""
    else
      var init := path[..|path| - 1];
      var b := Basename(init);
      assert path[|path| - |b| - 1..] == init[|init| - |b|..] + [path[|path| - 1]];
      b + [path[|path| - 1]]
  }

  /** The basename of `dir + "/" + name` is `name` whenever `name` holds no `/`. */
  lemma {:induction false} BasenameOfChild(dir: string, name: string)
    requires '/' !in name
    ensures Basename(dir + "/" + name) == name
    decreases |name|
  {
    var path := dir + "/" + name;
    if name != [] {
      var init := name[..|name| - 1];
      assert path[..|path| - 1] == dir + "/" + init;
      BasenameOfChild(dir, init);
      assert init + [name[|name| - 1]] == name;
    }
  }

  /** A path without `/` is its own basename. */
  lemma {:induction false} BasenameOfPlainName(name: string)
    requires '/' !in name
    ensures Basename(name) == name
    decreases |name|
  {
    if name != [] {
      var init := name[..|name| - 1];
      BasenameOfPlainName(init);
      assert init + [name[|name| - 1]] == name;
    }
  }

  lemma EndsWithAppended(s: string, suffix: string)
    ensures EndsWith(s + suffix, suffix)
  {
    assert (s + suffix)[|s|..] == suffix;
  }
}
