/** PHP's `pathinfo` as the resolver uses it, and the stored attribute value
    `beforeSave` builds from an upload. `pathinfo` takes the base name of the
    path (trailing slashes dropped, text after the last `/`) and splits it at
    its LAST dot: the part before is `filename`, the part after is
    `extension`, and there is no `extension` entry at all when the base name
    has no dot. */
module PathInfo {
  import opened Wrappers
  import opened Strings

  /** The path with its trailing `/` characters removed. */
  function StripTrailingSlashes(s: string): (r: string)
    ensures |r| <= |s| && r == s[..|r|]
    ensures |r| == 0 || r[|r| - 1] != '/'
    ensures '/' !in s ==> r == s
  {
    if |s| > 0 && s[|s| - 1] == '/' then StripTrailingSlashes(s[..|s| - 1]) else s
  }

  /** Position of the last occurrence of `c` in `s`, if any. */
  function LastIndexOf(s: string, c: char): (r: Option<nat>)
    ensures r.None? <==> c !in s
    ensures r.Some? ==> r.value < |s| && s[r.value] == c && c !in s[r.value + 1..]
  {
    if |s| == 0 then None
    else if s[|s| - 1] == c then Some(|s| - 1)
    else
      var r := LastIndexOf(s[..|s| - 1], c);
      assert s == s[..|s| - 1] + [s[|s| - 1]];
      r
  }

  /** The text after the last `/`. */
  function AfterLastSlash(s: string): (r: string)
    ensures '/' !in r
    ensures '/' !in s ==> r == s
  {
    match LastIndexOf(s, '/')
    case None => s
    case Some(k) => s[k + 1..]
  }

  /** `basename` as `pathinfo` computes it (on a system whose separator is
      `/`); `BaseNameIsLastSegment` says which part of the path it is. */
  function BaseName(path: string): (r: string)
    ensures '/' !in r
    ensures '/' !in path ==> r == path
  {
    AfterLastSlash(StripTrailingSlashes(path))
  }

  /** Only `/` characters are dropped from the end of the path. */
  lemma {:induction false} StrippedAreSlashes(s: string)
    ensures forall i | |StripTrailingSlashes(s)| <= i < |s| :: s[i] == '/'
    decreases |s|
  {
    if |s| > 0 && s[|s| - 1] == '/' {
      StrippedAreSlashes(s[..|s| - 1]);
    }
  }

  /** The base name is the last segment of the path once its trailing
      slashes are gone: `t` is the path up to a run of trailing `/`, and
      the base name is a suffix of `t` without `/` that is the whole of `t`
      or follows a `/`. */
  lemma BaseNameIsLastSegment(path: string, t: string, r: string)
    requires t == StripTrailingSlashes(path) && r == BaseName(path)
    ensures t == path[..|t|]
    ensures forall i | |t| <= i < |path| :: path[i] == '/'
    ensures |t| == 0 || t[|t| - 1] != '/'
    ensures |r| <= |t| && r == t[|t| - |r|..]
    ensures r == t || t[|t| - |r| - 1] == '/'
  {
    StrippedAreSlashes(path);
    match LastIndexOf(t, '/')
    case None =>
      assert r == t;
      assert t[|t| - |r|..] == t;
    case Some(k) =>
      assert r == t[k + 1..];
      assert |t| - |r| == k + 1;
  }

  /** The base name of a nested path with a trailing slash is its last
      directory name. */
  lemma NestedBaseName()
    ensures BaseName("a/b/") == "b"
  {
    var t := StripTrailingSlashes("a/b/");
    BaseNameIsLastSegment("a/b/", t, BaseName("a/b/"));
    assert t == "a/b";
    assert LastIndexOf(t, '/') == Some(1);
  }

  /** The `filename` and (optional) `extension` entries of `pathinfo`'s result. */
  datatype Info = Info(filename: string, extension: Option<string>)

  /** `pathinfo($path)`: split of the base name at its last dot. The
      `extension` entry is missing exactly when the base name has no dot,
      and re-joining the parts with a dot gives the base name back. */
  function PathInfoOf(path: string): (r: Info)
    ensures r.extension.None? <==> '.' !in BaseName(path)
    ensures r.extension.None? ==> r.filename == BaseName(path)
    ensures r.extension.Some? ==>
              r.filename + "." + r.extension.value == BaseName(path) && '.' !in r.extension.value
  {
    var base := BaseName(path);
    var dot := LastIndexOf(base, '.');
    if dot.None? then Info(base, None)
    else
      var k := dot.value;
      assert base == base[..k] + "." + base[k + 1..];
      Info(base[..k], Some(base[k + 1..]))
  }

  /** The stored value `beforeSave` writes: the true parts of
      `[baseName, extension]` joined with `.`. Both parts are kept when both
      are true in PHP; a false part is dropped. */
  function StoredName(baseName: string, extension: string): (r: string)
    ensures !Falsy(baseName) && !Falsy(extension) ==> r == baseName + "." + extension
    ensures !Falsy(baseName) && Falsy(extension) ==> r == baseName
    ensures Falsy(baseName) && !Falsy(extension) ==> r == extension
    ensures Falsy(baseName) && Falsy(extension) ==> r == ""
  {
    var parts := [baseName, extension];
    assert parts == [baseName] + [extension];
    KeepTruthyAppend([baseName], [extension]);
    var kept := KeepTruthy(parts);
    if !Falsy(baseName) && !Falsy(extension) then
      assert kept == [baseName, extension] && kept[1..] == [extension];
      assert Join(".", kept) == baseName + "." + Join(".", [extension]);
      Join(".", kept)
    else
      Join(".", kept)
  }

  /** Round trip: for a true base name and a true, dot-free extension, with
      no `/` in either, `pathinfo` of the stored value gives the base name
      back as `filename` and the extension as `extension`. */
  lemma {:induction false} StoredNameRoundTrip(baseName: string, extension: string)
    requires !Falsy(baseName) && !Falsy(extension)
    requires '.' !in extension
    requires '/' !in baseName && '/' !in extension
    ensures PathInfoOf(StoredName(baseName, extension)) == Info(baseName, Some(extension))
  {
    var s := baseName + "." + extension;
    assert '/' !in s by {
      forall i | 0 <= i < |s| ensures s[i] != '/' {
        if i < |baseName| { assert s[i] == baseName[i]; }
        else if i > |baseName| { assert s[i] == extension[i - |baseName| - 1]; }
      }
    }
    assert BaseName(s) == s;
    var k := LastIndexOf(s, '.');
    assert s[|baseName|] == '.';
    assert k.Some?;
    assert k.value == |baseName|;
    assert s[..k.value] == baseName;
    assert s[k.value + 1..] == extension;
  }

  /** Without an extension the stored value is the base name alone, which
      `pathinfo` returns unchanged when it has no dot and no `/`. */
  lemma StoredNameWithoutExtension(baseName: string, extension: string)
    requires !Falsy(baseName) && Falsy(extension)
    requires '.' !in baseName && '/' !in baseName
    ensures PathInfoOf(StoredName(baseName, extension)) == Info(baseName, None)
  {
  }

  /** `array_filter` treats "0" as false: an upload named `0.jpg` is stored
      as `jpg`, and `pathinfo` then reads `jpg` as the file name with no
      extension. */
  lemma ZeroBaseNameIsDropped()
    ensures StoredName("0", "jpg") == "jpg"
    ensures PathInfoOf(StoredName("0", "jpg")) == Info("jpg", None)
  {
    var stored := "jpg";
    assert '/' !in stored && '.' !in stored;
    assert BaseName(stored) == stored;
  }
}
