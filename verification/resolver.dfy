/** `resolvePath` and `resolveProfilePath`: a template such as
    `@webroot/uploads/[[pk]].[[extension]]` turned into a concrete path.
    The alias at the head is expanded first, then one placeholder pass
    replaces every `[[name]]` the behaviour knows and echoes every other one
    as the literal `[[name]]`. `resolveProfilePath` runs a second pass over
    that result which only knows `[[profile]]`. */
module Resolver {
  import opened Wrappers
  import opened Strings
  import opened PathInfo
  import opened Template
  import opened IdPath
  import opened Model

  /** Everything a resolution reads: the attachment attribute's name, the
      owner's properties (the attachment's stored value among them), the
      primary-key values, the owner class's short name, the configured
      parent-reference attribute, and the framework services. */
  datatype Context = Context(
    attribute: string,
    attrs: map<string, Value>,
    pk: seq<string>,
    shortName: string,
    parentAttribute: Option<string>,
    aliases: map<string, string>,
    md5: string -> string)

  /** `Yii::getAlias($path)` over a flat table of aliases: a path starting
      with `@` has its root (up to the first `/`) replaced by the root's
      registered path; an unregistered root throws. */
  function GetAlias(aliases: map<string, string>, path: string): (r: Result<string, Error>)
    ensures (|path| == 0 || path[0] != '@') ==> r == Success(path)
    ensures |path| > 0 && path[0] == '@' && '/' !in path ==>
              r == if path in aliases then Success(aliases[path]) else Failure(InvalidAlias(path))
    ensures |path| > 0 && path[0] == '@' && '/' in path && path[..IndexOf(path, '/')] !in aliases ==>
              r == Failure(InvalidAlias(path[..IndexOf(path, '/')]))
  {
    if |path| == 0 || path[0] != '@' then Success(path)
    else
      var root := if '/' in path then path[..IndexOf(path, '/')] else path;
      if root !in aliases then Failure(InvalidAlias(root))
      else if root == path then Success(aliases[root])
      else Success(aliases[root] + path[|root|..])
  }

  /** The capture of `^prefix(\w+)$`, if `name` matches it;
      `SuffixIsWordRun` says when it does. */
  function Suffix(prefix: string, name: string): (r: Option<string>)
    ensures r.Some? ==> name == prefix + r.value && |r.value| > 0
  {
    if |name| > |prefix| && name[..|prefix|] == prefix
       && forall i | |prefix| <= i < |name| :: IsWordChar(name[i])
    then
      assert name == prefix + name[|prefix|..];
      Some(name[|prefix|..])
    else None
  }

  /** `name` matches `^prefix(\w+)$` exactly when it is `prefix` followed by
      a non-empty run of word characters, and the capture is that run. */
  lemma SuffixIsWordRun(prefix: string, name: string)
    ensures Suffix(prefix, name).Some? ==>
              forall i | 0 <= i < |Suffix(prefix, name).value| :: IsWordChar(Suffix(prefix, name).value[i])
    ensures forall w | name == prefix + w ::
              Suffix(prefix, name).Some? <==> (|w| > 0 && forall i | 0 <= i < |w| :: IsWordChar(w[i]))
  {
    forall w | name == prefix + w
      ensures Suffix(prefix, name).Some? <==> (|w| > 0 && forall i | 0 <= i < |w| :: IsWordChar(w[i]))
    {
      assert name[..|prefix|] == prefix && name[|prefix|..] == w;
      assert forall i | 0 <= i < |w| :: w[i] == name[|prefix| + i];
    }
  }

  /** `attribute_a/b` does not match `^attribute_(\w+)$`, because `/` is no
      word character. */
  lemma SlashedAttributeNoMatch()
    ensures Suffix("attribute_", "attribute_a/b").None?
  {
    assert "attribute_a/b" == "attribute_" + "a/b";
    assert !IsWordChar("a/b"[1]);
    SuffixIsWordRun("attribute_", "attribute_a/b");
  }

  /** So the token `[[attribute_a/b]]` is not one the resolver knows: it is
      echoed. */
  lemma SlashedAttributeIsUnknown()
    ensures !Known("attribute_a/b")
  {
    var name := "attribute_a/b";
    SlashedAttributeNoMatch();
    assert Suffix("md5_attribute_", name).None? by {
      assert |name| < |"md5_attribute_"|;
    }
    assert name !in Builtins by {
      assert |name| == 13;
    }
  }

  /** The names the `switch` of `resolvePath` handles. */
  const Builtins: set<string> :=
    {"extension", "filename", "basename", "app_root", "web_root", "base_url",
     "model", "attribute", "id", "pk", "id_path", "parent_id"}

  /** Names `resolvePath` replaces; every other name is echoed. */
  predicate Known(name: string) {
    name in Builtins || Suffix("attribute_", name).Some? || Suffix("md5_attribute_", name).Some?
  }

  /** A property read by name, converted to a string as the callback's
      return value is. */
  function PropertyText(ctx: Context, name: string): Result<string, Error> {
    var v :- Lookup(ctx.attrs, name);
    Success(AsString(v))
  }

  /** The callback of `resolvePath` for one captured name; `fileName` and
      `extension` come from `pathinfo` of the stored value, the extension
      already lower-cased. */
  function Placeholder(name: string, fileName: string, extension: string, ctx: Context): (r: Result<string, Error>)
    ensures !Known(name) ==> r == Success("[[" + name + "]]")
  {
    if name == "extension" then Success(extension)
    else if name == "filename" then Success(fileName)
    else if name == "basename" then Success(Join(".", KeepTruthy([fileName, extension])))
    else if name == "app_root" then GetAlias(ctx.aliases, "@app")
    else if name == "web_root" then GetAlias(ctx.aliases, "@webroot")
    else if name == "base_url" then GetAlias(ctx.aliases, "@web")
    else if name == "model" then Success(LcFirst(ctx.shortName))
    else if name == "attribute" then Success(LcFirst(ctx.attribute))
    else if name == "id" || name == "pk" then Success(LcFirst(Join("_", ctx.pk)))
    else if name == "id_path" then Success(MakeIdPath(Join("", ctx.pk)))
    else if name == "parent_id" then
      match ctx.parentAttribute
      case None => Failure(UnknownProperty(""))
      case Some(a) => PropertyText(ctx, a)
    else if Suffix("attribute_", name).Some? then PropertyText(ctx, Suffix("attribute_", name).value)
    else if Suffix("md5_attribute_", name).Some? then
      var text :- PropertyText(ctx, Suffix("md5_attribute_", name).value);
      Success(ctx.md5(text))
    else Success("[[" + name + "]]")
  }

  /** The callback of the first pass, for a stored value split by `pathinfo`. */
  function PathCallback(info: Info, ctx: Context): string -> Result<string, Error> {
    name => Placeholder(name, info.filename, Lower(info.extension.GetOr("")), ctx)
  }

  /** `pathinfo` of the attachment attribute's current value. */
  function StoredInfo(ctx: Context): Result<Info, Error> {
    var stored :- Lookup(ctx.attrs, ctx.attribute);
    Success(PathInfoOf(AsString(stored)))
  }

  /** `resolvePath($path)`. The alias is expanded before the attachment
      attribute is read, so an unknown alias is reported ahead of an unknown
      attribute, and a template in which the pass finds no token resolves to
      its alias expansion. */
  function ResolvePath(path: string, ctx: Context): (r: Result<string, Error>)
    ensures GetAlias(ctx.aliases, path).Failure? ==> r == Failure(GetAlias(ctx.aliases, path).error)
    ensures GetAlias(ctx.aliases, path).Success? && ctx.attribute !in ctx.attrs ==>
              r == Failure(UnknownProperty(ctx.attribute))
    ensures (GetAlias(ctx.aliases, path).Success? && ctx.attribute in ctx.attrs &&
             Names(GetAlias(ctx.aliases, path).value) == []) ==> r == GetAlias(ctx.aliases, path)
  {
    var p :- GetAlias(ctx.aliases, path);
    var info :- StoredInfo(ctx);
    if Names(p) == [] then
      ScanEchoIsIdentity(p, PathCallback(info, ctx));
      Scan(p, PathCallback(info, ctx))
    else
      Scan(p, PathCallback(info, ctx))
  }

  /** The callback of the second pass: only `[[profile]]` is replaced. */
  function ProfileCallback(profile: string): string -> Result<string, Error> {
    name => if name == "profile" then Success(profile) else Success("[[" + name + "]]")
  }

  /** `resolveProfilePath($path, $profile)`. Its second pass never throws:
      it fails exactly when `resolvePath` does, with the same exception. */
  function ResolveProfilePath(path: string, profile: string, ctx: Context): (r: Result<string, Error>)
    ensures r.Success? <==> ResolvePath(path, ctx).Success?
    ensures ResolvePath(path, ctx).Failure? ==> r == ResolvePath(path, ctx)
  {
    var p :- ResolvePath(path, ctx);
    ScanTotal(p, ProfileCallback(profile));
    Scan(p, ProfileCallback(profile))
  }

  // ---------------------------------------------------------------------
  // Properties of the resolver
  // ---------------------------------------------------------------------

  /** A template made of one token (with no alias) resolves to the first
      pass's replacement for that token. */
  lemma ResolveToken(path: string, name: string, ctx: Context)
    requires IsName(name) && path == "[[" + name + "]]"
    requires ctx.attribute in ctx.attrs
    ensures StoredInfo(ctx).Success?
    ensures ResolvePath(path, ctx) == PathCallback(StoredInfo(ctx).value, ctx)(name)
  {
    assert path[0] == '[';
    ScanSingle(path, name, PathCallback(StoredInfo(ctx).value, ctx));
  }

  /** What the first pass's callback gives for the built-in names taken
      from the stored value. */
  lemma CallbackFileBuiltins(info: Info, ctx: Context)
    ensures PathCallback(info, ctx)("extension") == Success(Lower(info.extension.GetOr("")))
    ensures PathCallback(info, ctx)("filename") == Success(info.filename)
    ensures PathCallback(info, ctx)("basename") ==
              Success(StoredName(info.filename, Lower(info.extension.GetOr(""))))
  {
  }

  /** What the first pass's callback gives for the built-in names taken
      from the record's key and parent reference. */
  lemma CallbackKeyBuiltins(info: Info, ctx: Context)
    ensures PathCallback(info, ctx)("pk") == Success(LcFirst(Join("_", ctx.pk)))
    ensures PathCallback(info, ctx)("id") == Success(LcFirst(Join("_", ctx.pk)))
    ensures PathCallback(info, ctx)("id_path") == Success(MakeIdPath(Join("", ctx.pk)))
    ensures PathCallback(info, ctx)("parent_id") ==
              match ctx.parentAttribute
              case None => Failure(UnknownProperty(""))
              case Some(a) => PropertyText(ctx, a)
  {
  }

  /** For a name outside the `switch`, the first pass's callback applies the
      `attribute_` rule, then the `md5_attribute_` rule, then echoes it. */
  lemma CallbackRules(info: Info, ctx: Context, name: string)
    requires name !in Builtins
    ensures Suffix("attribute_", name).Some? ==>
              PathCallback(info, ctx)(name) == PropertyText(ctx, Suffix("attribute_", name).value)
    ensures Suffix("attribute_", name).None? && Suffix("md5_attribute_", name).Some? ==>
              PathCallback(info, ctx)(name) ==
                match PropertyText(ctx, Suffix("md5_attribute_", name).value)
                case Failure(e) => Failure(e)
                case Success(text) => Success(ctx.md5(text))
  {
  }

  /** A token whose name starts with a given prefix, written as one literal. */
  lemma PrefixedToken(open: string, prefix: string, x: string)
    requires open == "[[" + prefix
    ensures open + x + "]]" == "[[" + (prefix + x) + "]]"
  {
  }

  /** Unknown names are echoed by the first pass's callback. */
  lemma CallbackEchoes(info: Info, ctx: Context, name: string, token: string)
    requires !Known(name) && token == "[[" + name + "]]"
    ensures PathCallback(info, ctx)(name) == Success(token)
  {
  }

  /** `profile` and `bogus` are names the first pass does not know. */
  lemma UnknownExamples()
    ensures !Known("profile") && !Known("bogus")
  {
    assert |"profile"| == 7 && |"bogus"| == 5;
  }

  /** Unknown placeholders are echoed: a template (without an alias) none
      of whose tokens the resolver knows comes back unchanged. Resolution
      fails only if the attachment attribute itself is not a property. */
  lemma {:induction false} UnknownPlaceholdersEchoed(path: string, ctx: Context)
    requires |path| == 0 || path[0] != '@'
    requires forall name | name in Names(path) :: !Known(name)
    ensures ResolvePath(path, ctx) == if ctx.attribute in ctx.attrs then Success(path)
                                      else Failure(UnknownProperty(ctx.attribute))
  {
    if ctx.attribute in ctx.attrs {
      var info := StoredInfo(ctx).value;
      var cb := PathCallback(info, ctx);
      forall name | name in Names(path) ensures cb(name) == Success("[[" + name + "]]") {
        CallbackEchoes(info, ctx, name, "[[" + name + "]]");
      }
      ScanEchoIsIdentity(path, cb);
    }
  }

  /** The only token of `[[bogus]]/x` is `bogus`. */
  lemma NamesOfBogus()
    ensures Names("[[bogus]]/x") == ["bogus"]
  {
    assert IsName("bogus");
    assert "[[bogus]]/x" == "[[" + "bogus" + "]]" + "/x";
    NamesToken("bogus", "/x");
    assert "/x" == ['/'] + "x";
    NoTokenAtPlain('/', "x");
    NamesPlain('/', "x");
    assert "x" == ['x'] + "";
    NoTokenAtPlain('x', "");
    NamesPlain('x', "");
  }

  /** The documented example: `[[bogus]]/x` resolves to itself. */
  lemma BogusIsEchoed(ctx: Context)
    requires ctx.attribute in ctx.attrs
    ensures ResolvePath("[[bogus]]/x", ctx) == Success("[[bogus]]/x")
  {
    NamesOfBogus();
    UnknownExamples();
    forall name | name in Names("[[bogus]]/x") ensures !Known(name) {
      assert name == "bogus";
    }
    UnknownPlaceholdersEchoed("[[bogus]]/x", ctx);
  }

  /** The second pass scans what the first one produced. */
  lemma ProfilePass(path: string, profile: string, ctx: Context, resolved: string)
    requires ResolvePath(path, ctx) == Success(resolved)
    ensures ResolveProfilePath(path, profile, ctx) == Scan(resolved, ProfileCallback(profile))
  {
  }

  /** `[[profile]]` is unknown to the first pass, so it survives it, and the
      second pass substitutes the profile name for it. */
  lemma ProfileSurvivesResolvePath(profile: string, ctx: Context)
    requires ctx.attribute in ctx.attrs
    ensures ResolvePath("[[profile]]", ctx) == Success("[[profile]]")
    ensures ResolveProfilePath("[[profile]]", profile, ctx) == Success(profile)
  {
    UnknownExamples();
    assert IsName("profile");
    ResolveToken("[[profile]]", "profile", ctx);
    CallbackEchoes(StoredInfo(ctx).value, ctx, "profile", "[[profile]]");
    ProfilePass("[[profile]]", profile, ctx, "[[profile]]");
    ScanSingle("[[profile]]", "profile", ProfileCallback(profile));
  }

  /** `[[profile]]` is a capturable name the first pass does not know. */
  lemma ProfileToken()
    ensures IsName("profile") && !Known("profile")
    ensures "[[profile]]" == "[[" + "profile" + "]]"
  {
    UnknownExamples();
  }

  /** A thumbnail template with a `[[profile]]` token after plain text: the
      first pass keeps the token and resolves the rest, the second pass puts
      the profile name in its place. */
  lemma ProfileInTemplate(path: string, profile: string, ctx: Context, pre: string, rest: string, r: string)
    requires ctx.attribute in ctx.attrs
    requires GetAlias(ctx.aliases, path) == Success(pre + ("[[profile]]" + rest))
    requires '[' !in pre
    requires |rest| == 0 || rest[0] != '@'
    requires ResolvePath(rest, ctx) == Success(r)
    requires "profile" !in Names(r)
    ensures ResolvePath(path, ctx) == Success(pre + ("[[profile]]" + r))
    ensures ResolveProfilePath(path, profile, ctx) == Success(pre + (profile + r))
  {
    ProfileToken();
    var info := StoredInfo(ctx).value;
    var cb := PathCallback(info, ctx);
    ScanPlainPrefix(pre, "[[profile]]" + rest, cb);
    ScanToken("profile", rest, cb);
    CallbackEchoes(info, ctx, "profile", "[[profile]]");
    var pcb := ProfileCallback(profile);
    forall name | name in Names(r) ensures pcb(name) == Success("[[" + name + "]]") {
    }
    ScanEchoIsIdentity(r, pcb);
    ScanPlainPrefix(pre, "[[profile]]" + r, pcb);
    ScanToken("profile", r, pcb);
  }

  /** Without a `[[profile]]` token left after the first pass, the second
      pass changes nothing: the profile path is the plain resolved path. */
  lemma ProfilePassWithoutProfile(path: string, profile: string, ctx: Context)
    requires ResolvePath(path, ctx).Success?
    requires "profile" !in Names(ResolvePath(path, ctx).value)
    ensures ResolveProfilePath(path, profile, ctx) == ResolvePath(path, ctx)
  {
    var p := ResolvePath(path, ctx).value;
    ScanEchoIsIdentity(p, ProfileCallback(profile));
  }

  /** `[[filename]]` is the `filename` entry of `pathinfo` of the stored value. */
  lemma ResolveFilename(ctx: Context)
    requires ctx.attribute in ctx.attrs
    ensures ResolvePath("[[filename]]", ctx) == Success(PathInfoOf(AsString(ctx.attrs[ctx.attribute])).filename)
  {
    assert IsName("filename");
    ResolveToken("[[filename]]", "filename", ctx);
    CallbackFileBuiltins(StoredInfo(ctx).value, ctx);
  }

  /** `[[extension]]` is the `extension` entry, lower-cased, or empty when there is none. */
  lemma ResolveExtension(ctx: Context)
    requires ctx.attribute in ctx.attrs
    ensures ResolvePath("[[extension]]", ctx) ==
              Success(Lower(PathInfoOf(AsString(ctx.attrs[ctx.attribute])).extension.GetOr("")))
  {
    assert IsName("extension");
    ResolveToken("[[extension]]", "extension", ctx);
    CallbackFileBuiltins(StoredInfo(ctx).value, ctx);
  }

  /** `[[basename]]` is the true ones of file name and lower-cased extension, joined by a dot. */
  lemma ResolveBasename(ctx: Context)
    requires ctx.attribute in ctx.attrs
    ensures ResolvePath("[[basename]]", ctx) ==
              Success(StoredName(PathInfoOf(AsString(ctx.attrs[ctx.attribute])).filename,
                                 Lower(PathInfoOf(AsString(ctx.attrs[ctx.attribute])).extension.GetOr(""))))
  {
    assert IsName("basename");
    ResolveToken("[[basename]]", "basename", ctx);
    CallbackFileBuiltins(StoredInfo(ctx).value, ctx);
  }

  /** `[[pk]]` is the key values joined by `_`, `lcfirst`-ed. */
  lemma ResolvePk(ctx: Context)
    requires ctx.attribute in ctx.attrs
    ensures ResolvePath("[[pk]]", ctx) == Success(LcFirst(Join("_", ctx.pk)))
  {
    assert IsName("pk");
    ResolveToken("[[pk]]", "pk", ctx);
    CallbackKeyBuiltins(StoredInfo(ctx).value, ctx);
  }

  /** `[[id]]` is the same as `[[pk]]`. */
  lemma ResolveId(ctx: Context)
    requires ctx.attribute in ctx.attrs
    ensures ResolvePath("[[id]]", ctx) == Success(LcFirst(Join("_", ctx.pk)))
  {
    assert IsName("id");
    ResolveToken("[[id]]", "id", ctx);
    CallbackKeyBuiltins(StoredInfo(ctx).value, ctx);
  }

  /** `[[pk]]` and `[[id]]` give the primary-key values joined by `_`, with
      only the first character lower-cased: when no value contains `_`,
      splitting the result at `_` gives the values back, the first one
      `lcfirst`-ed. */
  lemma PkPlaceholder(ctx: Context)
    requires ctx.attribute in ctx.attrs
    requires |ctx.pk| > 0 && |ctx.pk[0]| > 0
    requires forall i | 0 <= i < |ctx.pk| :: '_' !in ctx.pk[i]
    ensures ResolvePath("[[pk]]", ctx) == ResolvePath("[[id]]", ctx)
    ensures ResolvePath("[[pk]]", ctx).Success?
    ensures Split('_', ResolvePath("[[pk]]", ctx).value) == [LcFirst(ctx.pk[0])] + ctx.pk[1..]
  {
    ResolvePk(ctx);
    ResolveId(ctx);
    LcFirstJoin("_", ctx.pk);
    var parts := [LcFirst(ctx.pk[0])] + ctx.pk[1..];
    forall i | 0 <= i < |parts| ensures '_' !in parts[i] {
      if i == 0 {
        LcFirstShape(ctx.pk[0]);
        assert LowerChar(ctx.pk[0][0]) != '_';
        assert LcFirst(ctx.pk[0]) == [LowerChar(ctx.pk[0][0])] + ctx.pk[0][1..];
      } else {
        assert parts[i] == ctx.pk[i];
      }
    }
    SplitJoin('_', parts);
  }

  /** `[[extension]]` is the extension of the stored value, always in lower
      case; with no dot in the stored base name it is empty. */
  lemma ExtensionIsLowerCase(ctx: Context)
    requires ctx.attribute in ctx.attrs
    ensures ResolvePath("[[extension]]", ctx).Success?
    ensures forall i | 0 <= i < |ResolvePath("[[extension]]", ctx).value| ::
              !IsUpper(ResolvePath("[[extension]]", ctx).value[i])
    ensures '.' !in BaseName(AsString(ctx.attrs[ctx.attribute])) ==> ResolvePath("[[extension]]", ctx).value == ""
  {
    ResolveExtension(ctx);
    LowerIsLowerCase(PathInfoOf(AsString(ctx.attrs[ctx.attribute])).extension.GetOr(""));
  }

  /** Round trip through the stored value: after `beforeSave` has stored a
      true base name and a true, dot-free extension, `[[filename]]` gives the
      base name back, `[[extension]]` the lower-cased extension and
      `[[basename]]` both joined by a dot. */
  lemma StoredNameResolves(baseName: string, extension: string, ctx: Context)
    requires !Falsy(baseName) && !Falsy(extension)
    requires '.' !in extension && '/' !in baseName && '/' !in extension
    requires ctx.attribute in ctx.attrs && ctx.attrs[ctx.attribute] == Str(StoredName(baseName, extension))
    ensures ResolvePath("[[filename]]", ctx) == Success(baseName)
    ensures ResolvePath("[[extension]]", ctx) == Success(Lower(extension))
    ensures ResolvePath("[[basename]]", ctx) == Success(baseName + "." + Lower(extension))
  {
    ResolveFilename(ctx);
    ResolveExtension(ctx);
    ResolveBasename(ctx);
    StoredNameRoundTrip(baseName, extension);
    LowerKeepsTruth(extension);
  }

  /** `[[basename]]` omits the dot when the stored value has no extension:
      it is then the file name alone (or empty, for a false file name). */
  lemma BasenameWithoutExtension(ctx: Context)
    requires ctx.attribute in ctx.attrs
    requires '.' !in BaseName(AsString(ctx.attrs[ctx.attribute]))
    ensures ResolvePath("[[filename]]", ctx) == Success(BaseName(AsString(ctx.attrs[ctx.attribute])))
    ensures ResolvePath("[[basename]]", ctx) ==
              if Falsy(BaseName(AsString(ctx.attrs[ctx.attribute]))) then Success("")
              else ResolvePath("[[filename]]", ctx)
  {
    ResolveFilename(ctx);
    ResolveBasename(ctx);
    var base := BaseName(AsString(ctx.attrs[ctx.attribute]));
    assert Lower("") == "";
  }

  /** `attribute_X` is read by the `attribute_` rule. */
  lemma AttributeName(x: string)
    requires |x| > 0 && forall i | 0 <= i < |x| :: IsWordChar(x[i])
    ensures IsName("attribute_" + x)
    ensures "attribute_" + x !in Builtins
    ensures Suffix("attribute_", "attribute_" + x) == Some(x)
  {
    var a := "attribute_" + x;
    assert a[..10] == "attribute_" && a[10..] == x;
    assert |a| > 10;
  }

  /** `md5_attribute_X` is read by the `md5_attribute_` rule only. */
  lemma Md5AttributeName(x: string)
    requires |x| > 0 && forall i | 0 <= i < |x| :: IsWordChar(x[i])
    ensures IsName("md5_attribute_" + x)
    ensures "md5_attribute_" + x !in Builtins
    ensures Suffix("attribute_", "md5_attribute_" + x) == None
    ensures Suffix("md5_attribute_", "md5_attribute_" + x) == Some(x)
  {
    var m := "md5_attribute_" + x;
    assert m[..14] == "md5_attribute_" && m[14..] == x;
    assert m[0] == 'm';
    assert |m| > 14;
  }

  /** `[[attribute_X]]` reads property X; reading a property the record does
      not have throws. */
  lemma AttributePlaceholder(x: string, ctx: Context)
    requires |x| > 0 && forall i | 0 <= i < |x| :: IsWordChar(x[i])
    requires ctx.attribute in ctx.attrs
    ensures ResolvePath("[[attribute_" + x + "]]", ctx) ==
              if x in ctx.attrs then Success(AsString(ctx.attrs[x])) else Failure(UnknownProperty(x))
  {
    AttributeName(x);
    PrefixedToken("[[attribute_", "attribute_", x);
    ResolveToken("[[attribute_" + x + "]]", "attribute_" + x, ctx);
    CallbackRules(StoredInfo(ctx).value, ctx, "attribute_" + x);
  }

  /** `[[md5_attribute_X]]` digests property X; reading a property the
      record does not have throws. */
  lemma Md5AttributePlaceholder(x: string, ctx: Context)
    requires |x| > 0 && forall i | 0 <= i < |x| :: IsWordChar(x[i])
    requires ctx.attribute in ctx.attrs
    ensures ResolvePath("[[md5_attribute_" + x + "]]", ctx) ==
              if x in ctx.attrs then Success(ctx.md5(AsString(ctx.attrs[x]))) else Failure(UnknownProperty(x))
  {
    Md5AttributeName(x);
    PrefixedToken("[[md5_attribute_", "md5_attribute_", x);
    ResolveToken("[[md5_attribute_" + x + "]]", "md5_attribute_" + x, ctx);
    CallbackRules(StoredInfo(ctx).value, ctx, "md5_attribute_" + x);
  }

  /** `[[parent_id]]` reads the configured parent-reference attribute; with
      none configured the read throws. */
  lemma ParentIdPlaceholder(ctx: Context)
    requires ctx.attribute in ctx.attrs
    ensures ctx.parentAttribute.None? ==> ResolvePath("[[parent_id]]", ctx) == Failure(UnknownProperty(""))
    ensures ctx.parentAttribute.Some? ==>
              ResolvePath("[[parent_id]]", ctx) ==
                if ctx.parentAttribute.value in ctx.attrs then Success(AsString(ctx.attrs[ctx.parentAttribute.value]))
                else Failure(UnknownProperty(ctx.parentAttribute.value))
  {
    assert IsName("parent_id");
    ResolveToken("[[parent_id]]", "parent_id", ctx);
    CallbackKeyBuiltins(StoredInfo(ctx).value, ctx);
  }

  /** `[[id_path]]` shards the primary-key values, concatenated without a
      separator, over ten directory levels. */
  lemma IdPathPlaceholder(ctx: Context)
    requires ctx.attribute in ctx.attrs
    ensures ResolvePath("[[id_path]]", ctx) == Success(MakeIdPath(Join("", ctx.pk)))
    ensures |ResolvePath("[[id_path]]", ctx).value| == 2 * Levels - 1
  {
    assert IsName("id_path");
    ResolveToken("[[id_path]]", "id_path", ctx);
    CallbackKeyBuiltins(StoredInfo(ctx).value, ctx);
  }

  /** `Yii::getAlias` replaces a registered root followed by `/...` and
      keeps the rest of the path. */
  lemma AliasRoot(aliases: map<string, string>, root: string, tail: string)
    requires |root| > 0 && root[0] == '@' && '/' !in root && root in aliases
    requires |tail| > 0 && tail[0] == '/'
    ensures GetAlias(aliases, root + tail) == Success(aliases[root] + tail)
  {
    var path := root + tail;
    assert path[|root|] == '/';
    var k := IndexOf(path, '/');
    assert path[..k] == root;
    assert path[|root|..] == tail;
  }

  /** Text without a `[` in front of the rest of an expanded template is
      kept, and the rest is resolved as a template of its own. */
  lemma ResolveAfterPlain(path: string, pre: string, t: string, ctx: Context)
    requires GetAlias(ctx.aliases, path) == Success(pre + t)
    requires '[' !in pre
    requires |t| == 0 || t[0] != '@'
    ensures ResolvePath(path, ctx) ==
              (match ResolvePath(t, ctx)
               case Failure(e) => Failure(e)
               case Success(r) => Success(pre + r))
  {
    if StoredInfo(ctx).Success? {
      ScanPlainPrefix(pre, t, PathCallback(StoredInfo(ctx).value, ctx));
    }
  }

  /** `[[pk]].[[extension]]` is the token `pk`, a dot, and the token `extension`. */
  lemma PkDotExtensionTokens()
    ensures IsName("pk") && IsName("extension")
    ensures "[[pk]].[[extension]]" == "[[" + "pk" + "]]" + (['.'] + ("[[" + "extension" + "]]"))
  {
  }

  /** The shape of the default templates: `[[pk]].[[extension]]` is the
      `lcfirst`-ed key, a dot, and the lower-cased stored extension. */
  lemma PkDotExtension(ctx: Context)
    requires ctx.attribute in ctx.attrs
    ensures ResolvePath("[[pk]].[[extension]]", ctx) ==
              Success(LcFirst(Join("_", ctx.pk)) + "." +
                      Lower(PathInfoOf(AsString(ctx.attrs[ctx.attribute])).extension.GetOr("")))
  {
    PkDotExtensionTokens();
    var info := StoredInfo(ctx).value;
    CallbackFileBuiltins(info, ctx);
    CallbackKeyBuiltins(info, ctx);
    ScanTwoTokens("[[pk]].[[extension]]", "pk", '.', "extension", PathCallback(info, ctx),
                  LcFirst(Join("_", ctx.pk)), Lower(info.extension.GetOr("")));
  }

  /** The default templates: the `@webroot` alias, plain text, and the
      `[[pk]].[[extension]]` tail (after `[[profile]]_` for thumbnails). */
  lemma DefaultTemplateParts()
    ensures DefaultConfig().fileUrl == "/uploads/" + KeyDotExtension
    ensures DefaultConfig().filePath == WebRoot + ("/uploads/" + KeyDotExtension)
    ensures DefaultConfig().thumbPath == WebRoot + ("/images/" + ("[[profile]]" + ("_" + KeyDotExtension)))
  {
  }

  /** The literal pieces of the default templates. */
  lemma DefaultTemplatePieces()
    ensures |WebRoot| > 0 && WebRoot[0] == '@' && '/' !in WebRoot
    ensures "/uploads/"[0] == '/' && '[' !in "/uploads/"
    ensures "/images/"[0] == '/' && '[' !in "/images/"
    ensures '[' !in "_" && KeyDotExtension[0] == '['
  {
  }

  /** With the default file template the upload lives at
      `<webroot>/uploads/<pk>.<extension>`. */
  lemma DefaultFilePath(ctx: Context)
    requires ctx.attribute in ctx.attrs
    requires WebRoot in ctx.aliases && '[' !in ctx.aliases[WebRoot]
    ensures ResolvePath(DefaultConfig().filePath, ctx) ==
              Success(ctx.aliases[WebRoot] + "/uploads/" + (LcFirst(Join("_", ctx.pk)) + "." +
                      Lower(PathInfoOf(AsString(ctx.attrs[ctx.attribute])).extension.GetOr(""))))
  {
    var web := ctx.aliases[WebRoot];
    DefaultFileAlias(ctx.aliases);
    DefaultTemplatePieces();
    ResolveAfterPlain(DefaultConfig().filePath, web + "/uploads/", KeyDotExtension, ctx);
    PkDotExtension(ctx);
  }

  /** The default file template expands to the `@webroot` path, the
      uploads directory, and the `[[pk]].[[extension]]` name. */
  lemma DefaultFileAlias(aliases: map<string, string>)
    requires WebRoot in aliases
    ensures GetAlias(aliases, DefaultConfig().filePath) == Success((aliases[WebRoot] + "/uploads/") + KeyDotExtension)
  {
    DefaultTemplateParts();
    DefaultTemplatePieces();
    var web := aliases[WebRoot];
    AliasRoot(aliases, WebRoot, "/uploads/" + KeyDotExtension);
    assert web + ("/uploads/" + KeyDotExtension) == (web + "/uploads/") + KeyDotExtension;
  }

  /** With the default thumbnail template, the thumbnail of `profile` lives at
      `<webroot>/images/<profile>_<pk>.<extension>`, when neither the key nor
      the extension holds a `[`. */
  lemma DefaultThumbPath(profile: string, ctx: Context)
    requires ctx.attribute in ctx.attrs
    requires WebRoot in ctx.aliases && '[' !in ctx.aliases[WebRoot]
    requires '[' !in LcFirst(Join("_", ctx.pk)) + "." +
                     Lower(PathInfoOf(AsString(ctx.attrs[ctx.attribute])).extension.GetOr(""))
    ensures ResolveProfilePath(DefaultConfig().thumbPath, profile, ctx) ==
              Success(ctx.aliases[WebRoot] + "/images/" + (profile + ("_" + (LcFirst(Join("_", ctx.pk)) + "." +
                      Lower(PathInfoOf(AsString(ctx.attrs[ctx.attribute])).extension.GetOr(""))))))
  {
    DefaultTemplateParts();
    DefaultTemplatePieces();
    var web := ctx.aliases[WebRoot];
    var key := LcFirst(Join("_", ctx.pk)) + "." +
               Lower(PathInfoOf(AsString(ctx.attrs[ctx.attribute])).extension.GetOr(""));
    var rest := "_" + KeyDotExtension;
    AliasRoot(ctx.aliases, WebRoot, "/images/" + ("[[profile]]" + rest));
    assert web + ("/images/" + ("[[profile]]" + rest)) == (web + "/images/") + ("[[profile]]" + rest);
    PkDotExtension(ctx);
    ResolveAfterPlain(rest, "_", KeyDotExtension, ctx);
    assert '[' !in "_" + key;
    NamesWithoutBracket("_" + key);
    ProfileInTemplate(DefaultConfig().thumbPath, profile, ctx, web + "/images/", rest, "_" + key);
  }

  /** With the default URL template the upload is served from
      `/uploads/<pk>.<extension>`: the template has no alias to expand. */
  lemma DefaultFileUrl(ctx: Context)
    requires ctx.attribute in ctx.attrs
    ensures ResolvePath(DefaultConfig().fileUrl, ctx) ==
              Success("/uploads/" + (LcFirst(Join("_", ctx.pk)) + "." +
                      Lower(PathInfoOf(AsString(ctx.attrs[ctx.attribute])).extension.GetOr(""))))
  {
    DefaultTemplateParts();
    DefaultTemplatePieces();
    ResolveAfterPlain(DefaultConfig().fileUrl, "/uploads/", KeyDotExtension, ctx);
    PkDotExtension(ctx);
  }
}
