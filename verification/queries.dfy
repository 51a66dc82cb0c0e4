/** The public queries of the behaviour and the two file operations built on
    them. Each query looks up, by attribute, the FIRST behaviour of the
    owner configured for it (`getInstance`) and resolves that behaviour's
    template against the owner; `createThumbs` and `cleanFiles` walk the
    calling behaviour's thumbnail profiles. */
module Queries {
  import opened Wrappers
  import opened Strings
  import opened Template
  import opened Model
  import opened Resolver
  import opened Storage

  /** What the resolver of behaviour `me` attached to `owner` reads: the
      owner's current property values, key and class name, and `me`'s
      attribute and parent attribute, but none of `me`'s templates. */
  function ContextOf(me: Config, owner: Record, env: Env): (r: Context)
    ensures r.attribute == me.attribute && r.parentAttribute == me.parentRelationAttribute
    ensures r.attrs == owner.attrs && r.pk == owner.pk && r.shortName == owner.shortName
    ensures forall other: Config | other.attribute == me.attribute &&
              other.parentRelationAttribute == me.parentRelationAttribute ::
              Context(other.attribute, owner.attrs, owner.pk, owner.shortName, other.parentRelationAttribute,
                      env.aliases, env.md5) == r
  {
    Context(me.attribute, owner.attrs, owner.pk, owner.shortName, me.parentRelationAttribute,
            env.aliases, env.md5)
  }

  /** `getUploadedFilePath($attribute)`: the behaviour is looked up first, so
      an attribute without one throws even when it is empty; an empty
      (false) attribute then gives "". */
  function GetUploadedFilePath(behaviors: seq<Config>, owner: Record, env: Env, attribute: string): (r: Result<string, Error>)
    ensures GetInstance(behaviors, attribute).Failure? ==> r == Failure(MissingBehavior(attribute))
    ensures r.Success? ==> attribute in owner.attrs
    ensures r.Success? && !Truthy(owner.attrs[attribute]) ==> r.value == ""
    ensures GetInstance(behaviors, attribute).Success? && attribute in owner.attrs && Truthy(owner.attrs[attribute]) ==>
              var b := GetInstance(behaviors, attribute).value;
              r == ResolvePath(b.filePath, ContextOf(b, owner, env))
  {
    var b :- GetInstance(behaviors, attribute);
    var v :- Lookup(owner.attrs, attribute);
    if !Truthy(v) then Success("") else ResolvePath(b.filePath, ContextOf(b, owner, env))
  }

  /** `getUploadedFileUrl($attribute)`: an empty attribute gives null before
      any behaviour is looked up. */
  function GetUploadedFileUrl(behaviors: seq<Config>, owner: Record, env: Env, attribute: string): (r: Result<Option<string>, Error>)
    ensures attribute !in owner.attrs ==> r == Failure(UnknownProperty(attribute))
    ensures attribute in owner.attrs && !Truthy(owner.attrs[attribute]) ==> r == Success(None)
    ensures r.Success? && r.value.Some? ==>
              GetInstance(behaviors, attribute).Success? &&
              var b := GetInstance(behaviors, attribute).value;
              ResolvePath(b.fileUrl, ContextOf(b, owner, env)) == Success(r.value.value)
    ensures attribute in owner.attrs && Truthy(owner.attrs[attribute]) && GetInstance(behaviors, attribute).Failure? ==>
              r == Failure(MissingBehavior(attribute))
    ensures attribute in owner.attrs && Truthy(owner.attrs[attribute]) && GetInstance(behaviors, attribute).Success? ==>
              var b := GetInstance(behaviors, attribute).value;
              var u := ResolvePath(b.fileUrl, ContextOf(b, owner, env));
              (r.Success? <==> u.Success?) && (u.Failure? ==> r.error == u.error) && (u.Success? ==> r.value == Some(u.value))
  {
    var v :- Lookup(owner.attrs, attribute);
    if !Truthy(v) then Success(None)
    else
      var b :- GetInstance(behaviors, attribute);
      var url :- ResolvePath(b.fileUrl, ContextOf(b, owner, env));
      Success(Some(url))
  }

  /** `getThumbFilePath($attribute, $profile)`. */
  function GetThumbFilePath(behaviors: seq<Config>, owner: Record, env: Env, attribute: string, profile: string): (r: Result<string, Error>)
    ensures GetInstance(behaviors, attribute).Failure? ==> r == Failure(MissingBehavior(attribute))
    ensures GetInstance(behaviors, attribute).Success? ==>
              var b := GetInstance(behaviors, attribute).value;
              r == ResolveProfilePath(b.thumbPath, profile, ContextOf(b, owner, env))
  {
    var b :- GetInstance(behaviors, attribute);
    ResolveProfilePath(b.thumbPath, profile, ContextOf(b, owner, env))
  }

  /** The thumbnail path of each profile, in the order of `$thumbs`: each
      one is resolved through `getThumbFilePath`, that is with the template
      of the FIRST behaviour for the attribute, whoever owns the profiles. */
  function ThumbTargets(behaviors: seq<Config>, owner: Record, env: Env, attribute: string, profiles: seq<Profile>): (r: seq<Result<string, Error>>)
    ensures |r| == |profiles|
    ensures forall i | 0 <= i < |r| :: r[i] == GetThumbFilePath(behaviors, owner, env, attribute, profiles[i].name)
  {
    seq(|profiles|, i requires 0 <= i < |profiles| => GetThumbFilePath(behaviors, owner, env, attribute, profiles[i].name))
  }

  /** `createThumbs()` of behaviour `me`: the source is the uploaded file's
      path, and each of `me`'s profiles gets its thumbnail if the source is
      a file and the thumbnail is not. */
  function CreateThumbs(me: Config, behaviors: seq<Config>, owner: Record, env: Env, fs: set<string>): (r: FsStep)
    ensures fs <= r.fs
    ensures GetUploadedFilePath(behaviors, owner, env, me.attribute).Failure? ==>
              r == FsStep(fs, Some(GetUploadedFilePath(behaviors, owner, env, me.attribute).error))
    ensures GetUploadedFilePath(behaviors, owner, env, me.attribute).Success? ==>
              var src := GetUploadedFilePath(behaviors, owner, env, me.attribute).value;
              var targets := ThumbTargets(behaviors, owner, env, me.attribute, me.thumbs);
              (!IsFile(fs, src) ==> r.fs == fs) &&
              (forall p | p in r.fs && p !in fs :: p in Resolved(targets)) &&
              r.error == FirstError(targets) &&
              (IsFile(fs, src) ==> r.fs == fs + Resolved(Walked(targets))) &&
              (AllResolved(targets) && IsFile(fs, src) ==> r.fs == fs + Resolved(targets))
  {
    match GetUploadedFilePath(behaviors, owner, env, me.attribute)
    case Failure(e) => FsStep(fs, Some(e))
    case Success(src) => WriteThumbs(fs, src, ThumbTargets(behaviors, owner, env, me.attribute, me.thumbs))
  }

  /** `cleanFiles()` of behaviour `me`: the file at `me`'s resolved path,
      then each profile's thumbnail, is unlinked. Only an exception of the
      resolver stops it; a missing file does not. */
  function CleanFiles(me: Config, behaviors: seq<Config>, owner: Record, env: Env, fs: set<string>): (r: FsStep)
    ensures r.fs <= fs
    ensures ResolvePath(me.filePath, ContextOf(me, owner, env)).Failure? ==>
              r == FsStep(fs, Some(ResolvePath(me.filePath, ContextOf(me, owner, env)).error))
    ensures ResolvePath(me.filePath, ContextOf(me, owner, env)).Success? ==>
              var primary := ResolvePath(me.filePath, ContextOf(me, owner, env)).value;
              var targets := ThumbTargets(behaviors, owner, env, me.attribute, me.thumbs);
              primary !in r.fs &&
              (forall p | p in fs && p !in r.fs :: p == primary || p in Resolved(targets)) &&
              r.error == FirstError(targets) &&
              r.fs == fs - {primary} - Resolved(Walked(targets)) &&
              (AllResolved(targets) ==> r.fs == fs - {primary} - Resolved(targets))
  {
    match ResolvePath(me.filePath, ContextOf(me, owner, env))
    case Failure(e) => FsStep(fs, Some(e))
    case Success(primary) => UnlinkAll(fs - {primary}, ThumbTargets(behaviors, owner, env, me.attribute, me.thumbs))
  }

  /** The file set after a URL query, and the query's answer. */
  datatype UrlStep = UrlStep(fs: set<string>, url: Result<Option<string>, Error>)

  /** `getThumbFileUrl($attribute, $profile, $emptyUrl)`: an empty attribute
      gives the fallback; otherwise the first behaviour for the attribute
      creates its thumbnails first when it is configured to do so on
      request, then its thumbnail URL template is resolved for `profile`. */
  function GetThumbFileUrl(behaviors: seq<Config>, owner: Record, env: Env, fs: set<string>,
                           attribute: string, profile: string, emptyUrl: Option<string>): (r: UrlStep)
    ensures fs <= r.fs
    ensures attribute !in owner.attrs ==> r == UrlStep(fs, Failure(UnknownProperty(attribute)))
    ensures attribute in owner.attrs && !Truthy(owner.attrs[attribute]) ==> r == UrlStep(fs, Success(emptyUrl))
    ensures r.fs != fs ==> GetInstance(behaviors, attribute).Success? && GetInstance(behaviors, attribute).value.createThumbsOnRequest
    ensures attribute in owner.attrs && Truthy(owner.attrs[attribute]) && r.url.Success? ==>
              r.url.value.Some? && GetInstance(behaviors, attribute).Success? &&
              var b := GetInstance(behaviors, attribute).value;
              ResolveProfilePath(b.thumbUrl, profile, ContextOf(b, owner, env)) == Success(r.url.value.value)
    ensures attribute in owner.attrs && Truthy(owner.attrs[attribute]) && GetInstance(behaviors, attribute).Failure? ==>
              r == UrlStep(fs, Failure(MissingBehavior(attribute)))
    ensures attribute in owner.attrs && Truthy(owner.attrs[attribute]) && GetInstance(behaviors, attribute).Success? ==>
              var b := GetInstance(behaviors, attribute).value;
              var made := CreateThumbs(b, behaviors, owner, env, fs);
              (b.createThumbsOnRequest ==> r.fs == made.fs) && (!b.createThumbsOnRequest ==> r.fs == fs) &&
              (b.createThumbsOnRequest && made.error.Some? ==> r.url == Failure(made.error.value))
    ensures attribute in owner.attrs && Truthy(owner.attrs[attribute]) && GetInstance(behaviors, attribute).Success? ==>
              var b := GetInstance(behaviors, attribute).value;
              var u := ResolveProfilePath(b.thumbUrl, profile, ContextOf(b, owner, env));
              (!b.createThumbsOnRequest || CreateThumbs(b, behaviors, owner, env, fs).error.None?) ==>
              (r.url.Success? <==> u.Success?) && (u.Failure? ==> r.url.error == u.error) &&
              (u.Success? ==> r.url.value == Some(u.value))
  {
    match Lookup(owner.attrs, attribute)
    case Failure(e) => UrlStep(fs, Failure(e))
    case Success(v) =>
      if !Truthy(v) then UrlStep(fs, Success(emptyUrl))
      else
        match GetInstance(behaviors, attribute)
        case Failure(e) => UrlStep(fs, Failure(e))
        case Success(b) =>
          var made := if b.createThumbsOnRequest then CreateThumbs(b, behaviors, owner, env, fs) else FsStep(fs, None);
          if made.error.Some? then UrlStep(made.fs, Failure(made.error.value))
          else
            match ResolveProfilePath(b.thumbUrl, profile, ContextOf(b, owner, env))
            case Failure(e) => UrlStep(made.fs, Failure(e))
            case Success(url) => UrlStep(made.fs, Success(Some(url)))
  }
}
