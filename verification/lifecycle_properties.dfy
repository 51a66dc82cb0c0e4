/** What one save or delete cycle guarantees about the owner's attributes
    and the files: the upload is captured once, the previous files go before
    the new name is stored, the stored file can be found again through the
    same templates, and cleaning or making thumbnails twice changes nothing
    the first time did not. */
module LifecycleProperties {
  import opened Wrappers
  import opened Strings
  import opened Template
  import opened PathInfo
  import opened Model
  import opened Resolver
  import opened Storage
  import opened Queries
  import opened Lifecycle

  // ---------------------------------------------------------------------
  // beforeValidate
  // ---------------------------------------------------------------------

  /** Running `beforeValidate` again with the same request changes nothing:
      the upload it put into the attribute is found there the second time. */
  lemma BeforeValidateIdempotent(me: Config, st: State, byModel: Option<UploadedFile>, byName: Option<UploadedFile>)
    ensures var once := BeforeValidate(me, st, byModel, byName);
            BeforeValidate(me, once.state, byModel, byName) == once
  {
    var once := BeforeValidate(me, st, byModel, byName);
    if me.attribute in st.owner.attrs && !st.owner.attrs[me.attribute].File? {
      var found := if byModel.Some? then byModel else byName;
      if found.Some? {
        assert once.state.owner.attrs[me.attribute] == File(found.value);
        assert once.state.owner.attrs[me.attribute := File(found.value)] == once.state.owner.attrs;
      }
    }
  }

  /** After a successful `beforeValidate` an upload is pending exactly when
      the attribute holds one, and then it holds that very upload. */
  lemma ValidatedUploadIsAttached(me: Config, st: State, byModel: Option<UploadedFile>, byName: Option<UploadedFile>)
    ensures var r := BeforeValidate(me, st, byModel, byName);
            r.error.None? ==>
              me.attribute in r.state.owner.attrs &&
              (r.state.file.Some? <==> r.state.owner.attrs[me.attribute].File?) &&
              (r.state.file.Some? ==> r.state.owner.attrs[me.attribute] == File(r.state.file.value))
  {
  }

  // ---------------------------------------------------------------------
  // beforeSave
  // ---------------------------------------------------------------------

  /** An update with a new upload first removes the previous file and its
      thumbnails, as resolved against the stored row by the first behaviour
      for the attribute; nothing else is removed. */
  lemma UpdateRemovesPreviousFiles(me: Config, behaviors: seq<Config>, env: Env, st: State, b: Config, previous: string)
    requires st.file.Some? && !st.owner.isNewRecord
    requires GetInstance(behaviors, me.attribute) == Success(b)
    requires ResolvePath(b.filePath, ContextOf(b, OldModel(st.owner), env)) == Success(previous)
    requires AllResolved(ThumbTargets(behaviors, OldModel(st.owner), env, me.attribute, b.thumbs))
    ensures var r := BeforeSave(me, behaviors, env, st);
            previous !in r.state.fs &&
            r.state.fs == st.fs - {previous} - Resolved(ThumbTargets(behaviors, OldModel(st.owner), env, me.attribute, b.thumbs))
  {
    var clean := CleanOldFiles(me, behaviors, env, st);
    assert b.attribute == me.attribute;
    assert clean == CleanFiles(b, behaviors, OldModel(st.owner), env, st.fs);
  }

  /** The round trip of a new upload: after `beforeSave` (with no previous
      file in the way) the attribute holds the upload's name, the extension
      attribute its extension, and the `[[filename]]`, `[[extension]]` and
      `[[basename]]` placeholders give the upload's base name, lower-cased
      extension, and both joined by a dot. */
  lemma StoredUploadResolves(me: Config, behaviors: seq<Config>, env: Env, st: State)
    requires st.file.Some?
    requires CleanOldFiles(me, behaviors, env, st).error.None?
    requires me.attribute in st.owner.attrs && me.attributeExtension in st.owner.attrs
    requires me.attribute != me.attributeExtension
    requires !Falsy(st.file.value.baseName) && !Falsy(st.file.value.extension)
    requires '.' !in st.file.value.extension && '/' !in st.file.value.baseName && '/' !in st.file.value.extension
    ensures var r := BeforeSave(me, behaviors, env, st);
            var f := st.file.value;
            var ctx := ContextOf(me, r.state.owner, env);
            r.error.None? &&
            r.state.owner.attrs[me.attributeExtension] == Str(f.extension) &&
            ResolvePath("[[filename]]", ctx) == Success(f.baseName) &&
            ResolvePath("[[extension]]", ctx) == Success(Lower(f.extension)) &&
            ResolvePath("[[basename]]", ctx) == Success(f.baseName + "." + Lower(f.extension))
  {
    var r := BeforeSave(me, behaviors, env, st);
    var f := st.file.value;
    var ctx := ContextOf(me, r.state.owner, env);
    assert r.state.owner.attrs[me.attribute] == Str(StoredName(f.baseName, f.extension));
    StoredNameResolves(f.baseName, f.extension, ctx);
  }

  /** An update without an upload keeps a true attribute value and brings
      back the stored one for an empty value, and writes null into the
      extension attribute either way; the files are untouched. */
  lemma UpdateWithoutUpload(me: Config, behaviors: seq<Config>, env: Env, st: State)
    requires st.file.None? && !st.owner.isNewRecord
    requires me.attribute in st.owner.attrs && me.attributeExtension in st.owner.attrs
    requires me.attribute != me.attributeExtension
    ensures var r := BeforeSave(me, behaviors, env, st);
            var before := st.owner.attrs[me.attribute];
            r.error.None? && r.state.fs == st.fs &&
            r.state.owner.attrs[me.attribute] ==
              (if Truthy(before) then before
               else if me.attribute in st.owner.oldAttrs then st.owner.oldAttrs[me.attribute] else Null) &&
            r.state.owner.attrs[me.attributeExtension] == Null
  {
  }

  /** A new record without an upload keeps its attribute as it is. */
  lemma NewRecordWithoutUpload(me: Config, behaviors: seq<Config>, env: Env, st: State)
    requires st.file.None? && st.owner.isNewRecord
    requires me.attribute in st.owner.attrs && me.attributeExtension in st.owner.attrs
    requires me.attribute != me.attributeExtension
    ensures var r := BeforeSave(me, behaviors, env, st);
            r.error.None? && r.state.fs == st.fs &&
            r.state.owner.attrs[me.attribute] == st.owner.attrs[me.attribute] &&
            r.state.owner.attrs[me.attributeExtension] == Null
  {
  }

  // ---------------------------------------------------------------------
  // afterSave
  // ---------------------------------------------------------------------

  /** Without a pending upload `afterSave` does nothing at all. */
  lemma AfterSaveWithoutUpload(me: Config, behaviors: seq<Config>, env: Env, st: State, saved: bool)
    requires st.file.None?
    ensures AfterSave(me, behaviors, env, st, saved) == Outcome(st, None)
  {
  }

  /** A move that fails throws, and leaves the files and the event count as
      they were. */
  lemma AfterSaveFailure(me: Config, behaviors: seq<Config>, env: Env, st: State)
    requires st.file.Some?
    requires GetUploadedFilePath(behaviors, st.owner, env, me.attribute).Success?
    ensures AfterSave(me, behaviors, env, st, false) == Outcome(st, Some(FileSaveError))
  {
  }

  /** The stored upload can be found again: after a successful `afterSave`
      the uploaded-file path query answers a path that is a file, and one
      `afterFileSave` event more has been triggered. */
  lemma AfterSaveStoresFile(me: Config, behaviors: seq<Config>, env: Env, st: State, saved: bool)
    requires st.file.Some?
    ensures var r := AfterSave(me, behaviors, env, st, saved);
            r.error.None? ==>
              GetUploadedFilePath(behaviors, r.state.owner, env, me.attribute).Success? &&
              IsFile(r.state.fs, GetUploadedFilePath(behaviors, r.state.owner, env, me.attribute).value) &&
              r.state.fileSavedEvents == st.fileSavedEvents + 1
  {
    var r := AfterSave(me, behaviors, env, st, saved);
    if r.error.None? {
      var path := GetUploadedFilePath(behaviors, st.owner, env, me.attribute).value;
      assert path in st.fs + {path};
    }
  }

  /** `afterSave` creates no file but the stored upload and the thumbnails
      of its own profiles. */
  lemma AfterSaveAddsOnlyItsFiles(me: Config, behaviors: seq<Config>, env: Env, st: State, saved: bool)
    ensures var r := AfterSave(me, behaviors, env, st, saved);
            forall p | p in r.state.fs && p !in st.fs ::
              GetUploadedFilePath(behaviors, st.owner, env, me.attribute) == Success(p) ||
              p in Resolved(ThumbTargets(behaviors, st.owner, env, me.attribute, me.thumbs))
  {
  }

  /** With the default file template, a successful save leaves the upload
      at `<webroot>/uploads/<pk>.<extension>`, the extension taken from the
      stored name in lower case. */
  lemma StoredAtDefaultLocation(me: Config, behaviors: seq<Config>, env: Env, st: State, saved: bool)
    requires st.file.Some?
    requires GetInstance(behaviors, me.attribute).Success?
    requires GetInstance(behaviors, me.attribute).value.filePath == DefaultConfig().filePath
    requires WebRoot in env.aliases && '[' !in env.aliases[WebRoot]
    ensures var r := AfterSave(me, behaviors, env, st, saved);
            r.error.None? ==>
              me.attribute in st.owner.attrs &&
              env.aliases[WebRoot] + "/uploads/" +
                (LcFirst(Join("_", st.owner.pk)) + "." +
                 Lower(PathInfoOf(AsString(st.owner.attrs[me.attribute])).extension.GetOr(""))) in r.state.fs
  {
    var r := AfterSave(me, behaviors, env, st, saved);
    if r.error.None? {
      AfterSaveStoresFile(me, behaviors, env, st, saved);
      var b := GetInstance(behaviors, me.attribute).value;
      DefaultFilePath(ContextOf(b, st.owner, env));
    }
  }

  /** Thumbnails are made on save only for the listed extensions, compared
      exactly, and only when the behaviour asks for it: otherwise the
      stored upload is the only new file. */
  lemma AfterSaveWithoutThumbnails(me: Config, behaviors: seq<Config>, env: Env, st: State, path: string)
    requires st.file.Some?
    requires st.file.value.extension !in ThumbExtensions || !me.createThumbsOnSave
    requires GetUploadedFilePath(behaviors, st.owner, env, me.attribute) == Success(path) && path != ""
    ensures AfterSave(me, behaviors, env, st, true) ==
              Outcome(st.(fs := st.fs + {path}, fileSavedEvents := st.fileSavedEvents + 1), None)
  {
  }

  /** For a listed extension and a behaviour that makes thumbnails on save,
      the stored upload and every profile's thumbnail exist afterwards, and
      no other file appeared. */
  lemma AfterSaveMakesThumbnails(me: Config, behaviors: seq<Config>, env: Env, st: State, path: string)
    requires st.file.Some? && st.file.value.extension in ThumbExtensions && me.createThumbsOnSave
    requires GetUploadedFilePath(behaviors, st.owner, env, me.attribute) == Success(path) && path != ""
    requires AllResolved(ThumbTargets(behaviors, st.owner, env, me.attribute, me.thumbs))
    ensures var r := AfterSave(me, behaviors, env, st, true);
            r.error.None? &&
            r.state.fs == st.fs + {path} + Resolved(ThumbTargets(behaviors, st.owner, env, me.attribute, me.thumbs))
  {
    assert IsFile(st.fs + {path}, path);
  }

  /** The framework lower-cases an upload's extension: it never holds an
      upper-case letter, whatever the client sent. */
  lemma UploadExtensionIsLowerCase(f: UploadedFile)
    requires IsUpload(f)
    ensures forall i | 0 <= i < |f.extension| :: !IsUpper(f.extension[i])
  {
    LowerIsLowerCase(PathInfoOf(f.name).extension.GetOr(""));
  }

  /** The upload the framework builds for a file named `photo.JPG` has the
      base name `photo` and the listed extension `jpg`. */
  lemma UpperCaseName()
    ensures IsUpload(UploadedFile("photo.JPG", "photo", "jpg"))
    ensures "jpg" in ThumbExtensions
  {
    assert !Falsy("photo") && !Falsy("JPG") && '.' !in "JPG" && '/' !in "photo" && '/' !in "JPG";
    StoredNameRoundTrip("photo", "JPG");
    PhotoJpgPieces();
  }

  /** The literal facts behind `UpperCaseName`. */
  lemma PhotoJpgPieces()
    ensures StoredName("photo", "JPG") == "photo.JPG"
    ensures Lower("JPG") == "jpg"
  {
    assert !Falsy("photo") && !Falsy("JPG");
    assert Lower("JPG")[0] == 'j' && Lower("JPG")[1] == 'p' && Lower("JPG")[2] == 'g';
  }

  /** Because the extension is lower-cased, the exact comparison `afterSave`
      makes accepts a listed extension however the client spelled it: an
      upload named like `photo.JPG` gets its thumbnails on save. */
  lemma ListedExtensionInAnyCase(me: Config, behaviors: seq<Config>, env: Env, st: State, path: string)
    requires st.file.Some? && IsUpload(st.file.value)
    requires Lower(PathInfoOf(st.file.value.name).extension.GetOr("")) in ThumbExtensions && me.createThumbsOnSave
    requires GetUploadedFilePath(behaviors, st.owner, env, me.attribute) == Success(path) && path != ""
    requires AllResolved(ThumbTargets(behaviors, st.owner, env, me.attribute, me.thumbs))
    ensures var r := AfterSave(me, behaviors, env, st, true);
            r.error.None? &&
            r.state.fs == st.fs + {path} + Resolved(ThumbTargets(behaviors, st.owner, env, me.attribute, me.thumbs))
  {
    AfterSaveMakesThumbnails(me, behaviors, env, st, path);
  }

  // ---------------------------------------------------------------------
  // The update cycle
  // ---------------------------------------------------------------------

  /** Replacing an upload: `beforeSave` then a successful `afterSave` on an
      update leave the new file in place, and the previous file and its
      thumbnails are gone unless the new file or one of its thumbnails took
      their path. */
  lemma ReplaceUpload(me: Config, behaviors: seq<Config>, env: Env, st: State, previous: string)
    requires st.file.Some? && !st.owner.isNewRecord
    requires GetInstance(behaviors, me.attribute) == Success(me)
    requires ResolvePath(me.filePath, ContextOf(me, OldModel(st.owner), env)) == Success(previous)
    requires AllResolved(ThumbTargets(behaviors, OldModel(st.owner), env, me.attribute, me.thumbs))
    ensures var saving := BeforeSave(me, behaviors, env, st);
            var saved := AfterSave(me, behaviors, env, saving.state, true);
            saving.error.None? && saved.error.None? ==>
              var path := GetUploadedFilePath(behaviors, saved.state.owner, env, me.attribute).value;
              var newThumbs := Resolved(ThumbTargets(behaviors, saving.state.owner, env, me.attribute, me.thumbs));
              IsFile(saved.state.fs, path) &&
              ((previous != path && previous !in newThumbs) ==> previous !in saved.state.fs) &&
              (forall t | t in Resolved(ThumbTargets(behaviors, OldModel(st.owner), env, me.attribute, me.thumbs)) &&
                          t != path && t !in newThumbs :: t !in saved.state.fs)
  {
    var saving := BeforeSave(me, behaviors, env, st);
    UpdateRemovesPreviousFiles(me, behaviors, env, st, me, previous);
    if saving.error.None? {
      AfterSaveStoresFile(me, behaviors, env, saving.state, true);
      AfterSaveAddsOnlyItsFiles(me, behaviors, env, saving.state, true);
    }
  }

  // ---------------------------------------------------------------------
  // beforeDelete, cleanFiles, createThumbs
  // ---------------------------------------------------------------------

  /** After a delete whose paths all resolved, neither the file nor any of
      its thumbnails exists, and every other file is still there. */
  lemma DeleteRemovesFiles(me: Config, behaviors: seq<Config>, env: Env, st: State, path: string)
    requires ResolvePath(me.filePath, ContextOf(me, st.owner, env)) == Success(path)
    requires AllResolved(ThumbTargets(behaviors, st.owner, env, me.attribute, me.thumbs))
    ensures var r := BeforeDelete(me, behaviors, env, st);
            var thumbs := Resolved(ThumbTargets(behaviors, st.owner, env, me.attribute, me.thumbs));
            r.error.None? && path !in r.state.fs &&
            (forall t | t in thumbs :: t !in r.state.fs) &&
            (forall p | p in st.fs && p != path && p !in thumbs :: p in r.state.fs)
  {
  }

  /** Cleaning twice removes nothing the first clean did not, and throws
      the same exception. */
  lemma CleanFilesIdempotent(me: Config, behaviors: seq<Config>, owner: Record, env: Env, fs: set<string>)
    ensures var once := CleanFiles(me, behaviors, owner, env, fs);
            CleanFiles(me, behaviors, owner, env, once.fs) == once
  {
    match ResolvePath(me.filePath, ContextOf(me, owner, env))
    case Failure(e) =>
    case Success(primary) =>
      var targets := ThumbTargets(behaviors, owner, env, me.attribute, me.thumbs);
      var once := UnlinkAll(fs - {primary}, targets);
      assert once.fs - {primary} == once.fs;
      UnlinkAllIdempotent(fs - {primary}, targets);
  }

  /** A missing file never makes cleaning fail: whether and how it throws
      does not depend on which files exist. */
  lemma CleanFilesErrorIgnoresFiles(me: Config, behaviors: seq<Config>, owner: Record, env: Env, fs1: set<string>, fs2: set<string>)
    ensures CleanFiles(me, behaviors, owner, env, fs1).error == CleanFiles(me, behaviors, owner, env, fs2).error
  {
  }

  /** Deleting twice is deleting once. */
  lemma BeforeDeleteIdempotent(me: Config, behaviors: seq<Config>, env: Env, st: State)
    ensures var once := BeforeDelete(me, behaviors, env, st);
            BeforeDelete(me, behaviors, env, once.state) == once
  {
    CleanFilesIdempotent(me, behaviors, st.owner, env, st.fs);
  }

  /** Thumbnails are made at most once per path: a second `createThumbs`
      writes nothing and throws the same exception. */
  lemma CreateThumbsIdempotent(me: Config, behaviors: seq<Config>, owner: Record, env: Env, fs: set<string>)
    ensures var once := CreateThumbs(me, behaviors, owner, env, fs);
            CreateThumbs(me, behaviors, owner, env, once.fs) == once
  {
    match GetUploadedFilePath(behaviors, owner, env, me.attribute)
    case Failure(e) =>
    case Success(src) =>
      WriteThumbsIdempotent(fs, src, ThumbTargets(behaviors, owner, env, me.attribute, me.thumbs));
  }

  /** Without a source file `createThumbs` writes nothing. */
  lemma NoThumbnailsWithoutSource(me: Config, behaviors: seq<Config>, owner: Record, env: Env, fs: set<string>)
    requires GetUploadedFilePath(behaviors, owner, env, me.attribute).Success?
    requires !IsFile(fs, GetUploadedFilePath(behaviors, owner, env, me.attribute).value)
    ensures CreateThumbs(me, behaviors, owner, env, fs).fs == fs
  {
  }

  // ---------------------------------------------------------------------
  // Queries
  // ---------------------------------------------------------------------

  /** The path query looks the behaviour up before reading the attribute,
      the URL queries the other way round: for an empty attribute with no
      behaviour, the path query throws while the URL queries answer null or
      the fallback and touch no file. */
  lemma EmptyAttributeWithoutBehavior(behaviors: seq<Config>, owner: Record, env: Env, fs: set<string>,
                                      attribute: string, profile: string, emptyUrl: Option<string>)
    requires forall i | 0 <= i < |behaviors| :: behaviors[i].attribute != attribute
    requires attribute in owner.attrs && !Truthy(owner.attrs[attribute])
    ensures GetUploadedFilePath(behaviors, owner, env, attribute) == Failure(MissingBehavior(attribute))
    ensures GetUploadedFileUrl(behaviors, owner, env, attribute) == Success(None)
    ensures GetThumbFileUrl(behaviors, owner, env, fs, attribute, profile, emptyUrl) == UrlStep(fs, Success(emptyUrl))
  {
  }

  /** For a thumbnail template whose `[[profile]]` token follows plain text,
      each profile's thumbnail path is that text, the profile name and the
      resolved rest of the template; so two profiles never share a
      thumbnail file. */
  lemma ThumbnailPathPerProfile(behaviors: seq<Config>, owner: Record, env: Env, attribute: string, b: Config,
                                pre: string, rest: string, r: string, p1: string, p2: string)
    requires GetInstance(behaviors, attribute) == Success(b)
    requires attribute in owner.attrs
    requires GetAlias(env.aliases, b.thumbPath) == Success(pre + ("[[profile]]" + rest))
    requires '[' !in pre
    requires |rest| == 0 || rest[0] != '@'
    requires ResolvePath(rest, ContextOf(b, owner, env)) == Success(r)
    requires "profile" !in Names(r)
    ensures GetThumbFilePath(behaviors, owner, env, attribute, p1) == Success(pre + (p1 + r))
    ensures p1 != p2 ==> GetThumbFilePath(behaviors, owner, env, attribute, p1) != GetThumbFilePath(behaviors, owner, env, attribute, p2)
  {
    var ctx := ContextOf(b, owner, env);
    ProfileInTemplate(b.thumbPath, p1, ctx, pre, rest, r);
    ProfileInTemplate(b.thumbPath, p2, ctx, pre, rest, r);
    if pre + (p1 + r) == pre + (p2 + r) {
      assert p1 + r == (pre + (p1 + r))[|pre|..];
      assert p1 == (p1 + r)[..|p1 + r| - |r|];
    }
  }

  /** A thumbnail URL asked for on request makes the same thumbnails an
      eager `createThumbs` of that behaviour would make; without the option
      it touches no file. */
  lemma ThumbnailsOnRequest(behaviors: seq<Config>, owner: Record, env: Env, fs: set<string>,
                            attribute: string, profile: string, emptyUrl: Option<string>, b: Config)
    requires attribute in owner.attrs && Truthy(owner.attrs[attribute])
    requires GetInstance(behaviors, attribute) == Success(b)
    ensures var r := GetThumbFileUrl(behaviors, owner, env, fs, attribute, profile, emptyUrl);
            r.fs == if b.createThumbsOnRequest then CreateThumbs(b, behaviors, owner, env, fs).fs else fs
  {
  }

  /** With the default URL template, a true attribute is served from
      `/uploads/<pk>.<extension>`, the extension taken from the stored name
      in lower case. */
  lemma UrlAtDefaultLocation(behaviors: seq<Config>, owner: Record, env: Env, attribute: string)
    requires attribute in owner.attrs && Truthy(owner.attrs[attribute])
    requires GetInstance(behaviors, attribute).Success?
    requires GetInstance(behaviors, attribute).value.fileUrl == DefaultConfig().fileUrl
    ensures GetUploadedFileUrl(behaviors, owner, env, attribute) ==
              Success(Some("/uploads/" + (LcFirst(Join("_", owner.pk)) + "." +
                           Lower(PathInfoOf(AsString(owner.attrs[attribute])).extension.GetOr("")))))
  {
    var b := GetInstance(behaviors, attribute).value;
    DefaultFileUrl(ContextOf(b, owner, env));
  }
}
