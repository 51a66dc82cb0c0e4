/** The hooks of one behaviour instance `me` over one save or delete of
    its owner: `beforeValidate` captures the upload, `beforeSave` removes the
    files of the previous upload and stores the new name, `afterSave` moves
    the upload into place and makes thumbnails, `beforeDelete` removes the
    files. The other behaviours of the owner appear only as configurations,
    for the `getInstance` lookups the hooks make. */
module Lifecycle {
  import opened Wrappers
  import opened Strings
  import opened PathInfo
  import opened Model
  import opened Resolver
  import opened Storage
  import opened Queries

  /** The owner record, the upload `me` holds (`$this->file`), the files
      that exist, and how many `afterFileSave` events have been triggered. */
  datatype State = State(owner: Record, file: Option<UploadedFile>, fs: set<string>, fileSavedEvents: nat)

  /** The state a hook leaves and the exception it threw, if any. */
  datatype Outcome = Outcome(state: State, error: Option<Error>)

  /** The extensions `afterSave` makes thumbnails for, compared exactly. */
  const ThumbExtensions: set<string> := {"jpg", "png", "gif", "jpeg"}

  /** `findOne($owner->primaryKey)`: the owner's row as last stored, loaded
      afresh: an existing record under the same key whose current values are
      the stored ones, so it has nothing unsaved. */
  function OldModel(owner: Record): (r: Record)
    ensures r.attrs == owner.oldAttrs && r.oldAttrs == r.attrs
    ensures r.pk == owner.pk && r.shortName == owner.shortName && !r.isNewRecord
  {
    Record(owner.oldAttrs, owner.oldAttrs, owner.pk, owner.shortName, false)
  }

  /** A property write on the owner. */
  function SetAttribute(st: State, name: string, v: Value): (r: Result<State, Error>)
    ensures r.Success? <==> name in st.owner.attrs
    ensures r.Success? ==> r.value == st.(owner := st.owner.(attrs := st.owner.attrs[name := v]))
    ensures r.Failure? ==> r.error == UnknownProperty(name)
  {
    var attrs :- Assign(st.owner.attrs, name, v);
    Success(st.(owner := st.owner.(attrs := attrs)))
  }

  /** The two writes that end `beforeSave`: the attachment attribute (when
      `value` is given), then the extension attribute. A write that throws
      leaves the earlier one done. */
  function StoreValues(me: Config, st: State, value: Option<Value>, extension: Value): (r: Outcome)
    ensures r.state.fs == st.fs && r.state.file == st.file && r.state.fileSavedEvents == st.fileSavedEvents
    ensures r.error.None? <==>
              (value.Some? ==> me.attribute in st.owner.attrs) && me.attributeExtension in st.owner.attrs
    ensures r.error.None? ==>
              r.state.owner == st.owner.(attrs :=
                (if value.Some? then st.owner.attrs[me.attribute := value.value] else st.owner.attrs)
                  [me.attributeExtension := extension])
  {
    var first := if value.Some? then SetAttribute(st, me.attribute, value.value) else Success(st);
    match first
    case Failure(e) => Outcome(st, Some(e))
    case Success(st1) =>
      match SetAttribute(st1, me.attributeExtension, extension)
      case Failure(e) => Outcome(st1, Some(e))
      case Success(st2) => Outcome(st2, None)
  }

  /** `beforeValidate()`: an upload already in the attribute is taken as is;
      otherwise the upload found under the model's form name (`byModel`),
      or else under the bare attribute name (`byName`), becomes the pending
      upload and is put into the attribute. Reading the attribute throws
      when the owner has no such property. */
  function BeforeValidate(me: Config, st: State, byModel: Option<UploadedFile>, byName: Option<UploadedFile>): (r: Outcome)
    ensures r.state.fs == st.fs && r.state.fileSavedEvents == st.fileSavedEvents
    ensures r.state.owner.isNewRecord == st.owner.isNewRecord && r.state.owner.oldAttrs == st.owner.oldAttrs
    ensures me.attribute !in st.owner.attrs ==> r == Outcome(st, Some(UnknownProperty(me.attribute)))
    ensures me.attribute in st.owner.attrs ==> r.error.None?
    ensures me.attribute in st.owner.attrs && st.owner.attrs[me.attribute].File? ==>
              r.state == st.(file := Some(st.owner.attrs[me.attribute].file))
    ensures me.attribute in st.owner.attrs && !st.owner.attrs[me.attribute].File? ==>
              r.state.file == (if byModel.Some? then byModel else byName) &&
              r.state.owner.attrs ==
                (if r.state.file.Some? then st.owner.attrs[me.attribute := File(r.state.file.value)]
                 else st.owner.attrs)
  {
    match Lookup(st.owner.attrs, me.attribute)
    case Failure(e) => Outcome(st, Some(e))
    case Success(v) =>
      if v.File? then Outcome(st.(file := Some(v.file)), None)
      else
        var found := if byModel.Some? then byModel else byName;
        match found
        case None => Outcome(st.(file := None), None)
        case Some(f) =>
          var attrs := st.owner.attrs[me.attribute := File(f)];
          Outcome(st.(file := found, owner := st.owner.(attrs := attrs)), None)
  }

  /** The removal `beforeSave` performs before storing a new upload of an
      existing record: the first behaviour for the attribute cleans the
      files of the row as last stored. */
  function CleanOldFiles(me: Config, behaviors: seq<Config>, env: Env, st: State): (r: FsStep)
    ensures r.fs <= st.fs
    ensures st.owner.isNewRecord ==> r == FsStep(st.fs, None)
  {
    if st.owner.isNewRecord then FsStep(st.fs, None)
    else
      match GetInstance(behaviors, me.attribute)
      case Failure(e) => FsStep(st.fs, Some(e))
      case Success(b) => CleanFiles(b, behaviors, OldModel(st.owner), env, st.fs)
  }

  /** `beforeSave()`. With a pending upload, the previous files of an
      existing record are removed and the attribute becomes the upload's
      base name and extension joined by a dot (false parts dropped). Without
      one, an existing record whose attribute is empty gets its stored value
      back. Either way the extension attribute is then written from the
      pending upload, which is null when there is none. */
  function BeforeSave(me: Config, behaviors: seq<Config>, env: Env, st: State): (r: Outcome)
    ensures r.state.file == st.file && r.state.fileSavedEvents == st.fileSavedEvents
    ensures r.state.fs <= st.fs
    ensures st.file.None? ==> r.state.fs == st.fs
  {
    match st.file
    case Some(f) =>
      var clean := CleanOldFiles(me, behaviors, env, st);
      var st1 := st.(fs := clean.fs);
      if clean.error.Some? then Outcome(st1, clean.error)
      else StoreValues(me, st1, Some(Str(StoredName(f.baseName, f.extension))), Str(f.extension))
    case None =>
      var current := if me.attribute in st.owner.attrs then st.owner.attrs[me.attribute] else Null;
      if !st.owner.isNewRecord && !Truthy(current) then
        var restored := if me.attribute in st.owner.oldAttrs then st.owner.oldAttrs[me.attribute] else Null;
        StoreValues(me, st, Some(restored), Null)
      else StoreValues(me, st, None, Null)
  }

  /** `afterSave()`. Without a pending upload nothing happens. Otherwise the
      upload is moved to the resolved file path (`saved` says whether the
      move succeeds; it never succeeds for the empty path), thumbnails are
      made when the upload's extension is one of `ThumbExtensions` and `me`
      makes them on save, and the `afterFileSave` event is triggered. */
  function AfterSave(me: Config, behaviors: seq<Config>, env: Env, st: State, saved: bool): (r: Outcome)
    ensures r.state.owner == st.owner && r.state.file == st.file
    ensures st.fs <= r.state.fs
    ensures r.state.fileSavedEvents == if r.error.None? && st.file.Some? then st.fileSavedEvents + 1 else st.fileSavedEvents
  {
    match st.file
    case None => Outcome(st, None)
    case Some(f) =>
      match GetUploadedFilePath(behaviors, st.owner, env, me.attribute)
      case Failure(e) => Outcome(st, Some(e))
      case Success(path) =>
        if !saved || path == "" then Outcome(st, Some(FileSaveError))
        else
          var stored := st.fs + {path};
          var thumbs := if f.extension in ThumbExtensions && me.createThumbsOnSave
                        then CreateThumbs(me, behaviors, st.owner, env, stored)
                        else FsStep(stored, None);
          if thumbs.error.Some? then Outcome(st.(fs := thumbs.fs), thumbs.error)
          else Outcome(st.(fs := thumbs.fs, fileSavedEvents := st.fileSavedEvents + 1), None)
  }

  /** `beforeDelete()`: `me` cleans its files. */
  function BeforeDelete(me: Config, behaviors: seq<Config>, env: Env, st: State): (r: Outcome)
    ensures r.state.owner == st.owner && r.state.file == st.file && r.state.fileSavedEvents == st.fileSavedEvents
    ensures r.state.fs <= st.fs
  {
    var c := CleanFiles(me, behaviors, st.owner, env, st.fs);
    Outcome(st.(fs := c.fs), c.error)
  }
}
