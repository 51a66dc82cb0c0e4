/** The entities the behaviour works with: the owner record's property
    values, the upload object, the behaviour's configuration, the framework
    services the resolver calls, and the exceptions that can escape. */
module Model {
  import opened Wrappers
  import opened Strings
  import opened PathInfo

  /** `yii\web\UploadedFile` as the behaviour sees it: the client file name
      (what the object becomes when PHP turns it into a string) and the base
      name and extension the framework derives from it. The three fields
      are independent here; `IsUpload` says how the framework relates them. */
  datatype UploadedFile = UploadedFile(name: string, baseName: string, extension: string)

  /** An upload as the framework builds it from a client file name without
      `/`: the base name is the `filename` entry of `pathinfo` of the name,
      and the extension is its `extension` entry in lower case (empty when
      there is none). */
  predicate IsUpload(f: UploadedFile) {
    '/' !in f.name &&
    f.baseName == PathInfoOf(f.name).filename &&
    f.extension == Lower(PathInfoOf(f.name).extension.GetOr(""))
  }

  /** A property value of the owner record: null, a string, or the upload
      object `beforeValidate` parks in the attachment attribute. Numbers are
      represented by their string form. */
  datatype Value = Null | Str(s: string) | File(file: UploadedFile)

  /** PHP's conversion of a value to a string. */
  function AsString(v: Value): string {
    match v
    case Null => ""
    case Str(s) => s
    case File(f) => f.name
  }

  /** PHP's boolean value: null, "" and "0" are false, an object is true. */
  predicate Truthy(v: Value) {
    match v
    case Null => false
    case Str(s) => !Falsy(s)
    case File(_) => true
  }

  /** The exceptions that escape the behaviour. */
  datatype Error =
    | UnknownProperty(name: string)    // reading or writing a property the record does not have
    | InvalidAlias(alias: string)      // `Yii::getAlias` on an unregistered alias
    | MissingBehavior(attribute: string) // `getInstance` found no behaviour for the attribute
    | FileSaveError                    // `saveAs` failed in `afterSave`

  /** `$owner->{$name}`: the value of a property the record has; any other
      name throws. */
  function Lookup(attrs: map<string, Value>, name: string): (r: Result<Value, Error>)
    ensures r.Success? <==> name in attrs
    ensures r.Success? ==> r.value == attrs[name]
    ensures r.Failure? ==> r.error == UnknownProperty(name)
  {
    if name in attrs then Success(attrs[name]) else Failure(UnknownProperty(name))
  }

  /** `$owner->{$name} = $v`: a write to a property the record has; any
      other name throws. */
  function Assign(attrs: map<string, Value>, name: string, v: Value): (r: Result<map<string, Value>, Error>)
    ensures r.Success? <==> name in attrs
    ensures r.Success? ==> r.value.Keys == attrs.Keys && r.value[name] == v
    ensures r.Success? ==> forall k | k in attrs && k != name :: r.value[k] == attrs[k]
    ensures r.Failure? ==> r.error == UnknownProperty(name)
  {
    if name in attrs then Success(attrs[name := v]) else Failure(UnknownProperty(name))
  }

  /** A thumbnail profile: its key in `$thumbs` and the box it is cut to. */
  datatype Profile = Profile(name: string, width: int, height: int)

  /** The public configuration of one behaviour instance. */
  datatype Config = Config(
    attribute: string,
    attributeExtension: string,
    filePath: string,
    fileUrl: string,
    parentRelationAttribute: Option<string>,
    createThumbsOnSave: bool,
    createThumbsOnRequest: bool,
    thumbs: seq<Profile>,
    thumbPath: string,
    thumbUrl: string)

  /** The alias the default file and thumbnail paths start from. */
  const WebRoot := "@webroot"

  /** The file name of the default templates: the key, a dot, the extension. */
  const KeyDotExtension := "[[pk]].[[extension]]"

  /** The behaviour's property defaults: two distinct attributes, thumbnails
      made on save but none configured, and URL templates that are the path
      templates without their leading `@webroot` alias. */
  function DefaultConfig(): (r: Config)
    ensures r.attribute != r.attributeExtension
    ensures r.createThumbsOnSave && !r.createThumbsOnRequest && r.thumbs == []
    ensures r.filePath == WebRoot + r.fileUrl && r.thumbPath == WebRoot + r.thumbUrl
  {
    assert "upload"[0] != "extension"[0];
    Config(
      "upload", "extension",
      WebRoot + "/uploads/" + KeyDotExtension,
      "/uploads/" + KeyDotExtension,
      None, true, false, [],
      WebRoot + "/images/" + "[[profile]]" + "_" + KeyDotExtension,
      "/images/" + "[[profile]]" + "_" + KeyDotExtension)
  }

  /** The owner record: its readable properties, the values last loaded from
      or saved to the database, its primary-key values, the short name of its
      class, and whether it has been inserted yet. */
  datatype Record = Record(
    attrs: map<string, Value>,
    oldAttrs: map<string, Value>,
    pk: seq<string>,
    shortName: string,
    isNewRecord: bool)

  /** Framework services the resolver calls: the registered path aliases
      (`@app`, `@webroot`, `@web`, ...) and the `md5` digest. */
  datatype Env = Env(aliases: map<string, string>, md5: string -> string)

  /** `getInstance`: the FIRST of the owner's behaviours configured for
      `attribute`; with none, `InvalidCallException`. */
  function GetInstance(behaviors: seq<Config>, attribute: string): (r: Result<Config, Error>)
    ensures r.Success? <==> exists i | 0 <= i < |behaviors| :: behaviors[i].attribute == attribute
    ensures r.Success? ==> r.value.attribute == attribute
    ensures r.Success? ==> exists i | 0 <= i < |behaviors| ::
              behaviors[i] == r.value && forall j | 0 <= j < i :: behaviors[j].attribute != attribute
    ensures r.Failure? ==> r.error == MissingBehavior(attribute)
  {
    if |behaviors| == 0 then Failure(MissingBehavior(attribute))
    else if behaviors[0].attribute == attribute then Success(behaviors[0])
    else
      var r := GetInstance(behaviors[1..], attribute);
      if r.Success? then
        var i :| 0 <= i < |behaviors[1..]| && behaviors[1..][i] == r.value &&
                 forall j | 0 <= j < i :: behaviors[1..][j].attribute != attribute;
        assert behaviors[i + 1] == r.value;
        r
      else
        assert forall i | 1 <= i < |behaviors| :: behaviors[i] == behaviors[1..][i - 1];
        r
  }
}
