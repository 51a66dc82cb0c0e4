# File upload behaviour of yii2-upload-behavior, modelled in Dafny

`FileUploadBehavior` is a Yii2 behaviour that is attached to an ActiveRecord. It keeps one uploaded file per attribute. The project models what the behaviour does:

- **Capture.** `beforeValidate` takes the upload from the request.
- **Store.** `beforeSave` stores the upload's name in the attribute. On an update it first removes the previous file and its thumbnails.
- **Move.** `afterSave` moves the upload to a path built from a template, makes the thumbnails, and triggers `afterFileSave`.
- **Delete.** `beforeDelete` removes the file and its thumbnails.
- **Queries.** `getUploadedFilePath`, `getUploadedFileUrl`, `getThumbFilePath` and `getThumbFileUrl` answer where things are.

Everything the behaviour reads or writes rests on the template resolver, `resolvePath` and `resolveProfilePath`. The resolver replaces the placeholders of templates such as `@webroot/uploads/[[pk]].[[extension]]` with values taken from the owner record.

Module layout:

- `Wrappers`: the `Option` and `Result` types.
- `Strings`: PHP's `strtolower`, `lcfirst`, string truthiness, `array_filter` and `implode`, plus `Split`, the inverse of `Join`.
- `PathInfo`: PHP's `pathinfo`, which splits the base name at its last dot, and the stored name that `beforeSave` builds.
- `Template`: the one-pass `[[name]]` scan of `preg_replace_callback`. Tokens are scanned directly over characters; no regular-expression engine is modelled.
- `IdPath`: `makeIdPath`.
- `Model`: property values, the upload, the configuration, the owner record, the exceptions, and `getInstance`.
- `Resolver`: `resolvePath`, `resolveProfilePath`, and the lemmas about placeholders.
- `Storage`: the file system as a set of existing paths, with the unlink and thumbnail-write walks over it.
- `Queries`: the four queries, `createThumbs` and `cleanFiles`.
- `Lifecycle`: the four event handlers. Each one is a transition over a state that holds:
  - the owner record;
  - the pending upload;
  - the set of existing files;
  - a count of `afterFileSave` events.
- `LifecycleProperties`: what one save or delete cycle guarantees.

**Exceptions.** Every exception that can escape is a value of `Model.Error`:

- `UnknownProperty`: reading or writing a property the record does not have.
- `InvalidAlias`: an unregistered alias.
- `MissingBehavior`: `getInstance` found no behaviour for the attribute.
- `FileSaveError`: the `FileUploadException` that `afterSave` throws.

An effectful step returns the files as they stand when it stops, so unlinks done before an exception stay done.

**PHP truthiness.** The model uses PHP's truth values: `""` and `"0"` are false. As a consequence, an upload named `0.jpg` is stored as `jpg`, and `pathinfo` then reads that as a file name with no extension (`PathInfo.ZeroBaseNameIsDropped`).

**Extension case.** `afterSave` compares the upload's extension exactly against a lower-case list. The framework lower-cases that extension when it builds the upload (`Model.IsUpload`), so an upload named `photo.JPG` has the extension `jpg` and gets its thumbnails (`LifecycleProperties.UpperCaseName`, `LifecycleProperties.ListedExtensionInAnyCase`).

**Where the model follows the code over its documentation:**

- The extension attribute is documented as mirroring the upload's extension. `beforeSave` (line 198) writes it even when no upload is pending. The upload is then null, so the value written is null. The model writes `Null` there.
- `[[model]]` is described as the lower-cased class name. The code applies `lcfirst`, which lower-cases only the first character, and so does the model.

## Model

| member | source | states |
|---|---|---|
| Strings.KeepTruthy | src/FileUploadBehavior.php:189 | `array_filter` keeps exactly the parts that are true in PHP, none that are `""` or `"0"`, and a single part survives exactly when it is true |
| Strings.KeepTruthyAppend | src/FileUploadBehavior.php:189 | filtering a concatenation filters each part in place, so the kept parts stay in their order and keep their number of copies |
| Strings.LowerIsLowerCase | src/FileUploadBehavior.php:243 | `strtolower` leaves no upper-case letter, changes no other character, keeps the length and is idempotent |
| Strings.LowerKeepsTruth | src/FileUploadBehavior.php:243 | lower-casing never makes a true extension false or the other way round |
| Strings.LcFirstJoin | src/FileUploadBehavior.php:267-268 | `lcfirst` of the imploded key values touches only the first key value |
| Strings.SplitJoin | src/FileUploadBehavior.php:267 | splitting an imploded list at the separator gives the list back when no part contains the separator |
| PathInfo.PathInfoOf | src/FileUploadBehavior.php:241-243 | `pathinfo` has no extension entry exactly when the base name has no dot; otherwise file name, dot and dot-free extension rebuild the base name |
| PathInfo.BaseName | src/FileUploadBehavior.php:241 | the base name holds no `/` and is the whole value when the value has none |
| PathInfo.BaseNameIsLastSegment | src/FileUploadBehavior.php:241 | only a run of trailing `/` is dropped from the value, and the base name is the last segment of what remains: the whole of it, or the text after its last `/` |
| PathInfo.NestedBaseName | src/FileUploadBehavior.php:241 | the base name of `a/b/` is `b` |
| PathInfo.StoredName | src/FileUploadBehavior.php:189-190 | the stored name is `baseName.extension` with both parts true, the true part alone with one false part, and empty with none |
| PathInfo.StoredNameRoundTrip | src/FileUploadBehavior.php:188-190 | `pathinfo` of a stored name gives back the upload's base name and extension (true parts, dot-free extension, no `/`) |
| PathInfo.StoredNameWithoutExtension | src/FileUploadBehavior.php:188-190 | an upload without an extension is stored, and read back by `pathinfo`, as its base name with no extension |
| PathInfo.ZeroBaseNameIsDropped | src/FileUploadBehavior.php:188-190 | an upload named `0.jpg` is stored as `jpg`, which `pathinfo` reads as a file name with no extension |
| Template.NameRun | src/FileUploadBehavior.php:245 | the name run is the longest prefix of characters from `[\w/]` |
| Template.TokenAt | src/FileUploadBehavior.php:245 | a token found at the head of the string is `[[`, a capturable name, `]]` |
| Template.Names | src/FileUploadBehavior.php:245 | every name the scan captures is drawn from `[\w/]` and non-empty |
| Template.TokenAtName | src/FileUploadBehavior.php:245 | `[[name]]` is recognised as a token for every capturable name, whatever follows |
| Template.ScanToken | src/FileUploadBehavior.php:245-283 | the pass replaces a leading token by the callback's answer and continues after it; a callback exception aborts the pass |
| Template.ScanPlain | src/FileUploadBehavior.php:245-283 | a character that starts no token is copied and the pass continues after it |
| Template.ScanPlainPrefix | src/FileUploadBehavior.php:245-283 | text without a `[` is copied unchanged in front of the scan of what follows it |
| Template.ScanSingle | src/FileUploadBehavior.php:245-283 | a template that is a single token resolves to the callback's answer for its name |
| Template.ScanTwoTokens | src/FileUploadBehavior.php:245-283 | two tokens around any one character, `[` included, resolve to the two answers around that character |
| Template.LoneBracket | src/FileUploadBehavior.php:245-283 | a `[` not followed by `[` adds no name, is copied, and the pass continues after it |
| Template.UnclosedToken | src/FileUploadBehavior.php:245-283 | `[[name` not closed by `]]` adds no name at its first `[`, which is copied before the pass continues at the second |
| Template.NamesToken | src/FileUploadBehavior.php:245 | the names of `[[name]]rest` are `name` followed by those of `rest` |
| Template.NamesPlain | src/FileUploadBehavior.php:245 | a character that starts no token adds no name |
| Template.NamesWithoutBracket | src/FileUploadBehavior.php:245 | text without a `[` holds no token |
| Template.ScanEchoIsIdentity | src/FileUploadBehavior.php:282 | a callback that echoes each name as its token leaves the whole string unchanged |
| Template.ScanTotal | src/FileUploadBehavior.php:245-283 | the pass succeeds exactly when the callback succeeds on every name it finds |
| Template.ScanSucceeds | src/FileUploadBehavior.php:245-283 | a callback that succeeds on every name found makes the pass succeed |
| Template.ScanThrows | src/FileUploadBehavior.php:245-283 | one name on which the callback throws makes the whole pass throw |
| IdPath.Pad | src/FileUploadBehavior.php:293-294 | `str_pad` right-pads with `0` to ten characters, keeps the id as a prefix, and leaves longer ids alone |
| IdPath.Segments | src/FileUploadBehavior.php:296-299 | there are exactly ten one-character segments, the padded id's first ten characters |
| IdPath.JoinOfSingles | src/FileUploadBehavior.php:301 | imploding one-character parts with `/` puts the parts at the even positions and `/` at the odd ones |
| IdPath.MakeIdPath | src/FileUploadBehavior.php:290-302 | the id path has 19 characters, the padded id's first ten at the even positions and `/` between them |
| IdPath.IdPathSegments | src/FileUploadBehavior.php:290-302 | splitting the id path at `/` gives back exactly the ten one-character segments |
| IdPath.IdPathTruncates | src/FileUploadBehavior.php:292-299 | only the first ten characters of a long id reach the path |
| IdPath.IdPathOf42 | src/FileUploadBehavior.php:290-302 | the id `42` becomes `4/2/0/0/0/0/0/0/0/0` |
| Model.Lookup | src/FileUploadBehavior.php:241 | reading a property succeeds exactly for the record's properties and otherwise throws for that name |
| Model.Assign | src/FileUploadBehavior.php:96 | writing a property succeeds exactly for the record's properties, changes only that one, and otherwise throws for that name |
| Model.GetInstance | src/FileUploadBehavior.php:208-217 | the answer is the first behaviour configured for the attribute; if there is none, a missing-behaviour exception |
| Model.DefaultConfig | src/FileUploadBehavior.php:34-62 | the defaults use two distinct attributes, make thumbnails on save but configure none, and their URL templates are the path templates without the leading `@webroot` alias |
| Resolver.GetAlias | src/FileUploadBehavior.php:239 | a path without a leading `@` is kept; a bare alias is its registered path, or an invalid-alias exception; an unregistered root before a `/` throws the invalid-alias exception for that root |
| Resolver.AliasRoot | src/FileUploadBehavior.php:239 | a registered alias root followed by `/...` is replaced by its path and the rest is kept |
| Resolver.ResolveAfterPlain | src/FileUploadBehavior.php:237-284 | plain text in front of the expanded template is kept and the rest resolves on its own |
| Resolver.Suffix | src/FileUploadBehavior.php:274-281 | a match of `^prefix(\w+)$` captures the non-empty rest of the name after the prefix |
| Resolver.SuffixIsWordRun | src/FileUploadBehavior.php:274-281 | the capture is made of word characters, and a name that is the prefix followed by some rest matches exactly when that rest is a non-empty run of word characters |
| Resolver.SlashedAttributeNoMatch | src/FileUploadBehavior.php:274-277 | `attribute_a/b` does not match `^attribute_(\w+)$` |
| Resolver.SlashedAttributeIsUnknown | src/FileUploadBehavior.php:274-283 | `attribute_a/b` is not a placeholder the resolver knows, so its token is echoed |
| Resolver.Placeholder | src/FileUploadBehavior.php:245-283 | a name outside the `switch` and both prefix rules is echoed as the literal token |
| Resolver.ResolvePath | src/FileUploadBehavior.php:237-284 | the alias is expanded before the attribute is read, so an unknown alias is reported first; an unknown attribute throws; a template without tokens resolves to its alias expansion |
| Resolver.ResolveProfilePath | src/FileUploadBehavior.php:158-169 | the second pass never throws: the profile path fails exactly when `resolvePath` does, with the same exception |
| Resolver.ResolveToken | src/FileUploadBehavior.php:237-284 | a one-token template resolves to the callback's answer, built from `pathinfo` of the stored value |
| Resolver.UnknownPlaceholdersEchoed | src/FileUploadBehavior.php:237-284 | a template whose tokens are all unknown resolves to itself, or throws only for a missing attachment property |
| Resolver.BogusIsEchoed | src/FileUploadBehavior.php:282 | `[[bogus]]/x` resolves to itself |
| Resolver.ProfileSurvivesResolvePath | src/FileUploadBehavior.php:158-169 | `[[profile]]` survives `resolvePath` and becomes the profile name in `resolveProfilePath` |
| Resolver.ProfileInTemplate | src/FileUploadBehavior.php:158-169 | after plain text, `[[profile]]` survives the first pass and the second pass puts the profile name in its place, the rest resolved once |
| Resolver.ProfilePassWithoutProfile | src/FileUploadBehavior.php:158-169 | without a `[[profile]]` token after the first pass, the profile path equals the plain path |
| Resolver.ResolveFilename | src/FileUploadBehavior.php:241-251 | `[[filename]]` is the `filename` entry of `pathinfo` of the stored value |
| Resolver.ResolveExtension | src/FileUploadBehavior.php:241-249 | `[[extension]]` is the lower-cased `extension` entry, or empty when there is none |
| Resolver.ResolveBasename | src/FileUploadBehavior.php:241-253 | `[[basename]]` is the true ones of file name and lower-cased extension, joined by a dot |
| Resolver.ResolvePk | src/FileUploadBehavior.php:266-268 | `[[pk]]` is the key values joined by `_`, then `lcfirst`-ed |
| Resolver.ResolveId | src/FileUploadBehavior.php:265-268 | `[[id]]` is the key values joined by `_`, then `lcfirst`-ed |
| Resolver.PkPlaceholder | src/FileUploadBehavior.php:265-268 | `[[pk]]` equals `[[id]]`, and splitting it at `_` gives back the key values with only the first one `lcfirst`-ed |
| Resolver.ExtensionIsLowerCase | src/FileUploadBehavior.php:243-249 | `[[extension]]` never holds an upper-case letter, and is empty when the stored base name has no dot |
| Resolver.StoredNameResolves | src/FileUploadBehavior.php:188-190 | after storing an upload's name, `[[filename]]` gives back its base name, `[[extension]]` its lower-cased extension, and `[[basename]]` both joined by a dot |
| Resolver.BasenameWithoutExtension | src/FileUploadBehavior.php:252-253 | `[[basename]]` omits the dot when the stored value has no extension |
| Resolver.AttributeName | src/FileUploadBehavior.php:274-276 | `attribute_X` is captured, is not built in, and selects property X |
| Resolver.Md5AttributeName | src/FileUploadBehavior.php:274-280 | `md5_attribute_X` escapes the `attribute_` rule and selects property X for the digest |
| Resolver.AttributePlaceholder | src/FileUploadBehavior.php:274-277 | `[[attribute_X]]` is property X as a string, or an exception when there is no such property |
| Resolver.Md5AttributePlaceholder | src/FileUploadBehavior.php:278-281 | `[[md5_attribute_X]]` is the digest of property X, or an exception when there is no such property |
| Resolver.ParentIdPlaceholder | src/FileUploadBehavior.php:271-272 | `[[parent_id]]` is the parent-reference property, and throws when that is not configured or not a property |
| Resolver.IdPathPlaceholder | src/FileUploadBehavior.php:269-270 | `[[id_path]]` is the id path of the concatenated key values, 19 characters long |
| Resolver.PkDotExtension | src/FileUploadBehavior.php:38-41 | `[[pk]].[[extension]]` resolves to the `lcfirst`-ed key, a dot, and the lower-cased stored extension |
| Resolver.DefaultFilePath | src/FileUploadBehavior.php:38 | with the default file template, the upload lives at `<webroot>/uploads/<pk>.<extension>` |
| Resolver.DefaultThumbPath | src/FileUploadBehavior.php:60 | with the default thumbnail template, a profile's thumbnail lives at `<webroot>/images/<profile>_<pk>.<extension>` |
| Resolver.DefaultFileUrl | src/FileUploadBehavior.php:41 | with the default URL template, the upload is served from `/uploads/<pk>.<extension>` |
| Storage.FirstError | src/FileUploadBehavior.php:226-227 | a walk stops with no exception exactly when every path resolved, and otherwise with the exception of the first path that did not |
| Storage.Walked | src/FileUploadBehavior.php:224-228 | the part of a walk done before it stops is a prefix of resolved paths followed by the first unresolved one or the end |
| Storage.UnlinkAll | src/FileUploadBehavior.php:225-228 | unlinking removes exactly the resolved paths before the first exception and reports that exception |
| Storage.WriteThumbs | src/FileUploadBehavior.php:140-148 | thumbnail writes keep existing files, add nothing without a source file, and otherwise add exactly the resolved paths before the first exception |
| Storage.UnlinkAllIdempotent | src/FileUploadBehavior.php:225-228 | a second unlink walk over the same paths changes nothing |
| Storage.WriteThumbsIdempotent | src/FileUploadBehavior.php:140-148 | a second thumbnail walk over the same paths writes nothing new |
| Queries.ContextOf | src/FileUploadBehavior.php:241-281 | the resolver reads the owner's current values, key and class name and the behaviour's attribute and parent attribute, and none of its templates |
| Queries.GetUploadedFilePath | src/FileUploadBehavior.php:341-350 | the behaviour is looked up first; an empty attribute then gives `""`; otherwise the resolved file path |
| Queries.GetUploadedFileUrl | src/FileUploadBehavior.php:366-375 | an undeclared attribute throws and an empty one gives null before any behaviour lookup; for a true attribute a missing behaviour throws, and otherwise the answer is the first behaviour's resolved file URL, or the exception resolving it throws |
| Queries.GetThumbFilePath | src/FileUploadBehavior.php:105-109 | an attribute without a behaviour throws; otherwise the thumbnail template of the first behaviour for that attribute, not the caller's, is resolved for the profile |
| Queries.ThumbTargets | src/FileUploadBehavior.php:226-227 | one path per profile, in the order of `$thumbs`, each resolved through `getThumbFilePath` with the template of the first behaviour for the attribute |
| Queries.CreateThumbs | src/FileUploadBehavior.php:137-149 | with the uploaded file present, exactly the resolved profile paths before the first exception are added; without it, nothing |
| Queries.CleanFiles | src/FileUploadBehavior.php:222-229 | the resolved file path and exactly the resolved thumbnail paths before the first exception are removed; a missing file is no error |
| Queries.GetThumbFileUrl | src/FileUploadBehavior.php:118-131 | an empty attribute gives the fallback; for a true attribute a missing behaviour throws; a behaviour that makes thumbnails on request runs `createThumbs` first (its file effect is the query's, and its exception aborts the query), one that does not leaves the files alone; then the answer is the resolved thumbnail URL for the profile, or the exception resolving it throws |
| Lifecycle.OldModel | src/FileUploadBehavior.php:182-183 | the stored row is an existing record under the same key whose values are the stored ones, with nothing unsaved |
| Lifecycle.SetAttribute | src/FileUploadBehavior.php:188-198 | a property write changes only that property, and throws for a property the record does not have |
| Lifecycle.StoreValues | src/FileUploadBehavior.php:188-198 | the attachment write (when there is one) and then the extension write both succeed exactly when both properties exist |
| Lifecycle.BeforeValidate | src/FileUploadBehavior.php:82-98 | an upload already in the attribute is kept; otherwise the form-name upload, or else the bare-name one, becomes pending and is put into the attribute |
| Lifecycle.CleanOldFiles | src/FileUploadBehavior.php:180-185 | a new record has nothing removed; otherwise only files are removed |
| Lifecycle.BeforeSave | src/FileUploadBehavior.php:176-199 | never adds a file, and touches none without a pending upload |
| Lifecycle.AfterSave | src/FileUploadBehavior.php:309-333 | never removes a file or changes the record, and counts one event exactly when a pending upload was stored |
| Lifecycle.BeforeDelete | src/FileUploadBehavior.php:355-358 | only removes files and leaves the record alone |
| LifecycleProperties.BeforeValidateIdempotent | src/FileUploadBehavior.php:82-98 | validating again with the same request changes nothing |
| LifecycleProperties.ValidatedUploadIsAttached | src/FileUploadBehavior.php:82-98 | an upload is pending exactly when the attribute holds one, and it is that very upload |
| LifecycleProperties.UpdateRemovesPreviousFiles | src/FileUploadBehavior.php:180-185 | an update with an upload removes exactly the stored row's file and thumbnails |
| LifecycleProperties.StoredUploadResolves | src/FileUploadBehavior.php:188-198 | after `beforeSave`, the filename, extension and basename placeholders give back the upload's parts, and the extension attribute holds its extension |
| LifecycleProperties.UpdateWithoutUpload | src/FileUploadBehavior.php:191-198 | without an upload, an update keeps a true value, restores an empty one from the stored row (or null), and nulls the extension attribute |
| LifecycleProperties.NewRecordWithoutUpload | src/FileUploadBehavior.php:191-198 | a new record without an upload keeps its attribute |
| LifecycleProperties.AfterSaveWithoutUpload | src/FileUploadBehavior.php:311-313 | without a pending upload `afterSave` does nothing |
| LifecycleProperties.AfterSaveFailure | src/FileUploadBehavior.php:320-322 | a failed move throws and changes neither the files nor the event count |
| LifecycleProperties.AfterSaveStoresFile | src/FileUploadBehavior.php:317-332 | after a successful save, the uploaded-file path query names an existing file, and one more event was triggered |
| LifecycleProperties.StoredAtDefaultLocation | src/FileUploadBehavior.php:317-322 | with the default file template, a saved upload exists at `<webroot>/uploads/<pk>.<extension>` |
| LifecycleProperties.AfterSaveAddsOnlyItsFiles | src/FileUploadBehavior.php:317-330 | `afterSave` creates only the stored upload and its own thumbnails |
| LifecycleProperties.AfterSaveWithoutThumbnails | src/FileUploadBehavior.php:324-330 | with an unlisted extension or thumbnails off on save, the stored upload is the only new file |
| LifecycleProperties.UploadExtensionIsLowerCase | src/FileUploadBehavior.php:324 | the extension of an upload as the framework builds it holds no upper-case letter |
| LifecycleProperties.UpperCaseName | src/FileUploadBehavior.php:324 | the upload built for `photo.JPG` has the base name `photo` and the listed extension `jpg` |
| LifecycleProperties.ListedExtensionInAnyCase | src/FileUploadBehavior.php:324-330 | an upload whose name ends in a listed extension in any letter case gets its thumbnails on save |
| LifecycleProperties.AfterSaveMakesThumbnails | src/FileUploadBehavior.php:324-330 | with a listed extension and thumbnails on save, the stored upload and every profile's thumbnail exist, and nothing else is new |
| LifecycleProperties.ReplaceUpload | src/FileUploadBehavior.php:176-199 | replacing an upload leaves the new file in place, and the previous file and its thumbnails gone unless the new file or one of its thumbnails reuses their path |
| LifecycleProperties.DeleteRemovesFiles | src/FileUploadBehavior.php:355-358 | after a delete, neither the file nor a thumbnail exists, and every other file is still there |
| LifecycleProperties.CleanFilesIdempotent | src/FileUploadBehavior.php:222-229 | cleaning twice is cleaning once |
| LifecycleProperties.CleanFilesErrorIgnoresFiles | src/FileUploadBehavior.php:222-229 | whether cleaning throws never depends on which files exist |
| LifecycleProperties.BeforeDeleteIdempotent | src/FileUploadBehavior.php:355-358 | deleting twice is deleting once |
| LifecycleProperties.CreateThumbsIdempotent | src/FileUploadBehavior.php:137-149 | a second `createThumbs` writes nothing and throws the same exception |
| LifecycleProperties.NoThumbnailsWithoutSource | src/FileUploadBehavior.php:142 | without the source file no thumbnail is written |
| LifecycleProperties.ThumbnailPathPerProfile | src/FileUploadBehavior.php:105-109 | for a template with `[[profile]]` after plain text, a thumbnail path is that text, the profile name and the resolved rest, so two profiles never share a file |
| LifecycleProperties.EmptyAttributeWithoutBehavior | src/FileUploadBehavior.php:118-122 | for an empty attribute with no behaviour, the path query throws while the URL queries give null or the fallback |
| LifecycleProperties.ThumbnailsOnRequest | src/FileUploadBehavior.php:124-128 | a thumbnail URL query makes exactly the thumbnails `createThumbs` would, and only when thumbnails are on request |
| LifecycleProperties.UrlAtDefaultLocation | src/FileUploadBehavior.php:366-375 | with the default URL template, a true attribute is served from `/uploads/<pk>.<extension>` |

## Left out

- **Image decoding, resizing and saving** (Imagine `thumbnail` and `save`). A written thumbnail is modelled as its path becoming an existing file.
- **Failure of a thumbnail write.** It is not modelled.
- **`FileHelper::createDirectory`.** Directories are not modelled, because the file system is a flat set of paths.
- **`saveAs`.** It is a boolean parameter of `afterSave`. Its one modelled rule is that it never succeeds for the empty path.
- **The request lookups** `UploadedFile::getInstance` and `getInstanceByName`. They are the two optional uploads passed to `BeforeValidate`.
- **`md5`.** It is an uninterpreted function, part of `Model.Env`.
- **The short class name that reflection yields.** It is a field of the record.
- **`Yii::getAlias`.**
  - It is modelled as a flat table from alias roots to paths. A path is resolved against the root up to its first `/`.
  - Nested aliases are not modelled.
  - Longest-prefix matching of sub-aliases is not modelled.
  - The `throwException = false` mode is not modelled.
- **`findOne` returning no row.** Not modelled. The previous row is the record's stored attributes under the same key (`Lifecycle.OldModel`).
- **Triggering `afterFileSave`.** It is a counter in the state; event handlers are not modelled.
- **Line 198.** The extension read on a null upload is a PHP notice. An application's error handler may turn that notice into an exception; the model instead writes null.
- **PHP loose comparison.** `in_array` is loose. On the string extensions that `afterSave` compares, it behaves like exact comparison, which is how the model compares them.
- **Non-string property values.** Numbers and other values are represented by their string form.
- **The PHP class hierarchy.** Every behaviour in the owner's list is taken to be a `FileUploadBehavior`.
- **The behaviour's `events()` table.** The order in which Yii calls the event handlers is not modelled; each handler is a separate transition.
- **`Template.Scan`.** It scans the same tokens as the pattern `\[\[([\w\_/]+)\]\]` for ASCII input. Multibyte characters and PCRE's backtracking in general are not modelled.
- **The `app_root`, `web_root`, `base_url`, `model` and `attribute` placeholders.** They are defined in `Resolver.Placeholder`, but no lemma states their values beyond what `Resolver.GetAlias` states about aliases.
- Storage.UnlinkAll: `@unlink` of an existing path always succeeds in the model. A failure it suppresses (permissions, a directory at the path) is not modelled, so such a file would be reported as gone.
- Model.UploadedFile: the name, base name and extension are independent fields. `Model.IsUpload` states how the framework derives the other two from the name; only the extension-case lemmas assume it, and every other lemma holds for any field values.
- **Default arguments.** `getThumbFilePath` and `getThumbFileUrl` default `$profile` to `'thumb'` (lines 105 and 118), and `getThumbFileUrl` defaults `$emptyUrl` to null (line 118). The model always takes these as explicit parameters.
- Storage.WriteOne: a thumbnail path that resolves to "" is added to the file set like any other. Imagine's `save` would fail on it, and failing thumbnail writes are not modelled; since `is_file('')` is false, the entry is never read as a file.
- Strings.Lower: lower-cases ASCII letters only. PHP's `strtolower` before PHP 8.2 follows the current locale, which can also change bytes above 127.
