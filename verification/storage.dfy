/** The file system as the behaviour touches it: a set of existing paths.
    `@unlink` removes a path and never fails for a missing one; a thumbnail
    is written only when its source exists and the thumbnail does not yet.
    A sequence of paths is walked in order, and a path that could not be
    resolved (the resolver threw) stops the walk: what was done before it
    stays done. */
module Storage {
  import opened Wrappers
  import opened Model

  /** `is_file($p)`: the empty path is never a file. */
  predicate IsFile(fs: set<string>, p: string) {
    p != "" && p in fs
  }

  /** The file set reached by an effectful step, and the exception that
      stopped it, if any. */
  datatype FsStep = FsStep(fs: set<string>, error: Option<Error>)

  /** Every path of the walk resolved. */
  predicate AllResolved(targets: seq<Result<string, Error>>) {
    forall i | 0 <= i < |targets| :: targets[i].Success?
  }

  /** The paths of the walk that resolved. */
  function Resolved(targets: seq<Result<string, Error>>): set<string> {
    set i | 0 <= i < |targets| && targets[i].Success? :: targets[i].value
  }

  /** The part of a walk done before it stops: the paths up to, and not
      including, the first one that did not resolve. */
  function Walked(targets: seq<Result<string, Error>>): (d: seq<Result<string, Error>>)
    ensures |d| <= |targets| && d == targets[..|d|]
    ensures AllResolved(d)
    ensures |d| < |targets| ==> targets[|d|].Failure?
    decreases |targets|
  {
    if |targets| == 0 || targets[0].Failure? then []
    else
      var d := [targets[0]] + Walked(targets[1..]);
      assert d[1..] == Walked(targets[1..]);
      AllResolvedCons(d);
      d
  }

  /** The exception of the first path that did not resolve: the one just
      after the part of the walk that is done. */
  function FirstError(targets: seq<Result<string, Error>>): (r: Option<Error>)
    ensures r.None? <==> AllResolved(targets)
    ensures r.None? <==> Walked(targets) == targets
    ensures r.Some? ==> |Walked(targets)| < |targets| && targets[|Walked(targets)|] == Failure(r.value)
    decreases |targets|
  {
    if |targets| == 0 then None
    else if targets[0].Failure? then Some(targets[0].error)
    else
      AllResolvedCons(targets);
      WalkedCons(targets);
      FirstError(targets[1..])
  }

  /** A walk whose head resolved does its head, then what its tail does. */
  lemma WalkedCons(targets: seq<Result<string, Error>>)
    requires |targets| > 0 && targets[0].Success?
    ensures Walked(targets) == [targets[0]] + Walked(targets[1..])
    ensures Resolved(Walked(targets)) == {targets[0].value} + Resolved(Walked(targets[1..]))
  {
    var d := Walked(targets);
    assert d[1..] == Walked(targets[1..]);
    ResolvedCons(d);
  }

  /** Every path of a walk resolved exactly when its head and every path of its tail did. */
  lemma AllResolvedCons(targets: seq<Result<string, Error>>)
    requires |targets| > 0
    ensures AllResolved(targets) <==> targets[0].Success? && AllResolved(targets[1..])
  {
    if targets[0].Success? && AllResolved(targets[1..]) {
      forall i | 0 <= i < |targets| ensures targets[i].Success? {
        if i > 0 { assert targets[i] == targets[1..][i - 1]; }
      }
    }
  }

  /** Resolved paths of a walk are those of its head and of its tail. */
  lemma ResolvedCons(targets: seq<Result<string, Error>>)
    requires |targets| > 0
    ensures Resolved(targets) ==
              (if targets[0].Success? then {targets[0].value} else {}) + Resolved(targets[1..])
  {
    var tail := targets[1..];
    forall p | p in Resolved(targets)
      ensures p in (if targets[0].Success? then {targets[0].value} else {}) + Resolved(tail)
    {
      var i :| 0 <= i < |targets| && targets[i].Success? && targets[i].value == p;
      if i > 0 { assert targets[i] == tail[i - 1]; }
    }
    forall p | p in Resolved(tail) ensures p in Resolved(targets) {
      var i :| 0 <= i < |tail| && tail[i].Success? && tail[i].value == p;
      assert targets[i + 1] == tail[i];
    }
  }

  /** `@unlink` of each path in turn. Exactly the resolved paths before the
      first exception disappear, and that exception is reported; a missing
      file is never an error. */
  function UnlinkAll(fs: set<string>, targets: seq<Result<string, Error>>): (r: FsStep)
    ensures r.fs <= fs
    ensures forall p | p in fs && p !in r.fs :: p in Resolved(targets)
    ensures r.error == FirstError(targets)
    ensures AllResolved(targets) ==> r.fs == fs - Resolved(targets)
    ensures r.fs == fs - Resolved(Walked(targets))
    decreases |targets|
  {
    if |targets| == 0 then FsStep(fs, None)
    else
      match targets[0]
      case Failure(e) => FsStep(fs, Some(e))
      case Success(p) =>
        var r := UnlinkAll(fs - {p}, targets[1..]);
        ResolvedCons(targets);
        AllResolvedCons(targets);
        WalkedCons(targets);
        r
  }

  /** One thumbnail write: the target appears when the source is a file and
      the target is not yet one. */
  function WriteOne(fs: set<string>, src: string, target: string): set<string> {
    if IsFile(fs, src) && !IsFile(fs, target) then fs + {target} else fs
  }

  /** The loop of `createThumbs` over resolved thumbnail paths. Existing
      files are kept, only resolved paths appear, nothing appears without a
      source file, and with a source file exactly the resolved paths before
      the first exception are added. */
  function WriteThumbs(fs: set<string>, src: string, targets: seq<Result<string, Error>>): (r: FsStep)
    ensures fs <= r.fs
    ensures forall p | p in r.fs && p !in fs :: p in Resolved(targets)
    ensures !IsFile(fs, src) ==> r.fs == fs
    ensures r.error == FirstError(targets)
    ensures AllResolved(targets) && IsFile(fs, src) ==> r.fs == fs + Resolved(targets)
    ensures IsFile(fs, src) ==> r.fs == fs + Resolved(Walked(targets))
    decreases |targets|
  {
    if |targets| == 0 then FsStep(fs, None)
    else
      match targets[0]
      case Failure(e) => FsStep(fs, Some(e))
      case Success(t) =>
        var r := WriteThumbs(WriteOne(fs, src, t), src, targets[1..]);
        ResolvedCons(targets);
        AllResolvedCons(targets);
        WalkedCons(targets);
        r
  }

  /** A second unlink walk over the same paths changes nothing. */
  lemma {:induction false} UnlinkAllIdempotent(fs: set<string>, targets: seq<Result<string, Error>>)
    ensures UnlinkAll(UnlinkAll(fs, targets).fs, targets) == UnlinkAll(fs, targets)
    decreases |targets|
  {
    if |targets| > 0 && targets[0].Success? {
      var p := targets[0].value;
      var g := UnlinkAll(fs - {p}, targets[1..]).fs;
      assert g - {p} == g;
      UnlinkAllIdempotent(fs - {p}, targets[1..]);
    }
  }

  /** A second thumbnail walk over the same paths writes nothing new. */
  lemma {:induction false} WriteThumbsIdempotent(fs: set<string>, src: string, targets: seq<Result<string, Error>>)
    ensures WriteThumbs(WriteThumbs(fs, src, targets).fs, src, targets) == WriteThumbs(fs, src, targets)
    decreases |targets|
  {
    if |targets| > 0 && targets[0].Success? {
      var t := targets[0].value;
      var f1 := WriteOne(fs, src, t);
      var g := WriteThumbs(f1, src, targets[1..]).fs;
      if IsFile(fs, src) {
        assert t in f1;
        assert WriteOne(g, src, t) == g;
      } else {
        assert f1 == fs && g == fs;
      }
      WriteThumbsIdempotent(f1, src, targets[1..]);
    }
  }
}
