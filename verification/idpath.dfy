/** `makeIdPath`: the primary key spread over a ten-level directory tree.
    The id is right-padded with '0' to ten characters (`str_pad`, which
    leaves longer ids as they are), then each of the first ten characters
    becomes one path segment, and the segments are joined with `/`. */
module IdPath {
  import opened Strings

  /** `$length` in `makeIdPath`: the number of directory levels. */
  const Levels := 10

  /** `str_pad($id, 10, '0', STR_PAD_RIGHT)`. */
  function Pad(id: string): (r: string)
    ensures |r| == if |id| >= Levels then |id| else Levels
    ensures r[..|id|] == id
    ensures forall i | |id| <= i < |r| :: r[i] == '0'
  {
    if |id| >= Levels then id else id + seq(Levels - |id|, _ => '0')
  }

  /** `substr($id, $i, 1)` for `$i` from 0 to 9, on the padded id. */
  function Segments(id: string): (r: seq<string>)
    ensures |r| == Levels
    ensures forall i | 0 <= i < Levels :: r[i] == [Pad(id)[i]]
  {
    var padded := Pad(id);
    seq(Levels, i requires 0 <= i < Levels => [padded[i]])
  }

  /** The shape of `implode('/', ...)` over one-character parts: the parts'
      characters sit at the even positions and `/` at the odd ones. */
  lemma {:induction false} JoinOfSingles(parts: seq<string>)
    requires |parts| > 0
    requires forall i | 0 <= i < |parts| :: |parts[i]| == 1
    ensures |Join("/", parts)| == 2 * |parts| - 1
    ensures forall i | 0 <= i < 2 * |parts| - 1 ::
              Join("/", parts)[i] == if i % 2 == 0 then parts[i / 2][0] else '/'
  {
    if |parts| > 1 {
      var rest := parts[1..];
      JoinOfSingles(rest);
      var j := Join("/", parts);
      var jr := Join("/", rest);
      assert j == parts[0] + "/" + jr;
      forall i | 0 <= i < 2 * |parts| - 1
        ensures j[i] == if i % 2 == 0 then parts[i / 2][0] else '/'
      {
        if i >= 2 {
          assert j[i] == jr[i - 2];
          assert rest[(i - 2) / 2] == parts[i / 2];
        }
      }
    }
  }

  /** `makeIdPath($id)`: nineteen characters, the padded id's first ten
      characters at the even positions and `/` between them, whatever the
      length of `id`. */
  function MakeIdPath(id: string): (r: string)
    ensures |r| == 2 * Levels - 1
    ensures forall i | 0 <= i < |r| :: r[i] == if i % 2 == 0 then Pad(id)[i / 2] else '/'
  {
    var parts := Segments(id);
    JoinOfSingles(parts);
    Join("/", parts)
  }

  /** The path splits back into exactly ten one-character segments, the
      padded id's first ten characters, when none of them is `/`. */
  lemma IdPathSegments(id: string)
    requires forall i | 0 <= i < Levels :: Pad(id)[i] != '/'
    ensures Split('/', MakeIdPath(id)) == Segments(id)
    ensures forall s | s in Split('/', MakeIdPath(id)) :: |s| == 1
  {
    SplitJoin('/', Segments(id));
  }

  /** Only the first ten characters of a long id reach the path. */
  lemma IdPathTruncates(id: string)
    requires |id| >= Levels
    ensures MakeIdPath(id) == MakeIdPath(id[..Levels])
  {
    var a := MakeIdPath(id);
    var b := MakeIdPath(id[..Levels]);
    forall i | 0 <= i < |a| ensures a[i] == b[i] {
      if i % 2 == 0 {
        assert Pad(id[..Levels])[i / 2] == id[..Levels][i / 2];
      }
    }
  }

  /** The documented example: the id 42 becomes `4/2/0/0/0/0/0/0/0/0`, the
      digits 4 and 2 in the first two levels and 0 in the other eight. */
  lemma IdPathOf42()
    ensures |MakeIdPath("42")| == 19
    ensures forall i | 0 <= i < 19 ::
              MakeIdPath("42")[i] == if i == 0 then '4' else if i == 2 then '2' else if i % 2 == 0 then '0' else '/'
  {
    var padded := Pad("42");
    assert padded[..2] == "42";
    assert padded[0] == '4' && padded[1] == '2';
  }
}
