/** ASCII string helpers with the semantics PHP gives them: `strtolower`,
    `lcfirst`, the boolean value of a string, `array_filter` without a
    callback, and `implode`. `Split` is the inverse of `Join`, used to state
    what a joined string still carries. */
module Strings {

  predicate IsUpper(c: char) {
    'A' <= c <= 'Z'
  }

  /** PCRE's `\w` without the `u` modifier: ASCII letters, digits and `_`. */
  predicate IsWordChar(c: char) {
    ('a' <= c <= 'z') || ('A' <= c <= 'Z') || ('0' <= c <= '9') || c == '_'
  }

  /** One character of the ASCII lower-casing `strtolower` and `lcfirst` do. */
  function LowerChar(c: char): char {
    if IsUpper(c) then (c as int + 32) as char else c
  }

  /** `strtolower`. */
  function Lower(s: string): string {
    seq(|s|, i requires 0 <= i < |s| => LowerChar(s[i]))
  }

  /** `lcfirst`: only the first character is lower-cased. */
  function LcFirst(s: string): string {
    if |s| == 0 then s else [LowerChar(s[0])] + s[1..]
  }

  /** A string is false in PHP exactly when it is empty or "0". */
  predicate Falsy(s: string) {
    s == "" || s == "0"
  }

  /** `array_filter` without a callback: drops every false element, keeps
      the order. A single element survives exactly when it is true;
      `KeepTruthyAppend` extends this to any list. */
  function KeepTruthy(parts: seq<string>): (r: seq<string>)
    ensures |r| <= |parts|
    ensures forall p | p in r :: p in parts && !Falsy(p)
    ensures forall p | p in parts && !Falsy(p) :: p in r
    ensures |parts| == 1 ==> r == (if Falsy(parts[0]) then [] else parts)
  {
    if |parts| == 0 then []
    else (if Falsy(parts[0]) then [] else [parts[0]]) + KeepTruthy(parts[1..])
  }

  /** Filtering a concatenation filters each part in place: together with
      the one-element case this fixes the order and the number of copies of
      every element kept. */
  lemma {:induction false} KeepTruthyAppend(a: seq<string>, b: seq<string>)
    ensures KeepTruthy(a + b) == KeepTruthy(a) + KeepTruthy(b)
    decreases |a|
  {
    if |a| == 0 {
      assert a + b == b;
    } else {
      var head := if Falsy(a[0]) then [] else [a[0]];
      calc {
        KeepTruthy(a + b);
      == { assert (a + b)[0] == a[0]; assert (a + b)[1..] == a[1..] + b; }
        head + KeepTruthy(a[1..] + b);
      == { KeepTruthyAppend(a[1..], b); }
        head + (KeepTruthy(a[1..]) + KeepTruthy(b));
      ==
        KeepTruthy(a) + KeepTruthy(b);
      }
    }
  }

  /** `implode`. */
  function Join(sep: string, parts: seq<string>): string {
    if |parts| == 0 then ""
    else if |parts| == 1 then parts[0]
    else parts[0] + sep + Join(sep, parts[1..])
  }

  /** Position of the first occurrence of `c` in `s`. */
  function IndexOf(s: string, c: char): (k: nat)
    requires c in s
    ensures k < |s| && s[k] == c && c !in s[..k]
  {
    if s[0] == c then 0 else 1 + IndexOf(s[1..], c)
  }

  /** The pieces of `s` between occurrences of `sep` (PHP `explode`). */
  function Split(sep: char, s: string): (r: seq<string>)
    ensures |r| > 0
    decreases |s|
  {
    if sep !in s then [s]
    else
      var k := IndexOf(s, sep);
      [s[..k]] + Split(sep, s[k + 1..])
  }

  /** `strtolower` leaves no upper-case letter behind, changes nothing else
      and is idempotent. */
  lemma LowerIsLowerCase(s: string)
    ensures |Lower(s)| == |s|
    ensures forall i | 0 <= i < |s| :: !IsUpper(Lower(s)[i])
    ensures forall i | 0 <= i < |s| && !IsUpper(s[i]) :: Lower(s)[i] == s[i]
    ensures Lower(Lower(s)) == Lower(s)
  {
  }

  /** Lower-casing never produces "0" or "" from a string that is neither. */
  lemma LowerKeepsTruth(s: string)
    ensures Falsy(Lower(s)) <==> Falsy(s)
  {
    if Lower(s) == "0" {
      assert |s| == 1 && Lower(s)[0] == LowerChar(s[0]);
      assert s == [s[0]];
    }
  }

  /** `lcfirst` lower-cases the first character and keeps the rest. */
  lemma LcFirstShape(s: string)
    ensures |LcFirst(s)| == |s|
    ensures |s| > 0 ==> LcFirst(s)[0] == LowerChar(s[0]) && LcFirst(s)[1..] == s[1..]
  {
  }

  /** `lcfirst` of a concatenation with a non-empty head touches the head only. */
  lemma LcFirstAppend(a: string, b: string)
    requires |a| > 0
    ensures LcFirst(a + b) == LcFirst(a) + b
  {
    assert (a + b)[1..] == a[1..] + b;
  }

  /** Only the first part of an imploded list is affected by `lcfirst`. */
  lemma LcFirstJoin(sep: string, parts: seq<string>)
    requires |parts| > 0 && |parts[0]| > 0
    ensures LcFirst(Join(sep, parts)) == Join(sep, [LcFirst(parts[0])] + parts[1..])
  {
    var q := [LcFirst(parts[0])] + parts[1..];
    assert q[1..] == parts[1..];
    if |parts| > 1 {
      var tail := sep + Join(sep, parts[1..]);
      assert Join(sep, parts) == parts[0] + tail;
      assert Join(sep, q) == LcFirst(parts[0]) + tail;
      LcFirstAppend(parts[0], tail);
    }
  }

  /** `Split` undoes `Join` when no part contains the separator. */
  lemma {:induction false} SplitJoin(sep: char, parts: seq<string>)
    requires |parts| > 0
    requires forall i | 0 <= i < |parts| :: sep !in parts[i]
    ensures Split(sep, Join([sep], parts)) == parts
  {
    if |parts| == 1 {
    } else {
      var p := parts[0];
      var rest := Join([sep], parts[1..]);
      var s := Join([sep], parts);
      assert s == p + [sep] + rest;
      assert s[|p|] == sep;
      var k := IndexOf(s, sep);
      assert k == |p|;
      assert s[..k] == p;
      assert s[k + 1..] == rest;
      SplitJoin(sep, parts[1..]);
    }
  }
}
