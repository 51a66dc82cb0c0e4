/** The placeholder scan both resolvers perform with
    `preg_replace_callback('|\[\[([\w\_/]+)\]\]|', ...)`: one left-to-right
    pass over the string, where each token `[[name]]` (name drawn from word
    characters and `/`) is replaced by what the callback returns for `name`,
    text outside tokens is copied, replacement text is never rescanned, and
    the first callback that throws aborts the whole pass.

    The pattern's greedy name class cannot contain `]`, so a token starts at
    a position exactly when `[[` is followed by a non-empty maximal run of
    name characters and then `]]`; otherwise the scan moves on by one
    character. */
module Template {
  import opened Wrappers
  import opened Strings

  /** A character of the class `[\w\_/]`. */
  predicate IsNameChar(c: char) {
    IsWordChar(c) || c == '/'
  }

  /** A name the token pattern can capture. */
  predicate IsName(name: string) {
    |name| > 0 && forall i | 0 <= i < |name| :: IsNameChar(name[i])
  }

  /** Length of the longest prefix of `s` made of name characters. */
  function NameRun(s: string): (n: nat)
    ensures n <= |s|
    ensures forall i | 0 <= i < n :: IsNameChar(s[i])
    ensures n < |s| ==> !IsNameChar(s[n])
  {
    if |s| == 0 || !IsNameChar(s[0]) then 0 else 1 + NameRun(s[1..])
  }

  /** The length of the name of the token that starts at the head of `s`, if one does. */
  function TokenAt(s: string): (r: Option<nat>)
    ensures r.Some? ==> 4 + r.value <= |s| && IsName(s[2..2 + r.value])
    ensures r.Some? ==> s == "[[" + s[2..2 + r.value] + "]]" + s[4 + r.value..]
  {
    if |s| >= 2 && s[0] == '[' && s[1] == '[' then
      var n := NameRun(s[2..]);
      if 1 <= n && 4 + n <= |s| && s[2 + n] == ']' && s[3 + n] == ']' then
        assert s == "[[" + s[2..2 + n] + "]]" + s[4 + n..];
        Some(n)
      else None
    else None
  }

  /** The pass itself: `cb` maps a captured name to its replacement or to
      the exception it throws. `ScanToken` and `ScanPlain` state its two
      steps, `ScanTotal` when it fails. */
  function Scan<E>(s: string, cb: string -> Result<string, E>): Result<string, E>
    decreases |s|
  {
    if |s| == 0 then Success("")
    else
      match TokenAt(s)
      case Some(n) =>
        var v :- cb(s[2..2 + n]);
        var rest :- Scan(s[4 + n..], cb);
        Success(v + rest)
      case None =>
        var rest :- Scan(s[1..], cb);
        Success([s[0]] + rest)
  }

  /** The names of the tokens the pass finds in `s`, left to right. */
  function Names(s: string): (r: seq<string>)
    ensures forall i | 0 <= i < |r| :: IsName(r[i])
    decreases |s|
  {
    if |s| == 0 then []
    else
      match TokenAt(s)
      case Some(n) => [s[2..2 + n]] + Names(s[4 + n..])
      case None => Names(s[1..])
  }

  /** A token is recognised at the head of `[[name]]...` for every capturable name. */
  lemma TokenAtName(name: string, rest: string)
    requires IsName(name)
    ensures TokenAt("[[" + name + "]]" + rest) == Some(|name|)
  {
    var s := "[[" + name + "]]" + rest;
    assert s[2..] == name + "]]" + rest;
    var t := s[2..];
    assert forall i | 0 <= i < |name| :: t[i] == name[i];
    assert t[|name|] == ']';
    assert NameRun(t) == |name|;
  }

  /** No token starts at a character other than `[`. */
  lemma NoTokenAtPlain(c: char, rest: string)
    requires c != '['
    ensures TokenAt([c] + rest) == None
  {
  }

  /** Scanning `[[name]]rest` calls back on `name` and then scans `rest`. */
  lemma ScanToken<E>(name: string, rest: string, cb: string -> Result<string, E>)
    requires IsName(name)
    ensures Scan("[[" + name + "]]" + rest, cb) ==
              (match cb(name)
               case Failure(e) => Failure(e)
               case Success(v) =>
                 match Scan(rest, cb)
                 case Failure(e) => Failure(e)
                 case Success(r) => Success(v + r))
  {
    var s := "[[" + name + "]]" + rest;
    TokenAtName(name, rest);
    assert s[2..2 + |name|] == name;
    assert s[4 + |name|..] == rest;
  }

  /** A template that is one token is replaced by the callback's answer for it. */
  lemma ScanSingle<E>(path: string, name: string, cb: string -> Result<string, E>)
    requires IsName(name) && path == "[[" + name + "]]"
    ensures Scan(path, cb) == cb(name)
  {
    ScanToken(name, "", cb);
    assert path + "" == path;
    match cb(name)
    case Failure(e) =>
    case Success(v) =>
      assert v + "" == v;
  }

  /** No token starts one character before a token, even at a `[`. */
  lemma NoTokenBeforeToken(c: char, b: string)
    ensures TokenAt([c] + ("[[" + b + "]]")).None?
  {
    if c == '[' {
      var s := [c] + ("[[" + b + "]]");
      assert s[2..][0] == '[';
    } else {
      NoTokenAtPlain(c, "[[" + b + "]]");
    }
  }

  /** A template of two tokens around one plain character is the two
      answers around that character. */
  lemma ScanTwoTokens<E>(path: string, a: string, c: char, b: string, cb: string -> Result<string, E>,
                         va: string, vb: string)
    requires IsName(a) && IsName(b)
    requires path == "[[" + a + "]]" + ([c] + ("[[" + b + "]]"))
    requires cb(a) == Success(va) && cb(b) == Success(vb)
    ensures Scan(path, cb) == Success(va + [c] + vb)
  {
    var tb := "[[" + b + "]]";
    ScanSingle(tb, b, cb);
    NoTokenBeforeToken(c, b);
    ScanPlain(c, tb, cb);
    ScanToken(a, [c] + tb, cb);
    assert va + ([c] + vb) == va + [c] + vb;
  }

  /** The names found in `[[name]]rest` are `name` and those of `rest`. */
  lemma NamesToken(name: string, rest: string)
    requires IsName(name)
    ensures Names("[[" + name + "]]" + rest) == [name] + Names(rest)
  {
    var s := "[[" + name + "]]" + rest;
    TokenAtName(name, rest);
    assert s[2..2 + |name|] == name;
    assert s[4 + |name|..] == rest;
  }

  /** A character that starts no token adds no name. */
  lemma NamesPlain(c: char, rest: string)
    requires TokenAt([c] + rest).None?
    ensures Names([c] + rest) == Names(rest)
  {
    assert ([c] + rest)[1..] == rest;
  }

  /** A character that starts no token is copied and the scan goes on. */
  lemma ScanPlain<E>(c: char, rest: string, cb: string -> Result<string, E>)
    requires TokenAt([c] + rest).None?
    ensures Scan([c] + rest, cb) ==
              (match Scan(rest, cb)
               case Failure(e) => Failure(e)
               case Success(r) => Success([c] + r))
  {
    assert ([c] + rest)[1..] == rest;
  }

  /** A `[` that is not followed by another `[` starts no token: it is
      copied and the scan goes on after it. */
  lemma LoneBracket<E>(rest: string, cb: string -> Result<string, E>)
    requires |rest| == 0 || rest[0] != '['
    ensures Names(['['] + rest) == Names(rest)
    ensures Scan(['['] + rest, cb) ==
              (match Scan(rest, cb)
               case Failure(e) => Failure(e)
               case Success(r) => Success(['['] + r))
  {
    NamesPlain('[', rest);
    ScanPlain('[', rest, cb);
  }

  /** `[[` followed by a name that is not closed by `]]` starts no token. */
  lemma UnclosedNoToken(name: string, rest: string)
    requires IsName(name) && (|rest| == 0 || !IsNameChar(rest[0]))
    requires |rest| < 2 || rest[..2] != "]]"
    ensures TokenAt("[[" + name + rest).None?
  {
    var s := "[[" + name + rest;
    assert s[2..] == name + rest;
    assert forall i | 0 <= i < |name| :: s[2..][i] == name[i];
    if |rest| > 0 {
      assert s[2..][|name|] == rest[0];
    }
    assert NameRun(s[2..]) == |name|;
    if |rest| >= 2 {
      assert s[2 + |name|..4 + |name|] == rest[..2];
    }
  }

  /** `[[` followed by a name that is not closed by `]]` starts no token:
      its first `[` is copied and the scan goes on after it. */
  lemma UnclosedToken<E>(name: string, rest: string, cb: string -> Result<string, E>)
    requires IsName(name) && (|rest| == 0 || !IsNameChar(rest[0]))
    requires |rest| < 2 || rest[..2] != "]]"
    ensures Names("[[" + name + rest) == Names("[" + name + rest)
    ensures Scan("[[" + name + rest, cb) ==
              (match Scan("[" + name + rest, cb)
               case Failure(e) => Failure(e)
               case Success(r) => Success("[" + r))
  {
    var t := "[" + name + rest;
    assert "[[" + name + rest == ['['] + t;
    UnclosedNoToken(name, rest);
    NamesPlain('[', t);
    ScanPlain('[', t, cb);
  }

  /** Text without a `[` starts no token: it is copied as it is and the
      scan goes on after it. */
  lemma {:induction false} ScanPlainPrefix<E>(pre: string, s: string, cb: string -> Result<string, E>)
    requires '[' !in pre
    ensures Scan(pre + s, cb) ==
              (match Scan(s, cb)
               case Failure(e) => Failure(e)
               case Success(r) => Success(pre + r))
    decreases |pre|
  {
    if |pre| == 0 {
      assert pre + s == s;
      if Scan(s, cb).Success? {
        assert pre + Scan(s, cb).value == Scan(s, cb).value;
      }
    } else {
      var c, tail := pre[0], pre[1..];
      Uncons(pre, s);
      NoTokenAtPlain(c, tail + s);
      ScanPlain(c, tail + s, cb);
      ScanPlainPrefix(tail, s, cb);
      if Scan(s, cb).Success? {
        Uncons(pre, Scan(s, cb).value);
      }
    }
  }

  /** A non-empty string followed by more text is its head, then its tail
      followed by that text. */
  lemma Uncons(pre: string, x: string)
    requires |pre| > 0
    ensures pre + x == [pre[0]] + (pre[1..] + x)
  {
    assert pre == [pre[0]] + pre[1..];
  }

  /** Text without a `[` holds no token. */
  lemma {:induction false} NamesWithoutBracket(s: string)
    requires '[' !in s
    ensures Names(s) == []
    decreases |s|
  {
    if |s| > 0 {
      assert s == [s[0]] + s[1..];
      NoTokenAtPlain(s[0], s[1..]);
      NamesPlain(s[0], s[1..]);
      NamesWithoutBracket(s[1..]);
    }
  }

  /** When the callback echoes every name it is given back as its token,
      the pass returns its input unchanged: this is how an unknown
      placeholder survives resolution. */
  lemma {:induction false} ScanEchoIsIdentity<E>(s: string, cb: string -> Result<string, E>)
    requires forall name | name in Names(s) :: cb(name) == Success("[[" + name + "]]")
    ensures Scan(s, cb) == Success(s)
    decreases |s|
  {
    if |s| == 0 {
    } else {
      match TokenAt(s)
      case Some(n) =>
        var name := s[2..2 + n];
        assert Names(s) == [name] + Names(s[4 + n..]);
        assert name in Names(s);
        ScanEchoIsIdentity(s[4 + n..], cb);
      case None =>
        assert Names(s) == Names(s[1..]);
        ScanEchoIsIdentity(s[1..], cb);
        assert s == [s[0]] + s[1..];
    }
  }

  /** At a token the pass succeeds when the callback and the rest of the
      pass do, and the names are the token's name and those after it. */
  lemma TokenStep<E>(s: string, n: nat, cb: string -> Result<string, E>)
    requires TokenAt(s) == Some(n)
    ensures Scan(s, cb).Success? <==> cb(s[2..2 + n]).Success? && Scan(s[4 + n..], cb).Success?
    ensures Names(s) == [s[2..2 + n]] + Names(s[4 + n..])
  {
  }

  /** Past a character that starts no token the pass succeeds when the rest
      does, and the names are those of the rest. */
  lemma PlainStep<E>(s: string, cb: string -> Result<string, E>)
    requires |s| > 0 && TokenAt(s).None?
    ensures Scan(s, cb).Success? <==> Scan(s[1..], cb).Success?
    ensures Names(s) == Names(s[1..])
  {
  }

  /** A pass whose callback succeeds on every name it finds succeeds. */
  lemma {:induction false} ScanSucceeds<E>(s: string, cb: string -> Result<string, E>)
    requires forall name | name in Names(s) :: cb(name).Success?
    ensures Scan(s, cb).Success?
    decreases |s|
  {
    if |s| > 0 {
      match TokenAt(s)
      case Some(n) =>
        TokenStep(s, n, cb);
        ScanSucceeds(s[4 + n..], cb);
      case None =>
        PlainStep(s, cb);
        ScanSucceeds(s[1..], cb);
    }
  }

  /** A pass that finds a name on which the callback throws fails. */
  lemma {:induction false} ScanThrows<E>(s: string, cb: string -> Result<string, E>, name: string)
    requires name in Names(s) && cb(name).Failure?
    ensures Scan(s, cb).Failure?
    decreases |s|
  {
    match TokenAt(s)
    case Some(n) =>
      TokenStep(s, n, cb);
      var first, rest := s[2..2 + n], s[4 + n..];
      if name != first {
        assert name in Names(rest);
        ScanThrows(rest, cb, name);
      }
    case None =>
      PlainStep(s, cb);
      ScanThrows(s[1..], cb, name);
  }

  /** The pass succeeds exactly when the callback succeeds on every name
      it finds: one throwing callback aborts the whole pass. */
  lemma ScanTotal<E>(s: string, cb: string -> Result<string, E>)
    ensures Scan(s, cb).Success? <==> forall name | name in Names(s) :: cb(name).Success?
  {
    if forall name | name in Names(s) :: cb(name).Success? {
      ScanSucceeds(s, cb);
    } else {
      var name :| name in Names(s) && cb(name).Failure?;
      ScanThrows(s, cb, name);
    }
  }
}
