/**
 * The regular-expression matcher of user/grep.c.
 *
 * C strings are sequences of the characters before the terminating NUL, and a
 * text pointer that moves forward is a suffix of the text.  The meaning of a
 * pattern is given separately from the matcher: a pattern is translated to an
 * ordinary regular expression, whose language is defined in the usual way by
 * concatenation and Kleene star.
 */
module Grep {

  // ---- Regular expressions and their languages ----

  datatype Regex =
    | Epsilon
    | Any
    | Exactly(c: char)
    | Then(first: Regex, second: Regex)
    | Star(inner: Regex)

  ghost predicate InLanguage(r: Regex, s: string)
    decreases r, |s|
  {
    match r
    case Epsilon => s == []
    case Any => |s| == 1
    case Exactly(c) => s == [c]
    case Then(a, b) => exists k :: 0 <= k <= |s| && InLanguage(a, s[..k]) && InLanguage(b, s[k..])
    case Star(a) =>
      s == [] || exists k :: 0 < k <= |s| && InLanguage(a, s[..k]) && InLanguage(Star(a), s[k..])
  }

  // ---- What a pattern denotes ----

  function Atom(c: char): Regex {
    if c == '.' then Any else Exactly(c)
  }

  /** The regular expression of a pattern without anchors: `x*` repeats, `.` is any character. */
  function ToRegex(p: string): Regex {
    if p == [] then Epsilon
    else if |p| > 1 && p[1] == '*' then Then(Star(Atom(p[0])), ToRegex(p[2..]))
    else Then(Atom(p[0]), ToRegex(p[1..]))
  }

  predicate StartAnchored(re: string) { re != [] && re[0] == '^' }

  predicate EndAnchored(re: string) { re != [] && re[|re| - 1] == '$' }

  function DropEndAnchor(re: string): string {
    if EndAnchored(re) then re[..|re| - 1] else re
  }

  /** `text[..j]` is a match of `re` (no `^`) that starts at the beginning of `text`. */
  ghost predicate PrefixMatch(re: string, text: string, j: int) {
    && 0 <= j <= |text|
    && (EndAnchored(re) ==> j == |text|)
    && InLanguage(ToRegex(DropEndAnchor(re)), text[..j])
  }

  /** Some prefix of `text` matches `re`. */
  ghost predicate Here(re: string, text: string) {
    exists j :: PrefixMatch(re, text, j)
  }

  /** Some substring of `text`, anchored as `^` and `$` require, is in the pattern's language. */
  ghost predicate Somewhere(re: string, text: string) {
    exists i, j :: SubstringMatch(re, text, i, j)
  }

  ghost predicate SubstringMatch(re: string, text: string, i: int, j: int) {
    && 0 <= i <= j <= |text|
    && (StartAnchored(re) ==> i == 0)
    && var body := if StartAnchored(re) then re[1..] else re;
      && (EndAnchored(body) ==> j == |text|)
      && InLanguage(ToRegex(DropEndAnchor(body)), text[i..j])
  }

  predicate Accepts(c: char, x: char) { c == '.' || c == x }

  // ---- Facts about the language of `c*` and of a single atom ----

  lemma {:induction false} StarOfAtom(c: char, s: string)
    ensures InLanguage(Star(Atom(c)), s) <==> forall i :: 0 <= i < |s| ==> Accepts(c, s[i])
    decreases |s|
  {
    if s != [] {
      StarOfAtom(c, s[1..]);
      if InLanguage(Star(Atom(c)), s) {
        var k :| 0 < k <= |s| && InLanguage(Atom(c), s[..k]) && InLanguage(Star(Atom(c)), s[k..]);
        assert k == 1;
        assert s[..1] == [s[0]];
        forall i | 0 <= i < |s| ensures Accepts(c, s[i]) {
          if i > 0 { assert s[i] == s[1..][i - 1]; }
        }
      }
      if forall i :: 0 <= i < |s| ==> Accepts(c, s[i]) {
        assert s[..1] == [s[0]];
        assert forall i :: 0 <= i < |s[1..]| ==> s[1..][i] == s[i + 1];
        assert InLanguage(Atom(c), s[..1]) && InLanguage(Star(Atom(c)), s[1..]);
      }
    }
  }

  lemma ThenAtom(c: char, r: Regex, s: string)
    ensures InLanguage(Then(Atom(c), r), s) <==> s != [] && Accepts(c, s[0]) && InLanguage(r, s[1..])
  {
    if InLanguage(Then(Atom(c), r), s) {
      var k :| 0 <= k <= |s| && InLanguage(Atom(c), s[..k]) && InLanguage(r, s[k..]);
      assert k == 1;
    }
    if s != [] && Accepts(c, s[0]) && InLanguage(r, s[1..]) {
      assert s[..1] == [s[0]];
      assert InLanguage(Atom(c), s[..1]);
    }
  }

  // ---- How a pattern is consumed ----

  lemma AnchorAfterDrop(re: string, n: int)
    requires 0 < n <= |re| && (n == |re| ==> re[n - 1] != '$')
    ensures EndAnchored(re) <==> EndAnchored(re[n..])
    ensures DropEndAnchor(re) == re[..n] + DropEndAnchor(re[n..])
  {
    assert re == re[..n] + re[n..];
    if n < |re| {
      assert re[n..][|re| - n - 1] == re[|re| - 1];
    }
  }

  /** A leading ordinary atom consumes one accepted character. */
  lemma HereAtom(re: string, text: string)
    requires re != [] && !(|re| > 1 && re[1] == '*') && re != "$"
    ensures Here(re, text) <==> text != [] && Accepts(re[0], text[0]) && Here(re[1..], text[1..])
  {
    AnchorAfterDrop(re, 1);
    var rest := ToRegex(DropEndAnchor(re[1..]));
    var core := DropEndAnchor(re);
    assert core[1..] == DropEndAnchor(re[1..]);
    assert ToRegex(core) == Then(Atom(re[0]), rest);
    forall j | PrefixMatch(re, text, j)
      ensures text != [] && Accepts(re[0], text[0]) && PrefixMatch(re[1..], text[1..], j - 1)
    {
      ThenAtom(re[0], rest, text[..j]);
      assert text[..j][1..] == text[1..][..j - 1];
    }
    if text != [] && Accepts(re[0], text[0]) && Here(re[1..], text[1..]) {
      var j :| PrefixMatch(re[1..], text[1..], j);
      ThenAtom(re[0], rest, text[..j + 1]);
      assert text[..j + 1][1..] == text[1..][..j];
      assert PrefixMatch(re, text, j + 1);
    }
  }

  /** `c` accepts each of the first `n` characters of `text`. */
  predicate Run(c: char, text: string, n: int) {
    0 <= n <= |text| && forall i :: 0 <= i < n ==> Accepts(c, text[i])
  }

  lemma Slice(text: string, n: nat, j: nat)
    requires n + j <= |text|
    ensures text[..n + j][n..] == text[n..n + j] && text[n..][..j] == text[n..n + j]
  {
  }

  /** A leading `c*` consumes some run of characters that `c` accepts. */
  lemma HereStar(c: char, rest: string, text: string)
    ensures Here([c, '*'] + rest, text) <==> exists n :: Run(c, text, n) && Here(rest, text[n..])
  {
    var re := [c, '*'] + rest;
    assert re[2..] == rest;
    AnchorAfterDrop(re, 2);
    var r := ToRegex(DropEndAnchor(rest));
    assert DropEndAnchor(re)[2..] == DropEndAnchor(rest);
    assert ToRegex(DropEndAnchor(re)) == Then(Star(Atom(c)), r);
    if Here(re, text) {
      var j :| PrefixMatch(re, text, j);
      var s := text[..j];
      var n :| 0 <= n <= |s| && InLanguage(Star(Atom(c)), s[..n]) && InLanguage(r, s[n..]);
      StarOfAtom(c, s[..n]);
      assert forall i :: 0 <= i < n ==> text[i] == s[..n][i];
      Slice(text, n, j - n);
      assert PrefixMatch(rest, text[n..], j - n);
      assert Run(c, text, n) && Here(rest, text[n..]);
    }
    if exists n :: Run(c, text, n) && Here(rest, text[n..]) {
      var n :| Run(c, text, n) && Here(rest, text[n..]);
      var j :| PrefixMatch(rest, text[n..], j);
      var s := text[..n + j];
      StarOfAtom(c, s[..n]);
      Slice(text, n, j);
      assert InLanguage(Star(Atom(c)), s[..n]) && InLanguage(r, s[n..]);
      assert PrefixMatch(re, text, n + j);
    }
  }

  lemma HereEmpty(text: string)
    ensures Here([], text)
  {
    assert PrefixMatch([], text, 0);
  }

  lemma HereEnd(text: string)
    ensures Here("$", text) <==> text == []
  {
    assert DropEndAnchor("$") == [];
    if text == [] { assert PrefixMatch("$", text, 0); }
  }

  /** Searching every suffix for a match at its beginning finds exactly the matching substrings. */
  lemma SomewhereIsHere(re: string, text: string)
    ensures StartAnchored(re) ==> (Somewhere(re, text) <==> Here(re[1..], text))
    ensures !StartAnchored(re) ==>
              (Somewhere(re, text) <==> exists i :: 0 <= i <= |text| && Here(re, text[i..]))
  {
    var body := if StartAnchored(re) then re[1..] else re;
    forall i, j | SubstringMatch(re, text, i, j) ensures PrefixMatch(body, text[i..], j - i) {
      assert text[i..][..j - i] == text[i..j];
    }
    forall i, j | 0 <= i <= |text| && PrefixMatch(body, text[i..], j) && (StartAnchored(re) ==> i == 0)
      ensures SubstringMatch(re, text, i, i + j)
    {
      assert text[i..][..j] == text[i..i + j];
    }
    assert text[0..] == text;
    if Somewhere(re, text) {
      var i, j :| SubstringMatch(re, text, i, j);
      assert PrefixMatch(body, text[i..], j - i);
    }
    if StartAnchored(re) && Here(re[1..], text) {
      var j :| PrefixMatch(re[1..], text, j);
      assert PrefixMatch(body, text[0..], j);
      assert SubstringMatch(re, text, 0, 0 + j);
    }
    if !StartAnchored(re) && exists i :: 0 <= i <= |text| && Here(re, text[i..]) {
      var i :| 0 <= i <= |text| && Here(re, text[i..]);
      var j :| PrefixMatch(re, text[i..], j);
      assert SubstringMatch(re, text, i, i + j);
    }
  }

  // ---- The matcher ----

  /** `match`: a match exists anywhere in the text, or at its start under `^`. */
  method Match(re: string, text: string) returns (found: bool)
    ensures found <==> Somewhere(re, text)
  {
    SomewhereIsHere(re, text);
    if re != [] && re[0] == '^' {
      found := MatchHere(re[1..], text);
      return;
    }
    var t := 0;
    while true
      invariant 0 <= t <= |text|
      invariant forall i :: 0 <= i < t ==> !Here(re, text[i..])
      decreases |text| - t
    {
      found := MatchHere(re, text[t..]);
      if found {
        return;
      }
      if t == |text| {
        break;
      }
      t := t + 1;
    }
    found := false;
  }

  /** `matchhere`: search for `re` at the beginning of `text`. */
  method MatchHere(re: string, text: string) returns (found: bool)
    ensures found <==> Here(re, text)
    decreases |re|, 0
  {
    if re == [] {
      HereEmpty(text);
      return true;
    }
    if |re| > 1 && re[1] == '*' {
      assert re == [re[0], '*'] + re[2..];
      HereStar(re[0], re[2..], text);
      found := MatchStar(re[0], re[2..], text);
      return;
    }
    if re[0] == '$' && |re| == 1 {
      assert re == "$";
      HereEnd(text);
      return text == [];
    }
    HereAtom(re, text);
    if text != [] && (re[0] == '.' || re[0] == text[0]) {
      found := MatchHere(re[1..], text[1..]);
      return;
    }
    return false;
  }

  /** `matchstar`: search for `c*re` at the beginning of `text`. */
  method MatchStar(c: char, re: string, text: string) returns (found: bool)
    ensures found <==> exists n :: Run(c, text, n) && Here(re, text[n..])
    decreases |re|, 1
  {
    var t := 0;
    while true
      invariant Run(c, text, t)
      invariant forall n :: 0 <= n < t ==> !Here(re, text[n..])
      decreases |text| - t
    {
      found := MatchHere(re, text[t..]);
      if found {
        return;
      }
      if t == |text| || !(text[t] == c || c == '.') {
        break;
      }
      t := t + 1;
    }
    found := false;
  }
}
