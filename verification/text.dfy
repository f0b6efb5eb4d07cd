/**
 * String helpers shared by the whole model: Python's character classes, ASCII
 * case mapping, `str.strip`, `str.split(",")` and `sep.join(items)`.
 *
 * Strings are `seq<char>`. Only ASCII letters are case-mapped; `\w` and `\d`
 * are their ASCII parts; whitespace is the set Python's `str.isspace` (and
 * the regex class `\s`) accepts.
 */
module Text {

  /** Python's whitespace: `str.isspace()` and the regex class `\s`. */
  predicate IsSpace(c: char) {
    || c == ' '
    || ('\t' <= c <= '\r')
    || ('\U{1C}' <= c <= '\U{1F}')
    || c == '\U{85}' || c == '\U{A0}' || c == '\U{1680}'
    || ('\U{2000}' <= c <= '\U{200A}')
    || c == '\U{2028}' || c == '\U{2029}' || c == '\U{202F}' || c == '\U{205F}' || c == '\U{3000}'
  }

  /** The regex class `[ \t]`. */
  predicate IsBlank(c: char) {
    c == ' ' || c == '\t'
  }

  predicate IsDigit(c: char) {
    '0' <= c <= '9'
  }

  predicate IsLetter(c: char) {
    ('a' <= c <= 'z') || ('A' <= c <= 'Z')
  }

  /** The regex class `\w`. */
  predicate IsWordChar(c: char) {
    IsLetter(c) || IsDigit(c) || c == '_'
  }

  predicate IsHexDigit(c: char) {
    IsDigit(c) || ('a' <= c <= 'f') || ('A' <= c <= 'F')
  }

  predicate AllDigits(s: string) {
    forall k :: 0 <= k < |s| ==> IsDigit(s[k])
  }

  function LowerChar(c: char): char {
    if 'A' <= c <= 'Z' then (c as int + 32) as char else c
  }

  function UpperChar(c: char): char {
    if 'a' <= c <= 'z' then (c as int - 32) as char else c
  }

  /** Python's `s.upper()` on the ASCII letters. */
  function Upper(s: string): (r: string)
    ensures |r| == |s|
    ensures forall k :: 0 <= k < |s| ==> r[k] == UpperChar(s[k])
  {
    seq(|s|, k requires 0 <= k < |s| => UpperChar(s[k]))
  }

  function Lower(s: string): (r: string)
    ensures |r| == |s|
    ensures forall k :: 0 <= k < |s| ==> r[k] == LowerChar(s[k])
  {
    seq(|s|, k requires 0 <= k < |s| => LowerChar(s[k]))
  }

  /** Equality under the regex flag IGNORECASE (ASCII letters). */
  predicate EqualsCI(a: string, b: string) {
    Lower(a) == Lower(b)
  }

  /** Strings equal up to case have the same upper-case form. */
  lemma {:induction false} EqualsCIUpper(a: string, b: string)
    requires EqualsCI(a, b)
    ensures Upper(a) == Upper(b)
  {
    forall k | 0 <= k < |a|
      ensures UpperChar(a[k]) == UpperChar(b[k])
    {
      assert Lower(a)[k] == Lower(b)[k];
    }
  }

  /** `text[i..]` starts with `w`, ignoring ASCII case. */
  predicate MatchesCIAt(text: string, i: nat, w: string) {
    i + |w| <= |text| && EqualsCI(text[i..i + |w|], w)
  }

  predicate StartsWith(s: string, prefix: string) {
    |prefix| <= |s| && s[..|prefix|] == prefix
  }

  // ---------------------------------------------------------------------------
  // str.strip

  /** The characters a `strip` call removes: `strip()` or `strip(' @')`. */
  datatype StripSet = Whitespace | SpaceOrAt

  predicate InStripSet(c: char, cs: StripSet) {
    match cs
    case Whitespace => IsSpace(c)
    case SpaceOrAt => c == ' ' || c == '@'
  }

  predicate AllIn(s: string, cs: StripSet) {
    forall k :: 0 <= k < |s| ==> InStripSet(s[k], cs)
  }

  /** Neither end of `s` is a character `strip` would remove. */
  predicate IsStripped(s: string, cs: StripSet) {
    s == [] || (!InStripSet(s[0], cs) && !InStripSet(s[|s| - 1], cs))
  }

  /** Number of leading characters of `s` in `cs`. */
  function LeadCount(s: string, cs: StripSet): (n: nat)
    ensures n <= |s|
    ensures AllIn(s[..(n)], cs)
    ensures n < |s| ==> !InStripSet(s[n], cs)
  {
    if |s| > 0 && InStripSet(s[0], cs) then
      var n := 1 + LeadCount(s[1..], cs);
      assert forall k :: 1 <= k < n ==> s[k] == s[1..][k - 1];
      n
    else 0
  }

  /** Number of trailing characters of `s` in `cs`. */
  function TrailCount(s: string, cs: StripSet): (n: nat)
    ensures n <= |s|
    ensures AllIn(s[|s| - n..], cs)
    ensures n < |s| ==> !InStripSet(s[|s| - 1 - n], cs)
  {
    if |s| > 0 && InStripSet(s[|s| - 1], cs) then
      var n := 1 + TrailCount(s[..|s| - 1], cs);
      assert forall k :: |s| - n <= k < |s| - 1 ==> s[k] == s[..|s| - 1][k];
      n
    else 0
  }

  /**
   * Python's `s.strip()` / `s.strip(' @')`: `s` with every leading and
   * trailing character of `cs` removed, and nothing else.
   */
  function Strip(s: string, cs: StripSet): (r: string)
    ensures IsStripped(r, cs)
    ensures exists i :: 0 <= i <= |s| - |r| && s[i..i + |r|] == r && AllIn(s[..i], cs) && AllIn(s[i + |r|..], cs)
  {
    var i := LeadCount(s, cs);
    if i == |s| then
      assert s[0..0] == [] && s[..0] == [] && AllIn(s[0..], cs);
      []
    else
      var t := TrailCount(s, cs);
      var j := |s| - t;
      assert i < j;
      var r := s[i..j];
      assert r[0] == s[i] && r[|r| - 1] == s[|s| - 1 - t];
      assert s[i..i + |r|] == r && s[i + |r|..] == s[j..];
      r
  }

  lemma {:induction false} LeadCountAppend(p: string, t: string, cs: StripSet)
    requires AllIn(p, cs)
    ensures LeadCount(p + t, cs) == |p| + LeadCount(t, cs)
    decreases |p|
  {
    if |p| > 0 {
      assert (p + t)[1..] == p[1..] + t;
      LeadCountAppend(p[1..], t, cs);
    } else {
      assert p + t == t;
    }
  }

  lemma {:induction false} TrailCountAppend(t: string, q: string, cs: StripSet)
    requires AllIn(q, cs)
    ensures TrailCount(t + q, cs) == TrailCount(t, cs) + |q|
    decreases |q|
  {
    if |q| > 0 {
      assert (t + q)[..|t + q| - 1] == t + q[..|q| - 1];
      TrailCountAppend(t, q[..|q| - 1], cs);
    } else {
      assert t + q == t;
    }
  }

  /** `strip` removes exactly the padding around a non-empty stripped core. */
  lemma {:induction false} StripPadded(p: string, n: string, q: string, cs: StripSet)
    requires AllIn(p, cs) && AllIn(q, cs)
    requires n != [] && IsStripped(n, cs)
    ensures Strip(p + n + q, cs) == n
  {
    var s := p + n + q;
    LeadOfPadded(p, n, q, cs);
    TrailOfPadded(p, n, q, cs);
    StripByCounts(s, cs, |p|, |p| + |n|);
    assert s[|p|..|p| + |n|] == n;
  }

  lemma {:induction false} LeadOfPadded(p: string, n: string, q: string, cs: StripSet)
    requires AllIn(p, cs) && n != [] && IsStripped(n, cs)
    ensures LeadCount(p + n + q, cs) == |p|
  {
    assert p + n + q == p + (n + q);
    LeadCountAppend(p, n + q, cs);
    assert (n + q)[0] == n[0];
  }

  lemma {:induction false} TrailOfPadded(p: string, n: string, q: string, cs: StripSet)
    requires AllIn(q, cs) && n != [] && IsStripped(n, cs)
    ensures TrailCount(p + n + q, cs) == |q|
  {
    TrailCountAppend(p + n, q, cs);
    assert (p + n)[|p + n| - 1] == n[|n| - 1];
  }

  /** With the leading and trailing counts known, `strip` keeps what lies between. */
  lemma {:induction false} StripByCounts(s: string, cs: StripSet, i: nat, j: nat)
    requires i < j <= |s| && LeadCount(s, cs) == i && TrailCount(s, cs) == |s| - j
    ensures Strip(s, cs) == s[i..j]
  {
  }

  lemma {:induction false} StripOfStripped(s: string, cs: StripSet)
    requires IsStripped(s, cs)
    ensures Strip(s, cs) == s
  {
    if s != [] {
      assert LeadCount(s, cs) == 0;
      assert TrailCount(s, cs) == 0;
    }
  }

  /** A string made only of stripped characters strips to nothing. */
  lemma {:induction false} StripAll(s: string, cs: StripSet)
    requires AllIn(s, cs)
    ensures Strip(s, cs) == []
  {
    LeadCountAppend(s, "", cs);
    assert s + "" == s;
  }

  /** One leading blank in front of a stripped item is removed again by `strip()`. */
  lemma {:induction false} StripSpacePrefixed(s: string)
    requires IsStripped(s, Whitespace)
    ensures Strip(" " + s, Whitespace) == s
  {
    var t := " " + s;
    assert t[1..] == s;
    if s == [] {
      assert LeadCount(t, Whitespace) == 1;
    } else {
      assert LeadCount(t[1..], Whitespace) == 0;
      assert LeadCount(t, Whitespace) == 1;
      assert t[..|t| - 1][..|t| - 1] == t[..|t| - 1];
      assert TrailCount(t, Whitespace) == 0;
      assert t[1..|t|] == s;
    }
  }

  // ---------------------------------------------------------------------------
  // sep.join(items) and s.split(sep)

  /** Python's `sep.join(items)`. */
  function Join(sep: string, items: seq<string>): string
    decreases |items|
  {
    if |items| == 0 then ""
    else if |items| == 1 then items[0]
    else items[0] + sep + Join(sep, items[1..])
  }

  /** Text put in front of a join lands in front of its first item. */
  lemma {:induction false} JoinPrefixFirst(p: string, sep: string, items: seq<string>)
    requires |items| >= 1
    ensures p + Join(sep, items) == Join(sep, [p + items[0]] + items[1..])
  {
    var t := [p + items[0]] + items[1..];
    assert t[1..] == items[1..];
    if |items| > 1 {
      assert Join(sep, t) == p + items[0] + sep + Join(sep, items[1..]);
    }
  }

  /**
   * Python's `s.split(sep)` for a one-character separator: the maximal pieces
   * between separators, so one more piece than there are separators, and
   * joining them back with `sep` gives `s`.
   */
  function Split(s: string, sep: char): (r: seq<string>)
    ensures |r| >= 1
    ensures forall i :: 0 <= i < |r| ==> sep !in r[i]
    ensures Join([sep], r) == s
    decreases |s|
  {
    if |s| == 0 then [""]
    else
      var rest := Split(s[1..], sep);
      if s[0] == sep then
        var r := [""] + rest;
        assert r[1..] == rest;
        assert Join([sep], r) == [sep] + Join([sep], rest);
        assert s == [s[0]] + s[1..];
        r
      else
        var r := [[s[0]] + rest[0]] + rest[1..];
        assert r[1..] == rest[1..];
        assert Join([sep], r) == [s[0]] + Join([sep], rest);
        assert s == [s[0]] + s[1..];
        r
  }

  /** The pieces `Split` returns are exactly the ones joined, when no piece holds the separator. */
  lemma {:induction false} SplitJoin(items: seq<string>, sep: char)
    requires |items| >= 1
    requires forall i :: 0 <= i < |items| ==> sep !in items[i]
    ensures Split(Join([sep], items), sep) == items
    decreases |items|, |items[0]|
  {
    if |items| == 1 {
      SplitNoSep(items[0], sep);
    } else if items[0] == [] {
      var s := Join([sep], items);
      assert s == [sep] + Join([sep], items[1..]);
      assert s[1..] == Join([sep], items[1..]);
      SplitJoin(items[1..], sep);
      assert items == [""] + items[1..];
    } else {
      var c := items[0][0];
      var shifted := [items[0][1..]] + items[1..];
      assert shifted[1..] == items[1..];
      var s := Join([sep], items);
      assert s == [c] + Join([sep], shifted) by {
        assert items[0] == [c] + items[0][1..];
      }
      assert s[1..] == Join([sep], shifted);
      SplitJoin(shifted, sep);
      assert items == [[c] + shifted[0]] + shifted[1..];
    }
  }

  lemma {:induction false} SplitNoSep(s: string, sep: char)
    requires sep !in s
    ensures Split(s, sep) == [s]
    decreases |s|
  {
    if |s| > 0 {
      SplitNoSep(s[1..], sep);
      assert s == [s[0]] + s[1..];
    }
  }

  /**
   * Each item with `p` in front. With a blank, this is what `", ".join`
   * leaves of every item after the first once the result is split on `","`.
   */
  function Prefixed(p: string, items: seq<string>): (r: seq<string>)
    ensures |r| == |items|
    ensures forall i :: 0 <= i < |items| ==> r[i] == p + items[i]
  {
    seq(|items|, i requires 0 <= i < |items| => p + items[i])
  }

  lemma {:induction false} JoinCommaSpace(items: seq<string>)
    requires |items| >= 1
    ensures Join(", ", items) == Join(",", [items[0]] + Prefixed(" ", items[1..]))
    decreases |items|
  {
    if |items| > 1 {
      var rest := items[1..];
      JoinCommaSpace(rest);
      JoinSpacePrefixed(rest);
      var t := [items[0]] + Prefixed(" ", rest);
      assert t[1..] == Prefixed(" ", rest);
      assert Join(",", t) == items[0] + "," + Join(",", Prefixed(" ", rest));
      assert Join(", ", items) == items[0] + ", " + Join(", ", rest);
    }
  }

  /** Joining blank-prefixed items puts one blank in front of the join of the first item and the rest. */
  lemma {:induction false} JoinSpacePrefixed(rest: seq<string>)
    requires |rest| >= 1
    ensures Join(",", Prefixed(" ", rest)) == " " + Join(",", [rest[0]] + Prefixed(" ", rest[1..]))
  {
    var sp := Prefixed(" ", rest);
    var t := [rest[0]] + Prefixed(" ", rest[1..]);
    assert sp == [" " + rest[0]] + Prefixed(" ", rest[1..]);
    if |rest| > 1 {
      assert sp[1..] == t[1..];
      assert Join(",", sp) == " " + rest[0] + "," + Join(",", t[1..]);
      assert Join(",", t) == rest[0] + "," + Join(",", t[1..]);
    }
  }

  /** Splitting a `", "`-join on `","` returns the first item and the others each behind one blank. */
  lemma {:induction false} SplitJoinCommaSpace(items: seq<string>)
    requires |items| >= 1
    requires forall i :: 0 <= i < |items| ==> ',' !in items[i]
    ensures Split(Join(", ", items), ',') == [items[0]] + Prefixed(" ", items[1..])
  {
    JoinCommaSpace(items);
    var t := [items[0]] + Prefixed(" ", items[1..]);
    forall i | 0 <= i < |t|
      ensures ',' !in t[i]
    {
      if i > 0 {
        assert t[i] == " " + items[i];
      }
    }
    SplitJoin(t, ',');
  }
}
