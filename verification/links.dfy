/**
 * The string helpers of the bot: links to accounts and comments on the Steem
 * front end, `normalize_str`, and `accounts_str_to_md_links`.
 */
module Links {
  import opened Wrappers
  import opened Text
  import Tags

  /** `build_steem_account_link`: the front end's base URL, `/@`, and the account name. */
  function BuildSteemAccountLink(uiBase: string, username: string): (r: string)
    ensures StartsWith(r, uiBase + "/@") && r[|uiBase| + 2..] == username
  {
    var r := uiBase + "/@" + username;
    assert r[..|uiBase| + 2] == uiBase + "/@";
    r
  }

  /** The account a profile link points at, if it is one. */
  function AccountOfLink(uiBase: string, link: string): Option<string> {
    if StartsWith(link, uiBase + "/@") then Some(link[|uiBase| + 2..]) else None
  }

  lemma {:induction false} AccountLinkRoundTrip(uiBase: string, username: string)
    ensures AccountOfLink(uiBase, BuildSteemAccountLink(uiBase, username)) == Some(username)
  {
  }

  /** `build_comment_link`: the base URL followed by the comment's own path. */
  function BuildCommentLink(uiBase: string, c: Tags.Comment): (r: string)
    ensures StartsWith(r, uiBase) && r[|uiBase|..] == c.url
  {
    var r := uiBase + c.url;
    assert r[..|uiBase|] == uiBase;
    r
  }

  // ---------------------------------------------------------------------------
  // Comma-separated lists

  /** `[a for a in segs if a]`: the non-empty pieces, in order. */
  function NonEmpty(segs: seq<string>): (r: seq<string>)
    ensures |r| <= |segs|
    ensures forall i :: 0 <= i < |r| ==> r[i] != "" && r[i] in segs
    ensures (forall i :: 0 <= i < |segs| ==> segs[i] != "") ==> r == segs
    decreases |segs|
  {
    if |segs| == 0 then []
    else
      var rest := NonEmpty(segs[1..]);
      assert forall x :: x in segs[1..] ==> x in segs;
      if segs[0] == "" then rest else [segs[0]] + rest
  }

  function StripEach(segs: seq<string>, cs: StripSet): (r: seq<string>)
    ensures |r| == |segs|
    ensures forall i :: 0 <= i < |segs| ==> r[i] == Strip(segs[i], cs)
  {
    seq(|segs|, i requires 0 <= i < |segs| => Strip(segs[i], cs))
  }

  lemma {:induction false} StripKeepsOut(s: string, cs: StripSet, c: char)
    requires c !in s
    ensures c !in Strip(s, cs)
  {
    var i := LeadCount(s, cs);
    if i < |s| {
      var j := |s| - TrailCount(s, cs);
      var r := s[i..j];
      assert Strip(s, cs) == r;
      forall k | 0 <= k < |r|
        ensures r[k] != c
      {
        SliceAt(s, i, j, k);
      }
    }
  }

  /** An element of a slice is the element of the whole at the shifted place. */
  lemma {:induction false} SliceAt(s: string, i: nat, j: nat, k: nat)
    requires i <= j <= |s| && k < j - i
    ensures s[i..j][k] == s[i + k]
  {
  }

  /** The items `normalize_str` keeps: every non-empty comma piece, stripped. */
  function NormalizeItems(s: string): (items: seq<string>)
    ensures |items| == |NonEmpty(Split(s, ','))|
    ensures forall i :: 0 <= i < |items| ==> IsStripped(items[i], Whitespace) && ',' !in items[i]
  {
    var segs := NonEmpty(Split(s, ','));
    StripEachKeepsComma(segs);
    StripEach(segs, Whitespace)
  }

  lemma {:induction false} StripEachKeepsComma(segs: seq<string>)
    requires forall i :: 0 <= i < |segs| ==> ',' !in segs[i]
    ensures forall i :: 0 <= i < |segs| ==> ',' !in Strip(segs[i], Whitespace)
  {
    forall i | 0 <= i < |segs|
      ensures ',' !in Strip(segs[i], Whitespace)
    {
      StripKeepsOut(segs[i], Whitespace, ',');
    }
  }

  /** How a reader splits a displayed list back into items. */
  function ReadList(v: string): seq<string> {
    StripEach(Split(v, ','), Whitespace)
  }

  /**
   * `normalize_str`: the kept items joined with `", "`. Splitting the result
   * on commas and stripping gives the items back, so no item is lost, merged
   * or split.
   */
  function NormalizeStr(s: string): (r: string)
    ensures NormalizeItems(s) != [] ==> ReadList(r) == NormalizeItems(s)
  {
    var items := NormalizeItems(s);
    if items != [] then
      ReadBackJoined(items);
      Join(", ", items)
    else Join(", ", items)
  }

  lemma {:induction false} ReadBackJoined(items: seq<string>)
    requires |items| >= 1
    requires forall i :: 0 <= i < |items| ==> IsStripped(items[i], Whitespace) && ',' !in items[i]
    ensures ReadList(Join(", ", items)) == items
  {
    var joined := Join(", ", items);
    SplitJoinCommaSpace(items);
    var segs := Split(joined, ',');
    assert segs == [items[0]] + Prefixed(" ", items[1..]);
    assert |segs| == |items|;
    forall i | 0 <= i < |items|
      ensures Strip(segs[i], Whitespace) == items[i]
    {
      ItemPieceStrips(segs, items, i);
    }
    assert ReadList(joined) == StripEach(segs, Whitespace);
  }

  lemma {:induction false} ItemPieceStrips(segs: seq<string>, items: seq<string>, i: nat)
    requires |items| >= 1 && segs == [items[0]] + Prefixed(" ", items[1..])
    requires i < |items| && IsStripped(items[i], Whitespace)
    ensures Strip(segs[i], Whitespace) == items[i]
  {
    if i == 0 {
      assert segs[0] == items[0];
      StripOfStripped(items[0], Whitespace);
    } else {
      assert segs[i] == Prefixed(" ", items[1..])[i - 1];
      StripSpacePrefixed(items[i]);
    }
  }

  /**
   * Normalising twice changes nothing, unless the first kept piece was blank
   * (its stripped form is empty and a second pass drops it).
   */
  lemma {:induction false} NormalizeIdempotent(s: string)
    requires NormalizeItems(s) == [] || NormalizeItems(s)[0] != ""
    ensures NormalizeStr(NormalizeStr(s)) == NormalizeStr(s)
  {
    var items := NormalizeItems(s);
    var v := NormalizeStr(s);
    if items == [] {
      assert v == "";
      assert Split(v, ',') == [""];
      assert NonEmpty([""]) == [];
    } else {
      SplitJoinCommaSpace(items);
      var segs := Split(v, ',');
      assert segs == [items[0]] + Prefixed(" ", items[1..]);
      forall i | 0 <= i < |segs|
        ensures segs[i] != ""
      {
        if i > 0 {
          assert segs[i] == " " + items[i];
        }
      }
      assert NonEmpty(segs) == segs;
      ReadBackJoined(items);
      assert NormalizeItems(v) == ReadList(v);
    }
  }

  /** A blank first piece is where idempotence fails: `" ,a"` normalises to `", a"`, ... */
  lemma {:induction false} NormalizeBlankFirstPiece()
    ensures NormalizeStr(" ,a") == ", a"
  {
    assert " ,a"[1..] == ",a" && ",a"[1..] == "a";
    SplitNoSep("a", ',');
    assert Split(",a", ',') == ["", "a"];
    assert [' '] + "" == " ";
    assert Split(" ,a", ',') == [" ", "a"];
    assert NonEmpty([" ", "a"]) == [" ", "a"];
    StripOfStripped("a", Whitespace);
    assert " "[1..] == "";
    assert LeadCount(" ", Whitespace) == 1;
    assert Strip(" ", Whitespace) == "";
    assert NormalizeItems(" ,a") == ["", "a"];
    assert Join(", ", ["", "a"]) == ", a";
  }

  /** ... and `", a"` normalises further to `"a"`. */
  lemma {:induction false} NormalizeDropsBlankFirstItem()
    ensures NormalizeStr(", a") == "a"
  {
    assert ", a"[1..] == " a";
    SplitNoSep(" a", ',');
    assert Split(", a", ',') == ["", " a"];
    assert NonEmpty(["", " a"]) == [" a"];
    StripSpacePrefixed("a");
    assert NormalizeItems(", a") == ["a"];
  }

  // ---------------------------------------------------------------------------
  // accounts_str_to_md_links

  /** The names `accounts_str_to_md_links` links: every non-empty comma piece with blanks and `@` stripped. */
  function AccountNames(s: string): (names: seq<string>)
    ensures |names| == |NonEmpty(Split(s, ','))|
    ensures forall i :: 0 <= i < |names| ==> IsStripped(names[i], SpaceOrAt)
  {
    StripEach(NonEmpty(Split(s, ',')), SpaceOrAt)
  }

  /** A Markdown link `[name](profile)` to an account. */
  function MdLink(uiBase: string, name: string): string {
    "[" + name + "](" + BuildSteemAccountLink(uiBase, name) + ")"
  }

  function MdLinks(uiBase: string, names: seq<string>): (r: seq<string>)
    ensures |r| == |names|
    ensures forall i :: 0 <= i < |names| ==> r[i] == MdLink(uiBase, names[i])
  {
    seq(|names|, i requires 0 <= i < |names| => MdLink(uiBase, names[i]))
  }

  /** `accounts_str_to_md_links`: one profile link per non-empty piece, joined with `", "`. */
  function AccountsStrToMdLinks(uiBase: string, s: string): string {
    Join(", ", MdLinks(uiBase, AccountNames(s)))
  }

  /** `"@" + name` for each name. */
  function Mentions(names: seq<string>): seq<string> {
    Prefixed("@", names)
  }

  /**
   * Linking the mention list `"@a, @b"` gives one link per name, to the name
   * itself: the `@` and the blank after each comma are stripped, nothing else.
   */
  lemma {:induction false} AccountNamesOfMentions(names: seq<string>)
    requires |names| >= 1
    requires forall i :: 0 <= i < |names| ==> names[i] != "" && IsStripped(names[i], SpaceOrAt) && ',' !in names[i]
    ensures AccountNames(Join(", ", Mentions(names))) == names
  {
    var ms := Mentions(names);
    forall i | 0 <= i < |ms|
      ensures ',' !in ms[i]
    {
      assert ms[i] == "@" + names[i];
    }
    var joined := Join(", ", ms);
    SplitJoinCommaSpace(ms);
    var segs := Split(joined, ',');
    assert segs == [ms[0]] + Prefixed(" ", ms[1..]);
    assert |segs| == |names|;
    forall i | 0 <= i < |segs|
      ensures segs[i] != "" && Strip(segs[i], SpaceOrAt) == names[i]
    {
      MentionPieceStrips(segs, ms, names, i);
    }
    assert NonEmpty(segs) == segs;
    assert AccountNames(joined) == StripEach(segs, SpaceOrAt);
  }

  lemma {:induction false} MentionPieceStrips(segs: seq<string>, ms: seq<string>, names: seq<string>, i: nat)
    requires |names| >= 1 && ms == Mentions(names)
    requires segs == [ms[0]] + Prefixed(" ", ms[1..])
    requires i < |names|
    requires names[i] != "" && IsStripped(names[i], SpaceOrAt)
    ensures segs[i] != "" && Strip(segs[i], SpaceOrAt) == names[i]
  {
    if i == 0 {
      assert segs[0] == "@" + names[0] + "";
      StripPadded("@", names[0], "", SpaceOrAt);
    } else {
      assert segs[i] == " " + ms[i];
      assert segs[i] == " @" + names[i] + "";
      StripPadded(" @", names[i], "", SpaceOrAt);
    }
  }

  /**
   * The assignee value the command pattern accepts, `@a, b, c`: its comma
   * pieces are `@a`, ` b`, ` c`, and stripping blanks and `@` gives each name
   * back, in order.
   */
  lemma {:induction false} AccountNamesOfAssigneeList(names: seq<string>)
    requires |names| >= 1
    requires forall i :: 0 <= i < |names| ==> names[i] != "" && IsStripped(names[i], SpaceOrAt) && ',' !in names[i]
    ensures AccountNames("@" + Join(", ", names)) == names
  {
    var ms := ["@" + names[0]] + names[1..];
    JoinPrefixFirst("@", ", ", names);
    forall i | 0 <= i < |ms|
      ensures ',' !in ms[i]
    {
      if i == 0 {
        assert ms[0] == "@" + names[0];
      } else {
        assert ms[i] == names[i];
      }
    }
    SplitJoinCommaSpace(ms);
    var segs := Split(Join(", ", ms), ',');
    assert segs == [ms[0]] + Prefixed(" ", ms[1..]);
    forall i | 0 <= i < |segs|
      ensures segs[i] != "" && Strip(segs[i], SpaceOrAt) == names[i]
    {
      ListPieceStrips(segs, ms, names, i);
    }
    assert NonEmpty(segs) == segs;
    assert AccountNames(Join(", ", ms)) == StripEach(segs, SpaceOrAt);
  }

  lemma {:induction false} ListPieceStrips(segs: seq<string>, ms: seq<string>, names: seq<string>, i: nat)
    requires |names| >= 1 && ms == ["@" + names[0]] + names[1..]
    requires segs == [ms[0]] + Prefixed(" ", ms[1..])
    requires i < |names|
    requires names[i] != "" && IsStripped(names[i], SpaceOrAt)
    ensures segs[i] != "" && Strip(segs[i], SpaceOrAt) == names[i]
  {
    if i == 0 {
      assert segs[0] == "@" + names[0] + "";
      StripPadded("@", names[0], "", SpaceOrAt);
    } else {
      assert segs[i] == " " + ms[i];
      assert segs[i] == " " + names[i] + "";
      StripPadded(" ", names[i], "", SpaceOrAt);
    }
  }

  /** So `accounts_str_to_md_links` links each name of an accepted assignee list once, by name. */
  lemma {:induction false} AssigneeListLinks(uiBase: string, names: seq<string>)
    requires |names| >= 1
    requires forall i :: 0 <= i < |names| ==> names[i] != "" && IsStripped(names[i], SpaceOrAt) && ',' !in names[i]
    ensures AccountsStrToMdLinks(uiBase, "@" + Join(", ", names)) == Join(", ", MdLinks(uiBase, names))
  {
    AccountNamesOfAssigneeList(names);
  }

  /** Hence the list in the form the help text documents also links each assignee exactly once. */
  lemma {:induction false} MentionLinks(uiBase: string, names: seq<string>)
    requires |names| >= 1
    requires forall i :: 0 <= i < |names| ==> names[i] != "" && IsStripped(names[i], SpaceOrAt) && ',' !in names[i]
    ensures AccountsStrToMdLinks(uiBase, Join(", ", Mentions(names))) == Join(", ", MdLinks(uiBase, names))
  {
    AccountNamesOfMentions(names);
  }
}
