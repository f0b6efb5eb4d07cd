/**
 * Reviewed contributions from utopian.rocks: the record the API returns,
 * the embed and notice the bots post for one, and the contributions bot's
 * freshness filter, which keeps a single watermark string `last_seen_time`
 * and passes only contributions reviewed after it.
 */
module Contributions {
  import opened Wrappers
  import opened Text
  import Categories
  import Embeds

  /**
   * One reviewed contribution. `url`, `category` and `review_date` are read
   * with `c[...]`; the other keys with `.get`, so each may be missing.
   */
  datatype Contribution = Contribution(
    url: string,
    category: string,
    reviewDate: string,
    author: Option<string>,
    title: Option<string>,
    moderator: Option<string>,
    score: Option<string>,
    staffPicked: Option<bool>,
    created: Option<string>)

  // ---------------------------------------------------------------------------
  // The embed and the notice

  const Unknown := "Unknown"

  const ContributionFieldNames: seq<string> := ["Category", "Reviewer", "Score", "Picked by staff", "Created at", "Reviewed at"]

  /** The six fields of a contribution embed. */
  function ContributionFields(c: Contribution): (fs: seq<Embeds.Field>)
    ensures Embeds.Names(fs) == ContributionFieldNames
    ensures |fs| == 6 && forall i :: 0 <= i < 6 ==> fs[i].inline
    ensures fs[0].value == Upper(if c.category == "" then Unknown else c.category)
    ensures c.moderator.None? ==> fs[1].value == Unknown
    ensures c.moderator.Some? ==> fs[1].value == c.moderator.value
    ensures c.score.None? ==> fs[2].value == Unknown
    ensures c.score.Some? ==> fs[2].value == c.score.value
    ensures (fs[3].value == "Yes" <==> c.staffPicked == Some(true)) && (fs[3].value == "Yes" || fs[3].value == "No")
    ensures c.created.None? ==> fs[4].value == Unknown
    ensures c.created.Some? ==> fs[4].value == c.created.value
    ensures fs[5].value == c.reviewDate
  {
    var fs := [
      Embeds.Field("Category", Upper(if c.category == "" then Unknown else c.category), true),
      Embeds.Field("Reviewer", c.moderator.GetOr(Unknown), true),
      Embeds.Field("Score", c.score.GetOr(Unknown), true),
      Embeds.Field("Picked by staff", if c.staffPicked == Some(true) then "Yes" else "No", true),
      Embeds.Field("Created at", c.created.GetOr(Unknown), true),
      Embeds.Field("Reviewed at", c.reviewDate, true)
    ];
    Embeds.NamesElements(fs);
    fs
  }

  /** `int(CATEGORIES_PROPERTIES[category]["color"][1:], 16)`, which every category colour decodes to. */
  function CategoryColor(k: string): (v: nat)
    requires k in Categories.CategoriesProperties
    ensures Categories.ColorValue(Categories.CategoriesProperties[k].color) == Some(v)
  {
    Categories.CategoryColorsAreHex();
    Categories.HexColorDecodes(Categories.CategoriesProperties[k].color);
    Categories.ColorValue(Categories.CategoriesProperties[k].color).value
  }

  /**
   * `build_contribution_embed`: `None` where the lookup of an unknown
   * non-empty category raises `KeyError`; otherwise the contribution's
   * title, its category's colour and image (colour 0 and no image without a
   * category), its author when given, and the six fields.
   */
  function BuildContributionEmbed(uiBase: string, c: Contribution): (r: Option<Embeds.Embed>)
    ensures r.None? <==> c.category != "" && c.category !in Categories.CategoriesProperties
    ensures r.Some? ==> r.value.title == c.title && r.value.fields == ContributionFields(c)
    ensures r.Some? && c.category == "" ==> r.value.color == 0 && r.value.thumbnail.None?
    ensures r.Some? && c.category != "" ==>
      && Some(r.value.color) == Categories.ColorValue(Categories.CategoriesProperties[c.category].color)
      && r.value.thumbnail == Some(Categories.CategoriesProperties[c.category].imageUrl)
    ensures r.Some? ==> (r.value.author.Some? <==> Embeds.Truthy(c.author))
    ensures r.Some? && r.value.author.Some? ==> r.value.author.value.name == c.author.value
  {
    if c.category != "" && c.category !in Categories.CategoriesProperties then None
    else
      var color := if c.category != "" then CategoryColor(c.category) else 0;
      var thumbnail := if c.category != "" then Some(Categories.CategoriesProperties[c.category].imageUrl) else None;
      var author := if Embeds.Truthy(c.author) then Some(Embeds.AuthorOf(uiBase, c.author.value)) else None;
      Some(Embeds.Embed(c.title, None, color, thumbnail, author, None, ContributionFields(c)))
  }

  /** The contributions bot's message text: `[CATEGORY] <url>`. */
  function ContributionNotice(c: Contribution): string {
    Embeds.Notice(c.category, c.url)
  }

  /** The notice names the contribution's category and url, both recoverable from the text. */
  lemma {:induction false} ContributionNoticeReadBack(c: Contribution)
    requires ']' !in c.category
    ensures Embeds.ReadNotice(ContributionNotice(c)) == Some((Upper(c.category), c.url))
  {
    Embeds.NoticeReadBack(c.category, c.url);
  }

  // ---------------------------------------------------------------------------
  // Python's string order

  /** Python's `a < b` on strings: code-point lexicographic order, a proper prefix first. */
  predicate StrLess(a: string, b: string)
    decreases |a|
  {
    |b| > 0 && (|a| == 0 || a[0] < b[0] || (a[0] == b[0] && StrLess(a[1..], b[1..])))
  }

  lemma {:induction false} StrLessIrreflexive(a: string)
    ensures !StrLess(a, a)
    decreases |a|
  {
    if |a| > 0 {
      StrLessIrreflexive(a[1..]);
    }
  }

  lemma {:induction false} StrLessTransitive(a: string, b: string, c: string)
    requires StrLess(a, b) && StrLess(b, c)
    ensures StrLess(a, c)
    decreases |a|
  {
    if |a| > 0 && a[0] == b[0] && b[0] == c[0] {
      StrLessTransitive(a[1..], b[1..], c[1..]);
    }
  }

  lemma {:induction false} StrLessTotal(a: string, b: string)
    ensures a == b || StrLess(a, b) || StrLess(b, a)
    decreases |a|
  {
    if |a| > 0 && |b| > 0 && a[0] == b[0] {
      StrLessTotal(a[1..], b[1..]);
      if a[1..] == b[1..] {
        assert a == [a[0]] + a[1..] && b == [b[0]] + b[1..];
      }
    }
  }

  lemma {:induction false} StrLessAsymmetric(a: string, b: string)
    ensures !(StrLess(a, b) && StrLess(b, a))
    decreases |a|
  {
    if |a| > 0 && |b| > 0 && a[0] == b[0] {
      StrLessAsymmetric(a[1..], b[1..]);
    }
  }

  /** `a <= b`. */
  predicate StrAtMost(a: string, b: string) {
    !StrLess(b, a)
  }

  lemma {:induction false} StrAtMostTransitive(a: string, b: string, c: string)
    requires StrAtMost(a, b) && StrAtMost(b, c)
    ensures StrAtMost(a, c)
  {
    StrLessTotal(a, b);
    StrLessTotal(b, c);
    if StrLess(c, a) {
      if a == b {
      } else if b == c {
      } else {
        StrLessTransitive(a, b, c);
        StrLessAsymmetric(a, c);
      }
    }
  }

  lemma {:induction false} StrAtMostAntisymmetric(a: string, b: string)
    requires StrAtMost(a, b) && StrAtMost(b, a)
    ensures a == b
  {
    StrLessTotal(a, b);
  }

  // ---------------------------------------------------------------------------
  // The watermark filter

  ghost predicate IsSubsequence<T>(r: seq<T>, s: seq<T>)
    decreases |s|
  {
    if |r| == 0 then true
    else if |s| == 0 then false
    else if r[0] == s[0] then IsSubsequence(r[1..], s[1..])
    else IsSubsequence(r, s[1..])
  }

  /**
   * `filter_contributions` of the contributions bot: the contributions
   * reviewed strictly after `last`, in input order, each as often as the
   * batch holds it. Task categories are not excluded: that condition is
   * commented out.
   */
  function FilterNewer(cs: seq<Contribution>, last: string): (r: seq<Contribution>)
    ensures |r| <= |cs|
    ensures IsSubsequence(r, cs)
    ensures forall c :: c in r ==> c in cs && StrLess(last, c.reviewDate)
    ensures forall c :: c in cs && StrLess(last, c.reviewDate) ==> c in r
    decreases |cs|
  {
    if |cs| == 0 then []
    else
      var rest := FilterNewer(cs[1..], last);
      assert forall c :: c in cs ==> c == cs[0] || c in cs[1..];
      if StrLess(last, cs[0].reviewDate) then
        var r := [cs[0]] + rest;
        assert r[1..] == rest;
        r
      else
        SubsequenceOfTail(rest, cs);
        rest
  }

  /** Each contribution reviewed after `last` is kept as often as the batch holds it, and no other is kept. */
  lemma {:induction false} FilterNewerCounts(cs: seq<Contribution>, last: string)
    ensures forall c :: multiset(FilterNewer(cs, last))[c] == (if StrLess(last, c.reviewDate) then multiset(cs)[c] else 0)
    decreases |cs|
  {
    if |cs| > 0 {
      FilterNewerCounts(cs[1..], last);
      assert cs == [cs[0]] + cs[1..];
      assert multiset(cs) == multiset{cs[0]} + multiset(cs[1..]);
      var rest := FilterNewer(cs[1..], last);
      if StrLess(last, cs[0].reviewDate) {
        assert FilterNewer(cs, last) == [cs[0]] + rest;
        assert multiset(FilterNewer(cs, last)) == multiset{cs[0]} + multiset(rest);
      } else {
        assert FilterNewer(cs, last) == rest;
      }
    }
  }

  lemma {:induction false} SubsequenceOfTail<T>(r: seq<T>, s: seq<T>)
    requires |s| > 0 && IsSubsequence(r, s[1..])
    ensures IsSubsequence(r, s)
    decreases |s|, |r|
  {
    if |r| > 0 && r[0] == s[0] {
      SubsequenceDropHead(r, s[1..]);
    }
  }

  lemma {:induction false} SubsequenceDropHead<T>(r: seq<T>, s: seq<T>)
    requires |r| > 0 && IsSubsequence(r, s)
    ensures IsSubsequence(r[1..], s)
    decreases |s|, |r|
  {
    if r[0] != s[0] {
      SubsequenceDropHead(r, s[1..]);
      SubsequenceOfTail(r[1..], s);
    } else if |r| > 1 {
      SubsequenceOfTail(r[1..], s);
    }
  }

  lemma {:induction false} SubsequenceOfLonger<T>(r: seq<T>, s: seq<T>, c: T)
    requires IsSubsequence(r, s)
    ensures IsSubsequence(r, s + [c])
    decreases |s|
  {
    if |r| > 0 {
      assert (s + [c])[1..] == s[1..] + [c];
      if r[0] == s[0] {
        SubsequenceOfLonger(r[1..], s[1..], c);
      } else {
        SubsequenceOfLonger(r, s[1..], c);
      }
    }
  }

  lemma {:induction false} SubsequenceAppend<T>(r: seq<T>, s: seq<T>, c: T)
    requires IsSubsequence(r, s)
    ensures IsSubsequence(r + [c], s + [c])
    decreases |s|
  {
    if |s| > 0 {
      assert (s + [c])[1..] == s[1..] + [c];
      if |r| == 0 {
        assert r + [c] == [c];
        if s[0] != c {
          SubsequenceAppend(r, s[1..], c);
        }
      } else {
        assert (r + [c])[1..] == r[1..] + [c];
        if r[0] == s[0] {
          SubsequenceAppend(r[1..], s[1..], c);
        } else {
          SubsequenceAppend(r, s[1..], c);
        }
      }
    } else {
      assert r == [];
      assert (r + [c])[1..] == [] && (s + [c])[1..] == [];
    }
  }

  /** `if c["review_date"] > last_seen_time: last_seen_time = c["review_date"]`. */
  function Later(last: string, d: string): string {
    if StrLess(last, d) then d else last
  }

  /**
   * The watermark after the loop over `cs`: `last`, moved forward to each
   * later review date in turn.
   */
  function Advance(last: string, cs: seq<Contribution>): string
    decreases |cs|
  {
    if |cs| == 0 then last else Advance(Later(last, cs[0].reviewDate), cs[1..])
  }

  /** The watermark ends at the largest of `last` and every review date in `cs`. */
  lemma {:induction false} AdvanceBounds(last: string, cs: seq<Contribution>)
    ensures StrAtMost(last, Advance(last, cs))
    ensures forall i :: 0 <= i < |cs| ==> StrAtMost(cs[i].reviewDate, Advance(last, cs))
    ensures Advance(last, cs) == last || exists i :: 0 <= i < |cs| && Advance(last, cs) == cs[i].reviewDate
    decreases |cs|
  {
    if |cs| == 0 {
      StrLessIrreflexive(last);
    } else {
      var l := Later(last, cs[0].reviewDate);
      var w := Advance(l, cs[1..]);
      AdvanceBounds(l, cs[1..]);
      assert StrAtMost(last, l) && StrAtMost(cs[0].reviewDate, l) by {
        StrLessTotal(last, cs[0].reviewDate);
        StrLessIrreflexive(l);
        StrLessAsymmetric(last, cs[0].reviewDate);
      }
      StrAtMostTransitive(last, l, w);
      StrAtMostTransitive(cs[0].reviewDate, l, w);
      assert forall i :: 1 <= i < |cs| ==> cs[i] == cs[1..][i - 1];
    }
  }

  lemma {:induction false} AdvanceStep(last: string, cs: seq<Contribution>)
    requires |cs| > 0
    ensures Advance(last, cs) == Advance(Later(last, cs[0].reviewDate), cs[1..])
  {
  }

  /**
   * `put_contributions_to_queue` after the fetch: the new contributions are
   * queued in order and the watermark moves to the latest review date seen.
   */
  method PutContributionsToQueue(batch: seq<Contribution>, last: string, queue: seq<Contribution>)
    returns (queue': seq<Contribution>, last': string)
    ensures queue' == queue + FilterNewer(batch, last)
    ensures last' == Advance(last, FilterNewer(batch, last))
  {
    var newer := FilterNewer(batch, last);
    queue', last' := QueueEach(newer, last, queue);
  }

  /** The loop of `put_contributions_to_queue`: queue each contribution in turn and keep the latest review date. */
  method QueueEach(newer: seq<Contribution>, last: string, queue: seq<Contribution>)
    returns (queue': seq<Contribution>, last': string)
    ensures queue' == queue + newer
    ensures last' == Advance(last, newer)
  {
    queue' := queue;
    last' := last;
    var i := 0;
    while i < |newer|
      invariant 0 <= i <= |newer|
      invariant queue' == queue + newer[..i]
      invariant Advance(last', newer[i..]) == Advance(last, newer)
    {
      assert Advance(Later(last', newer[i].reviewDate), newer[i + 1..]) == Advance(last, newer) by {
        AdvanceStep(last', newer[i..]);
        assert newer[i..][1..] == newer[i + 1..];
      }
      assert queue' + [newer[i]] == queue + newer[..i + 1] by {
        assert newer[..i + 1] == newer[..i] + [newer[i]];
      }
      queue' := queue' + [newer[i]];
      if StrLess(last', newer[i].reviewDate) {
        last' := newer[i].reviewDate;
      }
      i := i + 1;
    }
    assert newer[..i] == newer;
  }

  /** The watermark never moves back. */
  lemma {:induction false} WatermarkMonotone(batch: seq<Contribution>, last: string)
    ensures StrAtMost(last, Advance(last, FilterNewer(batch, last)))
  {
    AdvanceBounds(last, FilterNewer(batch, last));
  }

  /** Filtering the same batch again, against the advanced watermark, passes nothing. */
  lemma {:induction false} RefilterEmpty(batch: seq<Contribution>, last: string)
    ensures FilterNewer(batch, Advance(last, FilterNewer(batch, last))) == []
  {
    var newer := FilterNewer(batch, last);
    var w := Advance(last, newer);
    AdvanceBounds(last, newer);
    forall c | c in batch
      ensures StrAtMost(c.reviewDate, w)
    {
      if StrLess(last, c.reviewDate) {
        var i :| 0 <= i < |newer| && newer[i] == c;
      } else {
        StrAtMostTransitive(c.reviewDate, last, w);
      }
    }
    NothingNewer(batch, w);
  }

  lemma {:induction false} NothingNewer(batch: seq<Contribution>, w: string)
    requires forall c :: c in batch ==> StrAtMost(c.reviewDate, w)
    ensures FilterNewer(batch, w) == []
  {
    var again := FilterNewer(batch, w);
    assert forall i :: 0 <= i < |again| ==> again[i] in again;
  }

  /**
   * The watermark advanced over a fetched batch does not depend on the order
   * in which the API lists it: two batches holding the same contributions
   * equally often advance `last` to the same date.
   */
  lemma {:induction false} AdvanceOrderIndependent(last: string, a: seq<Contribution>, b: seq<Contribution>)
    requires multiset(a) == multiset(b)
    ensures Advance(last, FilterNewer(a, last)) == Advance(last, FilterNewer(b, last))
  {
    var na, nb := FilterNewer(a, last), FilterNewer(b, last);
    FilterNewerCounts(a, last);
    FilterNewerCounts(b, last);
    assert multiset(na) == multiset(nb) by {
      assert forall c :: multiset(na)[c] == multiset(nb)[c];
    }
    AdvancePermutation(last, na, nb);
  }

  /** `Advance` is a maximum, so any reordering of the same contributions gives the same date. */
  lemma {:induction false} AdvancePermutation(last: string, a: seq<Contribution>, b: seq<Contribution>)
    requires multiset(a) == multiset(b)
    ensures Advance(last, a) == Advance(last, b)
  {
    var wa, wb := Advance(last, a), Advance(last, b);
    AdvanceBounds(last, a);
    AdvanceBounds(last, b);
    assert StrAtMost(wa, wb) by {
      if wa != last {
        var i :| 0 <= i < |a| && wa == a[i].reviewDate;
        assert a[i] in multiset(b);
        var j :| 0 <= j < |b| && b[j] == a[i];
      }
    }
    assert StrAtMost(wb, wa) by {
      if wb != last {
        var j :| 0 <= j < |b| && wb == b[j].reviewDate;
        assert b[j] in multiset(a);
        var i :| 0 <= i < |a| && a[i] == b[j];
      }
    }
    StrAtMostAntisymmetric(wa, wb);
  }

  // ---------------------------------------------------------------------------
  // Review dates as strings

  /** `"%Y-%m-%d %H:%M:%S"` as `strftime` writes it: nineteen characters, digits between fixed separators. */
  predicate IsStamp(s: string) {
    && |s| == 19 && s[4] == '-' && s[7] == '-' && s[10] == ' ' && s[13] == ':' && s[16] == ':'
    && forall k :: 0 <= k < 19 && k != 4 && k != 7 && k != 10 && k != 13 && k != 16 ==> IsDigit(s[k])
  }

  function Pow10(n: nat): (p: nat)
    ensures p >= 1
  {
    if n == 0 then 1 else 10 * Pow10(n - 1)
  }

  function DigitCount(s: string): nat
    decreases |s|
  {
    if |s| == 0 then 0 else (if IsDigit(s[0]) then 1 else 0) + DigitCount(s[1..])
  }

  /**
   * The digits of `s` read as one decimal number, separators skipped: for a
   * stamp, the number `YYYYMMDDhhmmss`, whose order is the order in time.
   */
  function DigitsValue(s: string): nat
    decreases |s|
  {
    if |s| == 0 then 0
    else if IsDigit(s[0]) then Scaled(s[0] as int - '0' as int, DigitCount(s[1..])) + DigitsValue(s[1..])
    else DigitsValue(s[1..])
  }

  /** A digit in the place `10^n`. */
  function Scaled(d: nat, n: nat): nat {
    d * Pow10(n)
  }

  lemma {:induction false} DigitBound(d: int, p: nat, rest: nat)
    requires 0 <= d <= 9 && rest < p
    ensures d * p + rest < 10 * p
  {
    assert d * p <= 9 * p;
  }

  lemma {:induction false} DigitsValueBound(s: string)
    ensures DigitsValue(s) < Pow10(DigitCount(s))
    decreases |s|
  {
    if |s| > 0 {
      DigitsValueBound(s[1..]);
      if IsDigit(s[0]) {
        DigitBound(s[0] as int - '0' as int, Pow10(DigitCount(s[1..])), DigitsValue(s[1..]));
      }
    }
  }

  /** Two strings with digits in the same places and the same characters elsewhere. */
  predicate SameShape(a: string, b: string) {
    && |a| == |b|
    && forall k :: 0 <= k < |a| ==> (IsDigit(a[k]) <==> IsDigit(b[k])) && (!IsDigit(a[k]) ==> a[k] == b[k])
  }

  lemma {:induction false} SameShapeDigitCount(a: string, b: string)
    requires SameShape(a, b)
    ensures DigitCount(a) == DigitCount(b)
    decreases |a|
  {
    if |a| > 0 {
      assert SameShape(a[1..], b[1..]) by {
        assert forall k :: 0 <= k < |a| - 1 ==> a[1..][k] == a[k + 1] && b[1..][k] == b[k + 1];
      }
      SameShapeDigitCount(a[1..], b[1..]);
    }
  }

  lemma {:induction false} LeadingDigitDecides(da: int, db: int, p: nat, ra: nat, rb: nat)
    requires 0 <= da < db && p >= 1 && ra < p && rb < p
    ensures da * p + ra < db * p + rb
  {
    assert (da + 1) * p == da * p + p;
    assert db * p >= (da + 1) * p;
  }

  /** For strings of one shape, `<` on the strings is `<` on their digit values. */
  lemma {:induction false} SameShapeOrder(a: string, b: string)
    requires SameShape(a, b)
    ensures StrLess(a, b) <==> DigitsValue(a) < DigitsValue(b)
    decreases |a|
  {
    if |a| > 0 {
      assert SameShape(a[1..], b[1..]) by {
        assert forall k :: 0 <= k < |a| - 1 ==> a[1..][k] == a[k + 1] && b[1..][k] == b[k + 1];
      }
      SameShapeDigitCount(a[1..], b[1..]);
      var p := Pow10(DigitCount(a[1..]));
      DigitsValueBound(a[1..]);
      DigitsValueBound(b[1..]);
      if a[0] == b[0] {
        SameShapeOrder(a[1..], b[1..]);
      } else {
        var da, db := a[0] as int - '0' as int, b[0] as int - '0' as int;
        assert IsDigit(a[0]) && IsDigit(b[0]);
        if a[0] < b[0] {
          LeadingDigitDecides(da, db, p, DigitsValue(a[1..]), DigitsValue(b[1..]));
        } else {
          LeadingDigitDecides(db, da, p, DigitsValue(b[1..]), DigitsValue(a[1..]));
        }
      }
    }
  }

  /**
   * Review dates and the watermark are stamps, so the string comparison the
   * filter and the watermark use is the chronological order of
   * `YYYYMMDDhhmmss`.
   */
  lemma {:induction false} StampOrder(a: string, b: string)
    requires IsStamp(a) && IsStamp(b)
    ensures StrLess(a, b) <==> DigitsValue(a) < DigitsValue(b)
  {
    assert SameShape(a, b);
    SameShapeOrder(a, b);
  }
}
