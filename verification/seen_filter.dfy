/**
 * The task bot's freshness filter for reviewed contributions: a record of
 * when each post (author, permlink) was last passed on, and a contribution
 * passes when its review is more than six minutes later than that record,
 * or than the bot's start time for a post never seen, and it is not a task
 * request.
 */
module SeenFilter {
  import Categories
  import Contributions

  type Contribution = Contributions.Contribution

  /** `get_author_perm_from_url`: a post url to its author and permlink. */
  type Locator = string -> (string, string)

  /** `datetime.strptime` on a review date, as seconds. */
  type ReviewTime = string -> int

  /** `seen_contributions`: author to permlink to the review time last passed on, in seconds. */
  type Seen = map<string, map<string, int>>

  /** `timedelta(minutes=6)`, in seconds. */
  const Margin := 360

  /** `seen_contributions[author].get(permlink, DATETIME_UTC_NOW)`, `start` being the time the bot started. */
  function Before(seen: Seen, author: string, permlink: string, start: int): int {
    if author in seen && permlink in seen[author] then seen[author][permlink] else start
  }

  /** `seen_contributions[author]` on a `defaultdict(dict)`: a new author gets an empty record. */
  function Touch(seen: Seen, author: string): (r: Seen)
    ensures author in r && r[author] == (if author in seen then seen[author] else map[])
    ensures forall a :: a != author ==> (a in r <==> a in seen)
    ensures forall a :: a in seen && a != author ==> r[a] == seen[a]
    ensures forall a, p, start :: Before(r, a, p, start) == Before(seen, a, p, start)
  {
    seen[author := if author in seen then seen[author] else map[]]
  }

  /** `seen_contributions[author][permlink] = t`. */
  function Record(seen: Seen, author: string, permlink: string, t: int): (r: Seen)
    requires author in seen
    ensures forall a :: a in r <==> a in seen
    ensures forall a :: a in seen && a != author ==> r[a] == seen[a]
    ensures permlink in r[author] && r[author][permlink] == t
    ensures forall p :: p != permlink && p in seen[author] ==> p in r[author] && r[author][p] == seen[author][p]
    ensures forall p :: p != permlink && p !in seen[author] ==> p !in r[author]
    ensures forall start :: Before(r, author, permlink, start) == t
    ensures forall a, p, start :: (a, p) != (author, permlink) ==> Before(r, a, p, start) == Before(seen, a, p, start)
  {
    seen[author := seen[author][permlink := t]]
  }

  datatype FilterState = FilterState(seen: Seen, kept: seq<Contribution>)

  /** Whether the loop passes `c` on, with `seen` as the loop reaches it. */
  predicate Passes(seen: Seen, c: Contribution, start: int, locate: Locator, reviewed: ReviewTime) {
    Before(seen, locate(c.url).0, locate(c.url).1, start) + Margin < reviewed(c.reviewDate)
    && c.category !in Categories.TasksProperties
  }

  /**
   * One turn of the loop. `locate` splits a post url into author and
   * permlink and `reviewed` reads a review date as seconds: both are calls
   * into code this model does not include. Reading `seen_contributions[author]`
   * creates an empty record for a new author whether or not the
   * contribution passes.
   */
  function Step(s: FilterState, c: Contribution, start: int, locate: Locator, reviewed: ReviewTime): (r: FilterState)
    ensures locate(c.url).0 in r.seen
    ensures forall a :: a in s.seen ==> a in r.seen
    ensures forall a :: a in s.seen && a != locate(c.url).0 ==> r.seen[a] == s.seen[a]
    ensures forall a :: a in r.seen ==> a in s.seen || a == locate(c.url).0
    ensures Passes(s.seen, c, start, locate, reviewed) ==>
      r.kept == s.kept + [c] && Before(r.seen, locate(c.url).0, locate(c.url).1, start) == reviewed(c.reviewDate)
    ensures !Passes(s.seen, c, start, locate, reviewed) ==> r.kept == s.kept
  {
    var key := locate(c.url);
    var seen1 := Touch(s.seen, key.0);
    if Passes(s.seen, c, start, locate, reviewed) then
      FilterState(Record(seen1, key.0, key.1, reviewed(c.reviewDate)), s.kept + [c])
    else
      FilterState(seen1, s.kept)
  }

  /** A turn of the loop never lowers a record, and reading the default leaves it as it was. */
  lemma {:induction false} StepMonotone(s: FilterState, c: Contribution, start: int, locate: Locator, reviewed: ReviewTime, a: string, p: string)
    ensures Before(Step(s, c, start, locate, reviewed).seen, a, p, start) >= Before(s.seen, a, p, start)
    ensures (a, p) != locate(c.url) ==> Before(Step(s, c, start, locate, reviewed).seen, a, p, start) == Before(s.seen, a, p, start)
  {
  }

  /** `filter_contributions`: the loop over the batch, in order. */
  function Filter(cs: seq<Contribution>, seen: Seen, start: int, locate: Locator, reviewed: ReviewTime): (r: FilterState)
    ensures Contributions.IsSubsequence(r.kept, cs)
    ensures forall c :: c in r.kept ==> c.category !in Categories.TasksProperties
    decreases |cs|
  {
    if |cs| == 0 then FilterState(seen, [])
    else
      var init, c := cs[..|cs| - 1], cs[|cs| - 1];
      assert cs == init + [c];
      var prev := Filter(init, seen, start, locate, reviewed);
      var r := Step(prev, c, start, locate, reviewed);
      if Passes(prev.seen, c, start, locate, reviewed) then
        Contributions.SubsequenceAppend(prev.kept, init, c);
        r
      else
        Contributions.SubsequenceOfLonger(prev.kept, init, c);
        r
  }

  /** The record keeps every author it had, gains every author of the batch, and no one else. */
  lemma {:induction false} FilterAuthors(cs: seq<Contribution>, seen: Seen, start: int, locate: Locator, reviewed: ReviewTime)
    ensures forall a :: a in seen ==> a in Filter(cs, seen, start, locate, reviewed).seen
    ensures forall i :: 0 <= i < |cs| ==> locate(cs[i].url).0 in Filter(cs, seen, start, locate, reviewed).seen
    ensures forall a :: a in Filter(cs, seen, start, locate, reviewed).seen ==> a in seen || exists i :: 0 <= i < |cs| && a == locate(cs[i].url).0
    decreases |cs|
  {
    if |cs| > 0 {
      var init, c := cs[..|cs| - 1], cs[|cs| - 1];
      assert cs == init + [c];
      FilterAuthors(init, seen, start, locate, reviewed);
      var prev := Filter(init, seen, start, locate, reviewed);
      var r := Filter(cs, seen, start, locate, reviewed);
      assert r == Step(prev, c, start, locate, reviewed);
      forall i | 0 <= i < |cs|
        ensures locate(cs[i].url).0 in r.seen
      {
        if i < |init| {
          assert cs[i] == init[i];
        }
      }
      forall a | a in r.seen
        ensures a in seen || exists i :: 0 <= i < |cs| && a == locate(cs[i].url).0
      {
        if a in prev.seen && a !in seen {
          var i :| 0 <= i < |init| && a == locate(init[i].url).0;
          assert cs[i] == init[i];
        } else if a !in prev.seen {
          assert a == locate(cs[|cs| - 1].url).0;
        }
      }
    }
  }

  /** Over the whole batch a record only grows, and the posts the batch does not name keep theirs. */
  lemma {:induction false} FilterMonotone(cs: seq<Contribution>, seen: Seen, start: int, locate: Locator, reviewed: ReviewTime, a: string, p: string)
    ensures Before(Filter(cs, seen, start, locate, reviewed).seen, a, p, start) >= Before(seen, a, p, start)
    ensures (forall i :: 0 <= i < |cs| ==> locate(cs[i].url) != (a, p)) ==>
      Before(Filter(cs, seen, start, locate, reviewed).seen, a, p, start) == Before(seen, a, p, start)
    decreases |cs|
  {
    if |cs| > 0 {
      var prev := Filter(cs[..|cs| - 1], seen, start, locate, reviewed);
      assert forall i :: 0 <= i < |cs| - 1 ==> cs[..|cs| - 1][i] == cs[i];
      FilterMonotone(cs[..|cs| - 1], seen, start, locate, reviewed, a, p);
      StepMonotone(prev, cs[|cs| - 1], start, locate, reviewed, a, p);
    }
  }

  /** A passed contribution's post is recorded at no earlier than its review time. */
  predicate Settled(c: Contribution, seen: Seen, start: int, locate: Locator, reviewed: ReviewTime) {
    c.category in Categories.TasksProperties
    || reviewed(c.reviewDate) <= Before(seen, locate(c.url).0, locate(c.url).1, start) + Margin
  }

  /** After the loop no contribution of the batch would pass again. */
  lemma {:induction false} FilterSettles(cs: seq<Contribution>, seen: Seen, start: int, locate: Locator, reviewed: ReviewTime)
    ensures forall i :: 0 <= i < |cs| ==> Settled(cs[i], Filter(cs, seen, start, locate, reviewed).seen, start, locate, reviewed)
    decreases |cs|
  {
    if |cs| > 0 {
      var init := cs[..|cs| - 1];
      var prev := Filter(init, seen, start, locate, reviewed);
      var c := cs[|cs| - 1];
      var r := Filter(cs, seen, start, locate, reviewed);
      FilterSettles(init, seen, start, locate, reviewed);
      forall i | 0 <= i < |cs|
        ensures Settled(cs[i], r.seen, start, locate, reviewed)
      {
        var key := locate(cs[i].url);
        StepMonotone(prev, c, start, locate, reviewed, key.0, key.1);
        if i < |cs| - 1 {
          assert cs[i] == init[i];
        }
      }
    }
  }

  /** A batch whose every contribution is settled passes nothing. */
  lemma {:induction false} SettledPassesNothing(cs: seq<Contribution>, seen: Seen, start: int, locate: Locator, reviewed: ReviewTime)
    requires forall i :: 0 <= i < |cs| ==> Settled(cs[i], seen, start, locate, reviewed)
    ensures Filter(cs, seen, start, locate, reviewed).kept == []
    decreases |cs|
  {
    if |cs| > 0 {
      var init := cs[..|cs| - 1];
      assert forall i :: 0 <= i < |init| ==> init[i] == cs[i];
      SettledPassesNothing(init, seen, start, locate, reviewed);
      var prev := Filter(init, seen, start, locate, reviewed);
      var c := cs[|cs| - 1];
      var key := locate(c.url);
      FilterMonotone(init, seen, start, locate, reviewed, key.0, key.1);
      assert Settled(c, prev.seen, start, locate, reviewed);
    }
  }

  /** Running the filter again on the same batch, with the updated record, passes nothing. */
  lemma {:induction false} SecondPassEmpty(cs: seq<Contribution>, seen: Seen, start: int, locate: Locator, reviewed: ReviewTime)
    ensures Filter(cs, Filter(cs, seen, start, locate, reviewed).seen, start, locate, reviewed).kept == []
  {
    FilterSettles(cs, seen, start, locate, reviewed);
    SettledPassesNothing(cs, Filter(cs, seen, start, locate, reviewed).seen, start, locate, reviewed);
  }
}
