/**
 * Steem content items and the tag lookups that classify them
 * (`get_category`, `is_utopian_contribution`, `is_utopian_task_request`),
 * plus the gate the comment listener applies before it queues a reply.
 */
module Tags {
  import opened Wrappers
  import Categories

  /** A post or reply as the listener sees it; `parentAuthor` is empty for a root post. */
  datatype Comment = Comment(
    author: string,
    permlink: string,
    url: string,
    title: string,
    body: string,
    tags: seq<string>,
    parentAuthor: string)

  const UtopianTag := "utopian-io"

  predicate HasTagIn(tags: seq<string>, keys: set<string>) {
    exists i :: 0 <= i < |tags| && tags[i] in keys
  }

  /**
   * `get_category`: the first tag, in tag order, that is a key of the table,
   * or `None` when no tag is.
   */
  function GetCategory(tags: seq<string>, keys: set<string>): (r: Option<string>)
    ensures r.None? <==> !HasTagIn(tags, keys)
    ensures r.Some? ==> r.value in keys
    ensures r.Some? ==> exists i :: 0 <= i < |tags| && tags[i] == r.value && forall j :: 0 <= j < i ==> tags[j] !in keys
    decreases |tags|
  {
    if |tags| == 0 then None
    else if tags[0] in keys then
      Some(tags[0])
    else
      var r := GetCategory(tags[1..], keys);
      assert forall i :: 1 <= i < |tags| ==> tags[i] == tags[1..][i - 1];
      assert r.Some? ==> exists i :: 1 <= i < |tags| && tags[i] == r.value && forall j :: 0 <= j < i ==> tags[j] !in keys by {
        if r.Some? {
          var i :| 0 <= i < |tags[1..]| && tags[1..][i] == r.value && forall j :: 0 <= j < i ==> tags[1..][j] !in keys;
          assert tags[i + 1] == r.value;
          assert forall j :: 0 <= j < i + 1 ==> tags[j] !in keys by {
            forall j | 0 <= j < i + 1
              ensures tags[j] !in keys
            {
              if j > 0 {
                assert tags[j] == tags[1..][j - 1];
              }
            }
          }
        }
      }
      r
  }

  /** The Python test `not set(keys).isdisjoint(set(tags))`. */
  predicate SharesTag(tags: seq<string>, keys: set<string>) {
    !(keys !! set t | t in tags)
  }

  /** `is_utopian_contribution`: the `utopian-io` tag and some category key among the tags. */
  predicate IsUtopianContribution(c: Comment) {
    UtopianTag in c.tags && SharesTag(c.tags, Categories.CategoriesProperties.Keys)
  }

  /** `is_utopian_task_request`: the `utopian-io` tag and some task key among the tags. */
  predicate IsUtopianTaskRequest(c: Comment) {
    UtopianTag in c.tags && SharesTag(c.tags, Categories.TasksProperties.Keys)
  }

  lemma {:induction false} SharesTagIff(tags: seq<string>, keys: set<string>)
    ensures SharesTag(tags, keys) <==> HasTagIn(tags, keys)
  {
    if SharesTag(tags, keys) {
      var t :| t in keys && t in (set t | t in tags);
      var i :| 0 <= i < |tags| && tags[i] == t;
    }
    if HasTagIn(tags, keys) {
      var i :| 0 <= i < |tags| && tags[i] in keys;
      assert tags[i] in keys * (set t | t in tags);
    }
  }

  /**
   * A task request is exactly a post tagged `utopian-io` with some task tag,
   * and for such a post the category lookup of the dispatcher always succeeds.
   */
  lemma {:induction false} TaskRequestHasCategory(c: Comment)
    ensures IsUtopianTaskRequest(c) <==> UtopianTag in c.tags && HasTagIn(c.tags, Categories.TasksProperties.Keys)
    ensures IsUtopianTaskRequest(c) ==> GetCategory(c.tags, Categories.TasksProperties.Keys).Some?
  {
    SharesTagIff(c.tags, Categories.TasksProperties.Keys);
  }

  /** The contribution test is the same test against the category keys. */
  lemma {:induction false} ContributionIff(c: Comment)
    ensures IsUtopianContribution(c) <==> UtopianTag in c.tags && HasTagIn(c.tags, Categories.CategoriesProperties.Keys)
    ensures IsUtopianContribution(c) ==> GetCategory(c.tags, Categories.CategoriesProperties.Keys).Some?
  {
    SharesTagIff(c.tags, Categories.CategoriesProperties.Keys);
  }

  // ---------------------------------------------------------------------------
  // The listener's gate

  /** A `comment` operation from the block stream. */
  datatype CommentOp = CommentOp(author: string, permlink: string, parentAuthor: string)

  /**
   * What fetching a reply and its parent gave: both items; an exception from
   * `Comment(...)`, which the listener catches; or an exception from
   * `get_parent` or from reading either `url`, which nothing catches.
   */
  datatype Fetch = Fetched(comment: Comment, root: Comment) | CommentFailed | ParentFailed

  /** A reply together with the post it answers, as queued for the dispatcher. */
  datatype QueueItem = QueueItem(comment: Comment, root: Comment)

  /** The listener skips operations that are not replies or not by a listed reviewer. */
  predicate IsCandidate(op: CommentOp, accounts: set<string>) {
    op.parentAuthor != "" && op.author in accounts
  }

  /**
   * The comment listener over a stretch of the stream: a reply by a listed
   * account whose fetch succeeded is queued, in stream order, exactly when its
   * parent is a task request. A failed `Comment(...)` is skipped; a failed
   * parent fetch ends the listener, so nothing after it is queued.
   */
  function Ingest(events: seq<(CommentOp, Fetch)>, accounts: set<string>): (queue: seq<QueueItem>)
    ensures |queue| <= |events|
    ensures forall q :: q in queue ==> IsUtopianTaskRequest(q.root)
    ensures forall q :: q in queue ==> exists i :: 0 <= i < |events| && IsCandidate(events[i].0, accounts) && events[i].1 == Fetched(q.comment, q.root)
    decreases |events|
  {
    if |events| == 0 then []
    else
      var (op, fetch) := events[0];
      var rest := Ingest(events[1..], accounts);
      assert forall q :: q in rest ==> exists i :: 0 <= i < |events| && IsCandidate(events[i].0, accounts) && events[i].1 == Fetched(q.comment, q.root) by {
        forall q | q in rest
          ensures exists i :: 0 <= i < |events| && IsCandidate(events[i].0, accounts) && events[i].1 == Fetched(q.comment, q.root)
        {
          var i :| 0 <= i < |events[1..]| && IsCandidate(events[1..][i].0, accounts) && events[1..][i].1 == Fetched(q.comment, q.root);
          assert events[i + 1] == events[1..][i];
        }
      }
      if !IsCandidate(op, accounts) then rest
      else match fetch
        case CommentFailed => rest
        case ParentFailed => []
        case Fetched(comment, root) =>
          if IsUtopianTaskRequest(root) then [QueueItem(comment, root)] + rest else rest
  }

  /** The listener is still running at `i`: no earlier reply it fetched failed at its parent. */
  predicate RunningAt(events: seq<(CommentOp, Fetch)>, accounts: set<string>, i: nat)
    requires i <= |events|
  {
    forall j :: 0 <= j < i && IsCandidate(events[j].0, accounts) ==> !events[j].1.ParentFailed?
  }

  /** Conversely, every reply the gate admits while the listener still runs is queued. */
  lemma {:induction false} IngestComplete(events: seq<(CommentOp, Fetch)>, accounts: set<string>, i: nat)
    requires i < |events| && IsCandidate(events[i].0, accounts) && RunningAt(events, accounts, i)
    requires events[i].1.Fetched? && IsUtopianTaskRequest(events[i].1.root)
    ensures QueueItem(events[i].1.comment, events[i].1.root) in Ingest(events, accounts)
    decreases i
  {
    if i > 0 {
      assert events[1..][i - 1] == events[i];
      assert !(IsCandidate(events[0].0, accounts) && events[0].1.ParentFailed?);
      assert RunningAt(events[1..], accounts, i - 1) by {
        forall j | 0 <= j < i - 1 && IsCandidate(events[1..][j].0, accounts)
          ensures !events[1..][j].1.ParentFailed?
        {
          assert events[1..][j] == events[j + 1];
        }
      }
      IngestComplete(events[1..], accounts, i - 1);
    }
  }

  /** A parent fetch that fails ends the listener: the queue is what came before it. */
  lemma {:induction false} IngestStops(events: seq<(CommentOp, Fetch)>, accounts: set<string>, k: nat)
    requires k < |events| && IsCandidate(events[k].0, accounts) && events[k].1.ParentFailed?
    ensures Ingest(events, accounts) == Ingest(events[..k], accounts)
    decreases k
  {
    if k > 0 {
      assert events[1..][k - 1] == events[k];
      assert events[..k][1..] == events[1..][..k - 1];
      IngestStops(events[1..], accounts, k - 1);
    }
  }
}
