/**
 * `send_summary_to_steem`: up to `retry` attempts to write the bot's
 * summary under a task request, editing the bot's earlier reply when there
 * is one and posting a new reply otherwise, with the parsed command stored
 * in the comment's JSON metadata under the bot's name.
 */
module Summary {
  import opened Wrappers
  import Grammar

  /** A JSON object whose values are strings or `null`, as the parsed command's group dictionary is. */
  type Meta = map<string, Option<string>>

  /** The parsed command as the group dictionary `parsed_cmd`: every group name, `None` for an unmatched group. */
  function AsDict(p: Grammar.ParsedCmd): (d: Meta)
    ensures d.Keys == set g | g in Grammar.GroupNames
    ensures d["bot_cmd"] == p.botCmd && d["help"] == p.help
    ensures forall a :: d[ArgGroup(a)] == Grammar.Field(p, a)
  {
    map[
      "bot_cmd" := p.botCmd, "help" := p.help, "status" := p.status, "bounty" := p.bounty,
      "description" := p.description, "note" := p.note, "skills" := p.skills, "discord" := p.discord,
      "deadline" := p.deadline, "assignees" := p.assignees]
  }

  /** The name of an argument's group in the pattern. */
  function ArgGroup(a: Grammar.Arg): string {
    match a
    case Status => "status"
    case Bounty => "bounty"
    case Description => "description"
    case Note => "note"
    case Skills => "skills"
    case Discord => "discord"
    case Deadline => "deadline"
    case Assignees => "assignees"
  }

  /**
   * `bot.update(parsed_cmd)`: every group takes the parsed value, every
   * other key keeps its old value.
   */
  function Merge(prior: Meta, p: Grammar.ParsedCmd): (m: Meta)
    ensures m.Keys == prior.Keys + AsDict(p).Keys
    ensures forall k :: k in AsDict(p) ==> m[k] == AsDict(p)[k]
    ensures forall k :: k in prior && k !in AsDict(p) ==> m[k] == prior[k]
  {
    prior + AsDict(p)
  }

  /** Updating twice with the same command changes nothing more. */
  lemma {:induction false} MergeIdempotent(prior: Meta, p: Grammar.ParsedCmd)
    ensures Merge(Merge(prior, p), p) == Merge(prior, p)
  {
    var once := Merge(prior, p);
    var twice := Merge(once, p);
    assert forall k :: k in twice <==> k in once;
    assert forall k :: k in twice ==> twice[k] == once[k];
  }

  /** The bot's earlier reply under the task request, with its JSON metadata. */
  datatype PriorReply = PriorReply(jsonMetadata: map<string, Meta>)

  /** `reply.json_metadata.get(BOT_NAME, {})`. */
  function BotMeta(reply: PriorReply, botName: string): Meta {
    if botName in reply.jsonMetadata then reply.jsonMetadata[botName] else map[]
  }

  /** The write an attempt makes: `reply.edit(...)` or `STM.post(...)`, with the metadata it sends. */
  datatype Call =
    | Edit(meta: map<string, Meta>)
    | Post(meta: map<string, Meta>)

  /**
   * The write every attempt makes: an edit carrying the merged metadata
   * when the bot already replied, a new post carrying the parsed command
   * otherwise. The summary text itself is not part of this model.
   */
  function Attempt(p: Grammar.ParsedCmd, reply: Option<PriorReply>, botName: string): (c: Call)
    ensures c.Edit? <==> reply.Some?
    ensures botName in c.meta
    ensures reply.None? ==> c.meta[botName] == AsDict(p)
    ensures reply.Some? ==> c.meta[botName] == Merge(BotMeta(reply.value, botName), p)
  {
    match reply
    case Some(r) => Edit(map[botName := Merge(BotMeta(r, botName), p)])
    case None => Post(map[botName := AsDict(p)])
  }

  /** Whether attempt `k` goes through: the outcomes of the writes, which this model takes as given. */
  predicate Succeeds(outcomes: seq<bool>, k: nat) {
    k < |outcomes| && outcomes[k]
  }

  /** How many attempts the loop makes from attempt `k` on with `retry` tries left. */
  function AttemptsFrom(outcomes: seq<bool>, retry: int, k: nat): nat
    decreases if retry > 0 then retry else 0
  {
    if retry <= 0 then 0
    else if Succeeds(outcomes, k) then 1
    else 1 + AttemptsFrom(outcomes, retry - 1, k + 1)
  }

  /**
   * The number of attempts is at most `retry`; every attempt before the
   * last failed; and the last one succeeded unless all `retry` failed.
   */
  lemma {:induction false} AttemptsBound(outcomes: seq<bool>, retry: int, k: nat)
    ensures AttemptsFrom(outcomes, retry, k) <= (if retry > 0 then retry else 0)
    ensures forall j :: k <= j < k + AttemptsFrom(outcomes, retry, k) - 1 ==> !Succeeds(outcomes, j)
    ensures AttemptsFrom(outcomes, retry, k) < retry ==> Succeeds(outcomes, k + AttemptsFrom(outcomes, retry, k) - 1)
    ensures retry > 0 ==> AttemptsFrom(outcomes, retry, k) >= 1
    decreases if retry > 0 then retry else 0
  {
    if retry > 0 && !Succeeds(outcomes, k) {
      AttemptsBound(outcomes, retry - 1, k + 1);
    }
  }

  /**
   * The retry loop. It returns the writes it made and whether the last one
   * went through; a failed write costs one try, a successful one ends the
   * loop, and there is no pause between tries.
   */
  method SendSummaryToSteem(p: Grammar.ParsedCmd, reply: Option<PriorReply>, botName: string, outcomes: seq<bool>, retry: int)
    returns (calls: seq<Call>, sent: bool)
    ensures |calls| == AttemptsFrom(outcomes, retry, 0)
    ensures forall i :: 0 <= i < |calls| ==> calls[i] == Attempt(p, reply, botName)
    ensures sent <==> |calls| > 0 && Succeeds(outcomes, |calls| - 1)
    ensures forall i :: 0 <= i < |calls| - 1 ==> !Succeeds(outcomes, i)
    ensures !sent ==> |calls| == (if retry > 0 then retry else 0)
  {
    calls := [];
    sent := false;
    var left := retry;
    while left > 0
      invariant |calls| + (if left > 0 then left else 0) == (if retry > 0 then retry else 0)
      invariant AttemptsFrom(outcomes, retry, 0) == |calls| + AttemptsFrom(outcomes, left, |calls|)
      invariant forall i :: 0 <= i < |calls| ==> calls[i] == Attempt(p, reply, botName)
      invariant forall i :: 0 <= i < |calls| ==> !Succeeds(outcomes, i)
      invariant !sent
      decreases left
    {
      calls := calls + [Attempt(p, reply, botName)];
      if Succeeds(outcomes, |calls| - 1) {
        sent := true;
        break;
      }
      left := left - 1;
    }
  }
}
