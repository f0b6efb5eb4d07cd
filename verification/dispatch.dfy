/**
 * `process_cmd_comments`: what the task bot does with one queued command
 * comment and the task request it answers. The steps that talk to Steem
 * and Discord become actions; whether the bot has already replied is an
 * input, since those lookups are not part of this model.
 */
module Dispatch {
  import opened Wrappers
  import opened Text
  import Tags
  import Links
  import Grammar
  import Embeds

  /** The canned replies: `MESSAGES["HELP"]` and `MESSAGES["STATUS_MISSING"]`. */
  datatype Message = Help | StatusMissing

  datatype Action =
    | ReplyWith(message: Message)
      // `send_summary_to_steem`, editing the bot's earlier reply when there is one
    | SendSummary(editPrior: bool)
    | PostToDiscord(content: string, embed: Embeds.Embed)
    | TaskDone
      // `parsed_cmd["status"].upper()` on a missing status: an `AttributeError` ends the call
    | Crash

  /**
   * The configuration the handler reads: the bot's account (`""` when unset),
   * the front end's base URL, the command token, and whether a task webhook
   * is configured.
   */
  datatype Config = Config(account: string, uiBase: string, token: string, webhookSet: bool)

  /**
   * The facts the handler looks up on Steem: whether the bot already replied
   * to the command comment, and whether it already replied to the task
   * request.
   */
  datatype Replies = Replies(toComment: bool, toRoot: bool)

  /** No step ends the call. */
  predicate Plain(steps: seq<Action>) {
    forall i :: 0 <= i < |steps| ==> steps[i] != TaskDone && steps[i] != Crash
  }

  /** The steps, then the action that ends the call. */
  function Then(steps: seq<Action>, last: Action): (r: seq<Action>)
    requires Plain(steps)
    ensures |r| >= 1 && r[|r| - 1] == last
    ensures forall i :: 0 <= i < |r| - 1 ==> r[i] != TaskDone && r[i] != Crash
  {
    steps + [last]
  }

  /** `send_summary_to_steem`, which runs only when the bot has an account. */
  function SummaryStep(cfg: Config, replies: Replies): (r: seq<Action>)
    ensures Plain(r)
  {
    if cfg.account != "" then [SendSummary(replies.toRoot)] else []
  }

  /** A step that sends something out: the Steem summary or the Discord message. */
  predicate Publishes(a: Action) {
    a.SendSummary? || a.PostToDiscord?
  }

  /** The summary and Discord steps of the publish path, before `task_done`. */
  function PublishSteps(cfg: Config, root: Tags.Comment, p: Grammar.ParsedCmd, replies: Replies): (r: seq<Action>)
    requires p.status.Some?
    ensures Plain(r)
    ensures forall i :: 0 <= i < |r| ==> Publishes(r[i])
  {
    SummaryStep(cfg, replies)
    + (if cfg.webhookSet then [PostToDiscord(TaskContent(cfg, root, p), Embeds.BuildTaskEmbed(cfg.uiBase, root, p))] else [])
  }

  /** The Discord message: `[STATUS] <link to the task request>`. */
  function TaskContent(cfg: Config, root: Tags.Comment, p: Grammar.ParsedCmd): string
    requires p.status.Some?
  {
    Embeds.Notice(p.status.value, Links.BuildCommentLink(cfg.uiBase, root))
  }

  /** The help and status-missing replies, before `task_done`, as both versions make them. */
  function ReplySteps(cfg: Config, author: string, p: Grammar.ParsedCmd, replies: Replies): (r: seq<Action>)
    ensures Plain(r)
    ensures forall i :: 0 <= i < |r| ==> r[i].ReplyWith?
  {
    if p.help.Some? then
      if author != cfg.account && !replies.toComment then [ReplyWith(Help)] else []
    else if Grammar.SetCount(p) > 1 && !replies.toComment then [ReplyWith(StatusMissing)]
    else []
  }

  /**
   * The handler as written, on the parse result and the task category of
   * the request. A `help` command posted by the bot's own account passes the
   * help branch (it is not answered) and the status-missing branch (help is
   * set), so it reaches the publish path without a status.
   */
  function DecideAsWritten(cfg: Config, author: string, parsed: Option<Grammar.ParsedCmd>, category: Option<string>, root: Tags.Comment, replies: Replies): (r: seq<Action>)
    ensures |r| >= 1 && (r[|r| - 1] == TaskDone || r[|r| - 1] == Crash)
    ensures forall i :: 0 <= i < |r| - 1 ==> r[i] != TaskDone && r[i] != Crash
  {
    match parsed
    case None => [TaskDone]
    case Some(p) =>
      if p.help.Some? && author != cfg.account then
        Then(ReplySteps(cfg, author, p, replies), TaskDone)
      else if p.help.None? && p.status.None? then
        Then(ReplySteps(cfg, author, p, replies), TaskDone)
      else if category.None? then [TaskDone]
      else if p.status.None? then
        Then(SummaryStep(cfg, replies), if cfg.webhookSet then Crash else TaskDone)
      else Then(PublishSteps(cfg, root, p, replies), TaskDone)
  }

  /** The handler with a help command never published: an unanswered help command only ends the task. */
  function Decide(cfg: Config, author: string, parsed: Option<Grammar.ParsedCmd>, category: Option<string>, root: Tags.Comment, replies: Replies): (r: seq<Action>)
    ensures |r| >= 1 && r[|r| - 1] == TaskDone
    ensures forall i :: 0 <= i < |r| - 1 ==> r[i] != TaskDone
    ensures Crash !in r
  {
    match parsed
    case None => [TaskDone]
    case Some(p) =>
      if p.help.Some? || p.status.None? then
        Then(ReplySteps(cfg, author, p, replies), TaskDone)
      else if category.None? then [TaskDone]
      else Then(PublishSteps(cfg, root, p, replies), TaskDone)
  }

  /** `process_cmd_comments` as written, on a queued (comment, task request) pair. */
  function ProcessAsWritten(cfg: Config, comment: Tags.Comment, root: Tags.Comment, replies: Replies): seq<Action> {
    DecideAsWritten(cfg, comment.author, Grammar.ParseCommand(comment.body, cfg.token), Embeds.TaskCategory(root), root, replies)
  }

  /** The corrected `process_cmd_comments`. */
  function Process(cfg: Config, comment: Tags.Comment, root: Tags.Comment, replies: Replies): seq<Action> {
    Decide(cfg, comment.author, Grammar.ParseCommand(comment.body, cfg.token), Embeds.TaskCategory(root), root, replies)
  }

  /** What the parser guarantees of every result. */
  predicate Parsed(parsed: Option<Grammar.ParsedCmd>) {
    parsed.Some? ==> Grammar.WellFormed(parsed.value)
  }

  /**
   * The corrected handler's branches: a help reply exactly for an unanswered
   * help command from someone else; a status-missing reply exactly for an
   * unanswered command with arguments but no status; nothing published
   * without a status or without a task category.
   */
  lemma {:induction false} DecideBranches(cfg: Config, author: string, parsed: Option<Grammar.ParsedCmd>, category: Option<string>, root: Tags.Comment, replies: Replies)
    requires Parsed(parsed)
    ensures var r := Decide(cfg, author, parsed, category, root, replies);
      && (ReplyWith(Help) in r <==>
            parsed.Some? && parsed.value.help.Some? && author != cfg.account && !replies.toComment)
      && (ReplyWith(StatusMissing) in r <==>
            && parsed.Some? && parsed.value.help.None? && parsed.value.status.None? && !replies.toComment
            && exists a :: Grammar.Field(parsed.value, a).Some?)
      && ((exists i :: 0 <= i < |r| && Publishes(r[i])) ==>
            parsed.Some? && parsed.value.status.Some? && category.Some?)
  {
    DecideHelpReply(cfg, author, parsed, category, root, replies);
    DecideStatusMissingReply(cfg, author, parsed, category, root, replies);
    DecidePublishes(cfg, author, parsed, category, root, replies);
  }

  /** The help reply goes out exactly for an unanswered help command from someone else. */
  lemma {:induction false} DecideHelpReply(cfg: Config, author: string, parsed: Option<Grammar.ParsedCmd>, category: Option<string>, root: Tags.Comment, replies: Replies)
    requires Parsed(parsed)
    ensures ReplyWith(Help) in Decide(cfg, author, parsed, category, root, replies) <==>
      parsed.Some? && parsed.value.help.Some? && author != cfg.account && !replies.toComment
  {
    if parsed.Some? {
      var p := parsed.value;
      var r := Decide(cfg, author, parsed, category, root, replies);
      if p.help.Some? || p.status.None? {
        assert r == ReplySteps(cfg, author, p, replies) + [TaskDone];
      } else if category.Some? {
        var steps := PublishSteps(cfg, root, p, replies);
        assert r == steps + [TaskDone];
      }
    }
  }

  /** The status-missing reply goes out exactly for an unanswered command with arguments but neither help nor status. */
  lemma {:induction false} DecideStatusMissingReply(cfg: Config, author: string, parsed: Option<Grammar.ParsedCmd>, category: Option<string>, root: Tags.Comment, replies: Replies)
    requires Parsed(parsed)
    ensures ReplyWith(StatusMissing) in Decide(cfg, author, parsed, category, root, replies) <==>
      && parsed.Some? && parsed.value.help.None? && parsed.value.status.None? && !replies.toComment
      && exists a :: Grammar.Field(parsed.value, a).Some?
  {
    if parsed.Some? {
      var p := parsed.value;
      var r := Decide(cfg, author, parsed, category, root, replies);
      if p.help.None? && p.status.None? {
        assert r == ReplySteps(cfg, author, p, replies) + [TaskDone];
        StatusMissingReply(cfg, author, p, replies);
      } else if p.help.None? && category.Some? {
        var steps := PublishSteps(cfg, root, p, replies);
        assert r == steps + [TaskDone];
      }
    }
  }

  /**
   * For a command with neither help nor status, the replies hold the
   * status-missing message exactly when some other argument was given and
   * the comment is unanswered.
   */
  lemma {:induction false} StatusMissingReply(cfg: Config, author: string, p: Grammar.ParsedCmd, replies: Replies)
    requires Grammar.WellFormed(p) && p.help.None? && p.status.None?
    ensures ReplyWith(StatusMissing) in ReplySteps(cfg, author, p, replies) <==>
      !replies.toComment && exists a :: Grammar.Field(p, a).Some?
  {
    Grammar.SetCountWithoutStatus(p);
  }

  /** Nothing is published without a status and a task category. */
  lemma {:induction false} DecidePublishes(cfg: Config, author: string, parsed: Option<Grammar.ParsedCmd>, category: Option<string>, root: Tags.Comment, replies: Replies)
    requires Parsed(parsed)
    ensures var r := Decide(cfg, author, parsed, category, root, replies);
      (exists i :: 0 <= i < |r| && Publishes(r[i])) ==> parsed.Some? && parsed.value.status.Some? && category.Some?
  {
  }

  /** A queued comment always ends with exactly one `task_done` and never fails. */
  lemma {:induction false} ProcessEndsTask(cfg: Config, comment: Tags.Comment, root: Tags.Comment, replies: Replies)
    ensures var r := Process(cfg, comment, root, replies);
      && |r| >= 1 && r[|r| - 1] == TaskDone && Crash !in r
      && forall i :: 0 <= i < |r| - 1 ==> r[i] != TaskDone
  {
    var parsed := Grammar.ParseCommand(comment.body, cfg.token);
    var r := Decide(cfg, comment.author, parsed, Embeds.TaskCategory(root), root, replies);
    assert Process(cfg, comment, root, replies) == r;
  }

  /** The corrected handler's branches for a queued comment, whose parse result is well formed. */
  lemma {:induction false} ProcessBranches(cfg: Config, comment: Tags.Comment, root: Tags.Comment, replies: Replies)
    ensures var r := Process(cfg, comment, root, replies);
      var parsed := Grammar.ParseCommand(comment.body, cfg.token);
      && (ReplyWith(Help) in r <==>
            parsed.Some? && parsed.value.help.Some? && comment.author != cfg.account && !replies.toComment)
      && (ReplyWith(StatusMissing) in r <==>
            && parsed.Some? && parsed.value.help.None? && parsed.value.status.None? && !replies.toComment
            && exists a :: Grammar.Field(parsed.value, a).Some?)
      && ((exists i :: 0 <= i < |r| && Publishes(r[i])) ==>
            parsed.Some? && parsed.value.status.Some? && Embeds.TaskCategory(root).Some?)
  {
    var parsed := Grammar.ParseCommand(comment.body, cfg.token);
    var category := Embeds.TaskCategory(root);
    var r := Decide(cfg, comment.author, parsed, category, root, replies);
    assert Process(cfg, comment, root, replies) == r;
    DecideBranches(cfg, comment.author, parsed, category, root, replies);
  }

  /** The bracket tag of a status is one of three words, so the message reads back as status and link. */
  lemma {:induction false} TaskContentReadBack(cfg: Config, root: Tags.Comment, p: Grammar.ParsedCmd)
    requires Grammar.WellFormed(p) && p.status.Some?
    ensures Embeds.ReadNotice(TaskContent(cfg, root, p)) == Some((Upper(p.status.value), Links.BuildCommentLink(cfg.uiBase, root)))
    ensures Upper(p.status.value) in {"OPEN", "IN PROGRESS", "CLOSED"}
  {
    assert Grammar.Field(p, Grammar.Status).Some?;
    var v := p.status.value;
    Embeds.StatusWord(v);
    assert ']' !in Upper(v);
    forall k | 0 <= k < |v|
      ensures v[k] != ']'
    {
      assert Upper(v)[k] in Upper(v);
    }
    Embeds.NoticeReadBack(v, Links.BuildCommentLink(cfg.uiBase, root));
  }

  /** Where the corrected handler publishes to Discord, it posts the status message and the task embed. */
  lemma {:induction false} PublishedMessage(cfg: Config, author: string, parsed: Option<Grammar.ParsedCmd>, category: Option<string>, root: Tags.Comment, replies: Replies)
    requires Parsed(parsed) && cfg.webhookSet
    requires parsed.Some? && parsed.value.status.Some? && category.Some?
    ensures PostToDiscord(TaskContent(cfg, root, parsed.value), Embeds.BuildTaskEmbed(cfg.uiBase, root, parsed.value)) in Decide(cfg, author, parsed, category, root, replies)
  {
    assert Grammar.Field(parsed.value, Grammar.Status).Some?;
  }

  /** The two handlers differ only on a help command posted by the bot's own account. */
  lemma {:induction false} DecideAgrees(cfg: Config, author: string, parsed: Option<Grammar.ParsedCmd>, category: Option<string>, root: Tags.Comment, replies: Replies)
    requires Parsed(parsed)
    requires !(parsed.Some? && parsed.value.help.Some? && author == cfg.account)
    ensures Decide(cfg, author, parsed, category, root, replies) == DecideAsWritten(cfg, author, parsed, category, root, replies)
  {
    if parsed.Some? && parsed.value.help.Some? {
      assert Grammar.Field(parsed.value, Grammar.Status).None?;
    }
  }

  /**
   * As written, a help command by the bot's own account on a task request
   * with a configured webhook never reaches `task_done`: it fails on the
   * missing status. The corrected handler only ends the task.
   */
  lemma {:induction false} HelpByAccountCrashes(cfg: Config, author: string, parsed: Option<Grammar.ParsedCmd>, category: Option<string>, root: Tags.Comment, replies: Replies)
    requires Parsed(parsed)
    requires parsed.Some? && parsed.value.help.Some? && author == cfg.account
    requires cfg.webhookSet && category.Some?
    ensures var r := DecideAsWritten(cfg, author, parsed, category, root, replies);
      r[|r| - 1] == Crash && TaskDone !in r
    ensures Decide(cfg, author, parsed, category, root, replies) == [TaskDone]
  {
    var p := parsed.value;
    assert Grammar.Field(p, Grammar.Status).None?;
    assert Grammar.SetCount(p) > 1 by {
      assert p.botCmd.Some?;
    }
  }

  /** The crash is reachable: the bot's own account commenting `!ut help` under a task request. */
  lemma {:induction false} HelpCommentCrashes(cfg: Config, comment: Tags.Comment, root: Tags.Comment, replies: Replies)
    requires cfg.token == "!ut" && comment.body == Grammar.HelpText && comment.author == cfg.account
    requires cfg.webhookSet && Embeds.TaskCategory(root).Some?
    ensures var r := ProcessAsWritten(cfg, comment, root, replies);
      |r| >= 1 && r[|r| - 1] == Crash && TaskDone !in r
    ensures Process(cfg, comment, root, replies) == [TaskDone]
  {
    var parsed := Grammar.ParseCommand(comment.body, cfg.token);
    assert parsed == Some(Grammar.Unset.(botCmd := Some("!ut"), help := Some("help"))) by {
      Grammar.HelpExample();
    }
    HelpByAccountCrashes(cfg, comment.author, parsed, Embeds.TaskCategory(root), root, replies);
  }

  /** `!ut status: open` under a task request, with a webhook, posts `[OPEN] <link>` to Discord. */
  lemma {:induction false} StatusCommentPublishes(cfg: Config, comment: Tags.Comment, root: Tags.Comment, replies: Replies)
    requires cfg.token == "!ut" && comment.body == Grammar.StatusText
    requires cfg.webhookSet && Embeds.TaskCategory(root).Some?
    ensures exists e :: PostToDiscord("[OPEN] <" + Links.BuildCommentLink(cfg.uiBase, root) + ">", e) in Process(cfg, comment, root, replies)
  {
    var p := Grammar.Unset.(botCmd := Some("!ut"), status := Some("open"));
    var link := Links.BuildCommentLink(cfg.uiBase, root);
    assert Grammar.ParseCommand(comment.body, cfg.token) == Some(p) by {
      Grammar.StatusExample();
    }
    assert Process(cfg, comment, root, replies) == Decide(cfg, comment.author, Some(p), Embeds.TaskCategory(root), root, replies);
    PublishedMessage(cfg, comment.author, Some(p), Embeds.TaskCategory(root), root, replies);
    assert TaskContent(cfg, root, p) == Embeds.Notice("open", link);
    OpenNotice(link);
  }

  lemma {:induction false} OpenNotice(link: string)
    ensures Embeds.Notice("open", link) == "[OPEN] <" + link + ">"
  {
    Embeds.UpperWords();
  }
}
