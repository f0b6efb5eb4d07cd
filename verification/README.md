# utbot in Dafny

A model of the decision logic of utbot, a Steem bot for Utopian.io. utbot
reads replies to Utopian task requests, parses the `!<prefix><name>`
commands in them, and answers with help messages, a summary reply on Steem
and a Discord notice with an embed. A second bot forwards contributions that
utopian.rocks has reviewed to Discord.

The model is pure Dafny. Immutable datatypes stand for comments,
contributions, parsed commands and embeds. Functions and small methods stand
for the bot's steps, and lemmas state what the steps guarantee.

| module (file) | what it models |
|---|---|
| `Wrappers` (wrappers.dfy) | `Option` |
| `Text` (text.dfy) | Python's `str.upper` on ASCII letters, `strip`, `split` and `join`, and ASCII case-insensitive matching |
| `Categories` (categories.dfy) | `CATEGORIES_PROPERTIES`, its alias keys, the derived `TASKS_PROPERTIES`, and the `int(color[1:], 16)` decoding |
| `Tags` (tags.dfy) | `get_category`, `is_utopian_contribution`, `is_utopian_task_request`, and the comment listener's gate |
| `Links` (links.dfy) | `build_steem_account_link`, `build_comment_link`, `normalize_str`, `accounts_str_to_md_links` |
| `Grammar` (grammar.dfy) | `CMD_RE` and `parse_command`, as a scanner that computes the pattern's first match |
| `Embeds` (embeds.dfy) | `build_discord_tr_embed` as an ordered field list, and the `[TAG] <link>` notice |
| `Contributions` (contributions.dfy) | `build_contribution_embed`, and the contributions bot's `last_seen_time` watermark |
| `SeenFilter` (seen_filter.dfy) | the task bot's `filter_contributions`, keyed by author and permlink |
| `Dispatch` (dispatch.dfy) | `process_cmd_comments` as a list of actions |
| `Usage` (usage.dfy) | `TASK_EXAMPLE`: how the command pattern reads each of its values, and the group dictionary its clauses give |
| `Summary` (summary.dfy) | `send_summary_to_steem`: the metadata merge and the retry loop |

The following are parameters of the model rather than constants:
- the configuration: `ACCOUNT`, `ACCOUNTS`, `UI_BASE_URL`, the call token `BOT_PREFIX + BOT_NAME`, and whether a task webhook is set;
- the start time `DATETIME_UTC_NOW`;
- the outcomes of Steem writes;
- the lookups `replied_to_comment` and `get_author_perm_from_url`.

Review times in the task bot are integer seconds. In the contributions bot
they are strings, compared the way Python compares `str`.

## Model

| member | source | states |
|---|---|---|
| `Categories.DeriveTasks` | utbot/constants.py:123-130 | every category key `k` yields the task key `"task-" + k`, whose entry copies the colour and image and is named `"task-" + name` with category `name`; every task key is `"task-"` plus a category key |
| `Categories.TaskKeyInjective` | utbot/constants.py:125 | distinct category keys give distinct task keys |
| `Categories.DeriveTasksSize` | utbot/constants.py:123-130 | the derived table has exactly as many entries as its source |
| `Categories.TaskTableShape` | utbot/constants.py:123-130 | `TASKS_PROPERTIES` is as large as `CATEGORIES_PROPERTIES`, and every one of its keys starts with `task-` |
| `Categories.AliasesShareEntries` | utbot/constants.py:113-120 | each alias key holds the very entry of the category it names |
| `Categories.TaskAliasesShareCategory` | utbot/constants.py:113-130 | the task entry of an alias equals the task entry of its category, and its category is the canonical name (e.g. `task-suggestions` is an `ideas` task) |
| `Categories.ParseHex` | utbot/utbot.py:68 | on strings of plain hex digits and other characters: base-16 parsing succeeds exactly on a non-empty string of hex digits, with a value below `16^len` |
| `Categories.HexColorDecodes` | utbot/utbot.py:204 | a `#`-and-hex-digits colour always decodes, to a natural below `16^(len-1)` |
| `Categories.CategoryColorsAreHex` | utbot/constants.py:40-111 | every colour in the category table is `#` followed by hex digits |
| `Categories.TaskColorsDecode` | utbot/constants.py:124-130 | every task colour decodes, so the decoding at either builder never raises |
| `Categories.DevelopmentColorIsZero` | utbot/constants.py:51-55 | the development colour `#000` decodes to 0 |
| `Tags.GetCategory` | utbot/utils.py:34-38 | `None` exactly when no tag is a key; otherwise the first tag, in tag order, that is a key |
| `Tags.SharesTagIff` | utbot/utils.py:23 | "the key set is not disjoint from the tag set" holds iff some tag is a key |
| `Tags.TaskRequestHasCategory` | utbot/utils.py:27-31 | a task request is exactly a post with `utopian-io` and a task-key tag, so `get_category` finds a task category for it |
| `Tags.ContributionIff` | utbot/utils.py:20-24 | a contribution is exactly a post with `utopian-io` and a category-key tag, so `get_category` finds a category for it |
| `Tags.Ingest` | utbot/utbot.py:284-303 | the listener queues only replies by listed accounts whose fetched parent is a task request, each one coming from some stream event |
| `Tags.IngestStops` | utbot/utbot.py:296-298 | a reply by a listed account whose parent fetch or `url` read raises ends the listener: nothing from that event on is queued |
| `Tags.IngestComplete` | utbot/utbot.py:285-303 | every reply by a listed account whose fetch succeeded and whose parent is a task request is queued, provided no earlier parent fetch has ended the listener |
| `Links.BuildSteemAccountLink` | utbot/utils.py:16-17 | the link is the base URL, `/@`, then the user name |
| `Links.AccountLinkRoundTrip` | utbot/utils.py:16-17 | the account name can be read back from the profile link |
| `Links.BuildCommentLink` | utbot/utils.py:12-13 | the link is the base URL followed by the comment's path |
| `Links.NonEmpty` | utbot/utils.py:43 | the filter keeps non-empty pieces of the input only, and all of them when none is empty |
| `Links.NormalizeItems` | utbot/utils.py:41-43 | one item per non-empty comma piece; each item is stripped of whitespace and holds no comma |
| `Links.NormalizeStr` | utbot/utils.py:41-44 | splitting the result back at `,` and stripping gives exactly the kept items |
| `Links.ReadBackJoined` | utbot/utils.py:44 | a `", "`-join of stripped, comma-free items splits back into those items |
| `Links.NormalizeIdempotent` | utbot/utils.py:41-44 | normalising twice equals normalising once, unless the first kept item is blank |
| `Links.NormalizeBlankFirstPiece` | utbot/utils.py:41-44 | `" ,a"` normalises to `", a"`, whose empty first item is why idempotence needs its condition |
| `Links.NormalizeDropsBlankFirstItem` | utbot/utils.py:41-44 | `", a"` normalises further, to `"a"` |
| `Links.AccountNames` | utbot/utils.py:47-53 | one name per non-empty comma piece, each stripped of blanks and `@` at both ends |
| `Links.MdLinks` | utbot/utils.py:50 | one `[name](profile link)` per name, in order |
| `Links.AccountNamesOfMentions` | utbot/utils.py:47-53 | for `"@a, @b, ..."` the names read back are exactly `a, b, ...` |
| `Links.MentionLinks` | utbot/utils.py:47-54 | linking a `", "`-joined list of mentions links each account exactly once, in order |
| `Links.AccountNamesOfAssigneeList` | utbot/utils.py:47-53 | for `"@a, b, c"`, the list shape the assignee pattern accepts, the names read back are exactly `a, b, c` |
| `Links.AssigneeListLinks` | utbot/utils.py:47-54 | linking such a list links each assignee exactly once, in order |
| `Text.Strip` | utbot/utils.py:43 | the result has no strippable character at either end, and it is what remains of the input after only strippable characters are removed from both ends |
| `Text.StripPadded` | utbot/utils.py:43 | stripping removes exactly the padding around a non-empty stripped core |
| `Text.StripOfStripped` | utbot/utils.py:43 | stripping a stripped string changes nothing |
| `Text.Split` | utbot/utils.py:42 | at least one piece, none holds the separator, and joining the pieces with the separator gives back the input |
| `Text.SplitJoin` | utbot/utils.py:42 | splitting a join of separator-free pieces returns those pieces |
| `Text.SplitJoinCommaSpace` | utbot/utils.py:44 | splitting a `", "`-join at `,` gives the first item, then each later item behind one blank |
| `Text.EqualsCIUpper` | utbot/constants.py:159 | strings equal up to ASCII case have the same upper-case form |
| `Grammar.StatusAt` | utbot/constants.py:148 | a status value matched is, ignoring case, `open`, `in progress` or `closed` |
| `Grammar.DeadlineAt` | utbot/constants.py:154 | a deadline value is exactly ten characters `DDDD-DD-DD`; any time suffix is consumed but left outside the value |
| `Grammar.QuotedAt` | utbot/constants.py:150-151 | a description or note value is non-empty text on one line, ending at the first quote after its first character |
| `Grammar.QuotedListAt` | utbot/constants.py:152-155 | a skills or assignees value has the shape of its group's repetition |
| `Grammar.BountyAt` | utbot/constants.py:149 | a bounty value is amounts and units: a digit comes first after any blanks, and the value ends in a word character or a comma |
| `Grammar.BountyValueShape` | utbot/constants.py:149 | scanned bounty items together have the bounty value shape |
| `Grammar.DiscordAt` | utbot/constants.py:153 | a discord value is `<@digits>`, `<@!digits>`, or one-line text ending in `#` and four digits |
| `Grammar.ValueAt` | utbot/constants.py:148-155 | the value matched after a keyword has that argument's shape and lies after the keyword |
| `Grammar.ArgAt` | utbot/constants.py:148-155 | a keyword, an optional `:`, then the value; the value has its argument's shape |
| `Grammar.TryArgs` | utbot/constants.py:147-156 | the first alternative that matches, in pattern order, and its value has that argument's shape |
| `Grammar.ClauseAt` | utbot/constants.py:147-156 | a clause needs leading whitespace, takes an optional `--` and a trailing `;`, and advances the position |
| `Grammar.ClausesValid` | utbot/constants.py:147-157 | every clause read has its argument's shape |
| `Grammar.Apply` | utbot/constants.py:147-156 | recording clauses keeps the token and help groups and keeps every set value well shaped |
| `Grammar.ApplyLastWins` | utbot/constants.py:147-156 | a group named in several clauses keeps the value of the last one |
| `Grammar.SetField` | utbot/constants.py:147-156 | recording a value sets that group and leaves every other group as it was |
| `Grammar.SkillListAccepted` | utbot/constants.py:152 | every list `skill1, skill2, ...` of skill names, the form the help text documents at line 175, is accepted by the skills pattern |
| `Grammar.AssigneeListAccepted` | utbot/constants.py:155 | every list `@name1, name2, ...` of names of `[\w\d.-]` characters, with `@` only before the first, is accepted by the assignees pattern |
| `Grammar.MentionListRejected` | utbot/constants.py:155 | as written, the list `@a, @b` that the help text documents at line 181 is rejected by the assignees pattern |
| `Grammar.MentionListAccepted` | utbot/constants.py:181 | corrected, with an optional `@` before each later name, the pattern accepts every list `@name1, @name2, ...` the help text documents |
| `Grammar.MentionListExtends` | utbot/constants.py:155 | the corrected pattern accepts every list the pattern as written accepts |
| `Grammar.FindCI` | utbot/utils.py:5 | the first position where the call token occurs ignoring case, or `None` when it occurs nowhere |
| `Grammar.HelpAt` | utbot/constants.py:144-146 | `help` is matched only after at least one blank or tab |
| `Grammar.ParseCommand` | utbot/utils.py:4-9 | `None` exactly when the token occurs nowhere in the text; otherwise the result is well formed: the token group is set and equals the token up to case, `help` excludes every argument group, and every set value has its group's shape |
| `Grammar.SetCountWithoutStatus` | utbot/utbot.py:330-333 | without help and status, "more than one group set" means exactly "some argument was given" |
| `Grammar.HelpExample` | utbot/constants.py:140-146 | `!ut help` sets the token and help groups and nothing else |
| `Usage.ExampleApplied` | utbot/constants.py:187-194 | the six clauses of `TASK_EXAMPLE`, taken in the written order, set exactly its six groups, each to its value, besides the token |
| `Usage.StatusValue` | utbot/constants.py:188 | wherever `open` follows the status keyword after one blank, the status alternative (line 148) reads exactly `open` |
| `Usage.BountyValue` | utbot/constants.py:189 | wherever `10 SBD` follows the bounty keyword after one blank, and then a blank and a next word that is no amount, the bounty alternative (line 149) reads exactly `10 SBD` |
| `Usage.QuotedValue` | utbot/constants.py:190 | wherever a quoted one-line text follows the description keyword after one blank, the description alternative (line 150) reads exactly the text between the quotes |
| `Usage.SkillsValue` | utbot/constants.py:191 | wherever a quoted skill list follows the skills keyword after one blank, the skills alternative (line 152) reads exactly the list between the quotes |
| `Usage.ExampleSkillsLang` | utbot/constants.py:191 | the example's skills `Python, Flask, Steem` have the shape the skills pattern accepts |
| `Usage.DeadlineValue` | utbot/constants.py:192 | wherever `2018-01-01` follows the deadline keyword after one blank, and no time part follows, the deadline alternative (line 154) reads exactly `2018-01-01` |
| `Usage.DiscordValue` | utbot/constants.py:193 | wherever `<@digits>` follows the discord keyword after one blank, the discord alternative (line 153) reads exactly `<@digits>` |
| `Grammar.StatusExample` | utbot/constants.py:147-148 | `!ut status: open` sets the token and status groups and nothing else |
| `Embeds.NamesElements` | utbot/utbot.py:84-100 | the name list of a field list has one name per field, in order |
| `Embeds.FieldValueAppend` | utbot/utbot.py:224-262 | looking a name up in two concatenated field lists finds the first list's field first |
| `Embeds.NoticeReadBack` | utbot/utbot.py:354-356 | the notice `[TAG] <link>` reads back as the upper-cased tag and the link |
| `Embeds.TaskFieldNames` | utbot/utbot.py:224-262 | the task embed lists exactly the fields its conditions select, in the order Task Type, Status, Required skills, Discord, Bounty, Due date, Assignees, Misc |
| `Embeds.ShownClosed` | utbot/utbot.py:232-233 | a closed task shows no field after the status |
| `Embeds.ShownOpen` | utbot/utbot.py:235-262 | any other task shows Bounty and Due date always, skills, discord and note when set, and assignees only in progress |
| `Embeds.TaskCategory` | utbot/utbot.py:199 | the post's task key is a key of `TASKS_PROPERTIES`, and it is `None` exactly when no tag is one |
| `Embeds.TaskColor` | utbot/utbot.py:203-204 | the colour of a task key is its hex colour decoded |
| `Embeds.BuildTaskEmbedWith` | utbot/utbot.py:191-264 | the title, author and footer; the description exactly when one is given; colour 0 and no thumbnail without a task category, otherwise the category's decoded colour and image; the selected field list |
| `Embeds.BuildTaskEmbed` | utbot/utbot.py:235-259 | as written: the skills and bounty values are joined character by character, and the assignees are mentioned character by character |
| `Embeds.BuildTaskEmbedFixed` | utbot/utbot.py:235-259 | skills and bounty are normalised comma lists, and the assignees string is linked name by name |
| `Embeds.StatusValue` | utbot/utbot.py:227-230 | with a status, the Status field is the status upper-cased |
| `Embeds.ParsedStatusShown` | utbot/utbot.py:227-233 | for a parsed status the Status field is `OPEN`, `IN PROGRESS` or `CLOSED`, and the embed is closed exactly when the status is `closed` up to case |
| `Embeds.StatusWord` | utbot/constants.py:148 | a status value upper-cases to one of the three words, and to `CLOSED` exactly for `closed` |
| `Embeds.SkillsValue` | utbot/utbot.py:235-237 | an open task with skills shows them under Required skills |
| `Embeds.BountyValue` | utbot/utbot.py:244-248 | an open task's Bounty is the given bounty, or `See the task details` |
| `Embeds.DueDateValue` | utbot/utbot.py:250-253 | an open task's Due date is the given deadline, or `Not specified` |
| `Embeds.AssigneesValue` | utbot/utbot.py:255-259 | a task in progress with assignees shows them, linked, under Assignees |
| `Embeds.ListValues` | utbot/utbot.py:235-259 | the four value facts above, for either list style |
| `Embeds.SkillsPerCharacter` | utbot/utbot.py:236 | as written, a single skill reads back as one item per character |
| `Embeds.SkillsPerItem` | utbot/utbot.py:236 | normalised, a single skill reads back as itself |
| `Embeds.SkillsExample` | utbot/utbot.py:236 | skills `Go` is shown as `G, o` as written and as `Go` when normalised |
| `Embeds.AssigneesPerCharacter` | utbot/utbot.py:257-258 | as written, `@name` is linked as an empty account, then one account per character of `name` |
| `Embeds.AssigneesPerItem` | utbot/utbot.py:257-258 | every list `"@" + ", ".join(names)` of assignee names is accepted by the pattern, and linked name by name it gives one link per assignee, in order |
| `Contributions.ContributionFields` | utbot/utbot.py:80-100 | six inline fields in the order Category, Reviewer, Score, Picked by staff, Created at, Reviewed at: the category upper-cased, or `UNKNOWN`; the reviewer, score and creation date when present and `Unknown` when missing; `Yes` exactly when staff-picked is `True`, `No` otherwise; the review date as given |
| `Contributions.CategoryColor` | utbot/utbot.py:67-68 | a category's colour is its hex colour decoded |
| `Contributions.BuildContributionEmbed` | utbot/utbot.py:63-102 | fails (a missing key) exactly for a non-empty category outside the table; otherwise it has the title and the six fields, colour 0 and no thumbnail without a category, the category's colour and image with one, and an author exactly when one is given |
| `Contributions.ContributionNoticeReadBack` | utbot/utbot_contributions.py:127 | the notice reads back as the upper-cased category and the contribution's URL |
| `Contributions.StrLessIrreflexive` | utbot/utbot_contributions.py:47 | no string is `<` itself |
| `Contributions.StrLessTransitive` | utbot/utbot_contributions.py:47 | string `<` is transitive |
| `Contributions.StrLessTotal` | utbot/utbot_contributions.py:111 | two different strings are ordered one way or the other |
| `Contributions.StrLessAsymmetric` | utbot/utbot_contributions.py:111 | string `<` never holds both ways |
| `Contributions.StrAtMostAntisymmetric` | utbot/utbot_contributions.py:111 | strings each at most the other are equal |
| `Contributions.FilterNewer` | utbot/utbot_contributions.py:42-51 | the kept contributions are an order-preserving subsequence of the batch: exactly those reviewed after the watermark, task requests included |
| `Contributions.FilterNewerCounts` | utbot/utbot_contributions.py:42-51 | each contribution reviewed after the watermark is kept as many times as the batch holds it, and no other contribution is kept |
| `Contributions.AdvanceBounds` | utbot/utbot_contributions.py:108-112 | the new watermark is at least the old one and every kept review date, and it is the old watermark or one of those dates |
| `Contributions.PutContributionsToQueue` | utbot/utbot_contributions.py:107-112 | the queue gains exactly the filtered contributions in order, and the watermark moves to their maximum |
| `Contributions.QueueEach` | utbot/utbot_contributions.py:108-112 | the loop queues every given contribution in order and keeps the latest review date |
| `Contributions.WatermarkMonotone` | utbot/utbot_contributions.py:111-112 | the watermark never moves back |
| `Contributions.RefilterEmpty` | utbot/utbot_contributions.py:107-112 | filtering the same batch against the advanced watermark keeps nothing |
| `Contributions.AdvanceOrderIndependent` | utbot/utbot_contributions.py:108-112 | any reordering of the batch gives the same new watermark after filtering |
| `Contributions.AdvancePermutation` | utbot/utbot_contributions.py:108-112 | the latest review date of a list of contributions does not depend on their order |
| `Contributions.SameShapeOrder` | utbot/utbot_contributions.py:19 | for strings of the same digit-and-separator shape, `<` is the order of their digit values |
| `Contributions.StampOrder` | utbot/utbot_contributions.py:19-22 | on `%Y-%m-%d %H:%M:%S` stamps, string order is chronological order |
| `SeenFilter.Touch` | utbot/utbot.py:52 | reading an author of the `defaultdict` adds an empty record for a new author and changes no lookup |
| `SeenFilter.Record` | utbot/utbot.py:164 | storing a review time changes that post's record and no other |
| `SeenFilter.Step` | utbot/utbot.py:154-164 | a contribution passes when its post's record (or the start time) plus six minutes is before its review and it is not a task request; a passed one is kept and recorded at its review time; the author key is created either way |
| `SeenFilter.StepMonotone` | utbot/utbot.py:157-164 | one turn never lowers a record and leaves other posts' records alone |
| `SeenFilter.Filter` | utbot/utbot.py:144-166 | the kept list is an order-preserving subsequence of the batch, with no task request in it |
| `SeenFilter.FilterAuthors` | utbot/utbot.py:155-158 | afterwards the record holds every earlier author and every author of the batch, and no one else |
| `SeenFilter.FilterMonotone` | utbot/utbot.py:154-164 | over a batch, records only grow, and posts the batch does not name keep theirs |
| `SeenFilter.FilterSettles` | utbot/utbot.py:157-164 | after a batch, no contribution of it would pass again |
| `SeenFilter.SettledPassesNothing` | utbot/utbot.py:157-163 | a batch of settled contributions passes nothing |
| `SeenFilter.SecondPassEmpty` | utbot/utbot.py:144-166 | filtering the same batch a second time returns the empty list |
| `Dispatch.DecideAsWritten` | utbot/utbot.py:315-359 | as written, every path ends in `task_done` or in a crash, and neither occurs earlier |
| `Dispatch.ReplySteps` | utbot/utbot.py:320-341 | the help and status-missing branches only reply, and never end the call |
| `Dispatch.PublishSteps` | utbot/utbot.py:349-358 | the publish path only sends the Steem summary and the Discord message, and never ends the call |
| `Dispatch.Decide` | utbot/utbot.py:315-359 | every path ends in exactly one `task_done`, and none crashes |
| `Dispatch.DecideBranches` | utbot/utbot.py:320-347 | a help reply exactly for an unanswered help command from someone other than the bot account; a status-missing reply exactly for an unanswered command with arguments but neither help nor status; nothing published without a status and a task category |
| `Dispatch.DecideHelpReply` | utbot/utbot.py:320-329 | the help message is replied exactly when the command has `help`, its author is not the bot account, and the bot has not replied to the comment yet |
| `Dispatch.DecideStatusMissingReply` | utbot/utbot.py:330-341 | the status-missing message is replied exactly when the command has neither `help` nor `status`, at least one other argument is given, and the bot has not replied to the comment yet |
| `Dispatch.StatusMissingReply` | utbot/utbot.py:330-341 | for a command with neither `help` nor `status`, "more than one group set" (the token plus something) means some argument was given, so the status-missing message goes out exactly then, unless the bot already replied |
| `Dispatch.DecidePublishes` | utbot/utbot.py:342-358 | a summary or Discord message is only sent for a command with a status on a request with a task category |
| `Dispatch.ProcessBranches` | utbot/utbot.py:306-359 | the help, status-missing and publishing facts of `Dispatch.DecideBranches`, for a queued comment and its task request |
| `Dispatch.ProcessEndsTask` | utbot/utbot.py:306-359 | in the corrected handler every queued comment ends with `task_done` as its last step, called once, and never fails |
| `Dispatch.TaskContentReadBack` | utbot/utbot.py:354-356 | the Discord content reads back as `OPEN`, `IN PROGRESS` or `CLOSED` and the request's link |
| `Dispatch.PublishedMessage` | utbot/utbot.py:353-358 | with a webhook, a command with a status under a task request posts the status notice and the task embed |
| `Dispatch.DecideAgrees` | utbot/utbot.py:320-359 | the two handlers agree except on a help command by the bot account |
| `Dispatch.HelpByAccountCrashes` | utbot/utbot.py:320-355 | as written, a help command by the bot account under a task request with a webhook fails at the status and never calls `task_done`; corrected, it only ends the task |
| `Dispatch.HelpCommentCrashes` | utbot/utbot.py:313-355 | the crash happens for the bot account's comment `!ut help` |
| `Dispatch.StatusCommentPublishes` | utbot/utbot.py:313-358 | the comment `!ut status: open` under a task request posts `[OPEN] <link>` to Discord |
| `Summary.AsDict` | utbot/utils.py:9 | the group dictionary holds every group name, each with its parsed value |
| `Summary.Merge` | utbot/utbot.py:367-368 | the merged metadata takes every parsed group's value and keeps every other old key |
| `Summary.MergeIdempotent` | utbot/utbot.py:365-368 | merging again on a retry changes nothing, so every attempt sends the same metadata |
| `Summary.Attempt` | utbot/utbot.py:366-390 | an edit carrying the merged metadata when a prior reply exists, otherwise a post carrying the parsed command, both under the bot's name |
| `Summary.AttemptsBound` | utbot/utbot.py:365-398 | at most `retry` attempts; every attempt before the last failed; fewer than `retry` only when the last succeeded |
| `Summary.SendSummaryToSteem` | utbot/utbot.py:362-398 | the attempts made, each one the same write; it reports success exactly when the last attempt succeeded, and when it fails it has used all `retry` tries |

## Left out

- Python's regex engine is not modelled. The scanner computes the first match of `CMD_RE` directly, with `\w`, `\d` and case folding limited to ASCII and `\s` taken as the characters `str.isspace` accepts. That the scanner agrees with the engine is argued in `Grammar`'s header comment, not proved.
- Grammar.ParseCommand: `MULTILINE` has no effect on this pattern, so it is ignored.
- Threads, `infinite_loop`, `background`, `main` and the queues' thread safety are left out (concurrency). Queue effects appear only as the list of queued items and the `task_done` action.
- Block streaming, `Comment(...)` and `get_parent` are left out (network). Their results are the inputs of `Tags.Ingest`: a fetched pair, a caught `Comment(...)` failure, or an uncaught failure of `get_parent` or a `url` read, which ends the listener.
- `replied_to_comment` and `reply_message` are inputs (`Dispatch.Replies`) or actions, because they talk to Steem.
- `build_bot_tr_message` is not part of this model, so a summary write carries its metadata only.
- `get_author_perm_from_url` is not part of this model. It is the parameter `locate` of `SeenFilter.Filter`.
- `datetime.strptime` is the parameter `reviewed`, and times are integer seconds.
- `fetch_to_vote_contributions` in both files and the HTTP session are left out (network, sleeps). So is `process_reviewed_contributions`, whose body `<url>` and embed are sent without decisions.
- `send_message_to_discord`, `DiscordEmbed` and `DiscordWebhook` are left out (webhook transport). An embed is a datatype, and sending is an action.
- `set_timestamp` is left out (wall clock).
- The `Account(...)` lookups and the `authors` cache in utbot/utbot_contributions.py are left out (foreign calls). That file's `build_contribution_embed` always sets an author from that lookup, and that is not modelled.
- Contributions.BuildContributionEmbed: the model follows utbot/utbot.py:63-102, where the author is set only when present.
- Contributions.ContributionFields: the score is taken as the text `str(...)` would produce, because Python's number formatting is not modelled.
- Contributions.ContributionFields: a key present with JSON `null` makes `.get` return `None`, shown as `None`; the model folds it into a missing value, shown as `Unknown`.
- Categories.ParseHex: `int(s, 16)` also accepts surrounding whitespace, a sign, a `0x` prefix and underscores between digits; only strings of plain hex digits and other characters are modelled, and the colours of `CATEGORIES_PROPERTIES` use none of those forms.
- Grammar.FindCI: `BOT_PREFIX + BOT_NAME` is put into a `VERBOSE` pattern without escaping (utbot/constants.py:140), so a token holding blanks, `#` or regex metacharacters would be read as pattern syntax; the model matches the token literally, ignoring ASCII case.
- Text.Upper: only ASCII letters are upper-cased; `str.upper` maps every Unicode cased letter.
- Usage.ExampleApplied: the whole of `MSG_TASK_EXAMPLE_ONE_LINE` and `MSG_TASK_EXAMPLE_MULT_LINES` read by `parse_command` (separators, the order the alternatives are tried in, the clause sequence) is not proved; only each value as its own alternative reads it, and the effect of the six clauses.
- Config loading, Steem node setup and the message texts are left out. `MESSAGES` become the tags `Help` and `StatusMissing`.
- `setup.py`, logging and `print` are left out.
- Summary.SendSummaryToSteem: failures are given as a sequence of outcomes, and the exception types are not modelled.
- Summary.Attempt: the reply body from `build_bot_tr_message` is not part of the write.

## Findings

| source | as written | input that shows it | evidently intended | confidence | as-written member | corrected member |
|---|---|---|---|---|---|---|
| utbot/utbot.py:236 | `", ".join(cmds_args["skills"])` joins a string, so it interleaves `", "` between its characters (likewise bounty at line 245) | skills `"Go"` is shown as `G, o` | the comma-separated skills, normalised (`Go`) | high; not executed | `Embeds.BuildTaskEmbed` (with `Embeds.SkillsPerCharacter`, `Embeds.SkillsExample`) | `Embeds.BuildTaskEmbedFixed` (with `Embeds.SkillsPerItem`) |
| utbot/utbot.py:257 | the comprehension iterates the characters of the assignees string | assignees `"@ab"` links the accounts `""`, `a` and `b` | one link per assignee | high; not executed | `Embeds.BuildTaskEmbed` (with `Embeds.AssigneesPerCharacter`) | `Embeds.BuildTaskEmbedFixed` (with `Embeds.AssigneesPerItem`) |
| utbot/utbot.py:320-355 | a help command by `ACCOUNT` skips the help branch, skips the status-missing branch (help is set), and reaches line 355 with status `None`; `.upper()` raises, and `task_done` is never called | the bot account, listed in `ACCOUNTS` (utbot.py:285) so its comments are processed, comments `!ut help` under a task request while a task webhook is set | a help command only ends the task | high; not executed | `Dispatch.DecideAsWritten` (with `Dispatch.HelpByAccountCrashes`, `Dispatch.HelpCommentCrashes`) | `Dispatch.Decide` (with `Dispatch.DecideBranches`) |
| utbot/constants.py:181 | the help text documents assignees as `@name1[, @name2, ...]`, but the pattern at line 155 allows `@` only before the first name (the help text also leaves out the double quotes the pattern requires) | assignees `"@a, @b"` is not matched, so the clause is not read | the documented list is accepted, and its names are linked one by one | high; not executed | `Grammar.MentionListRejected` | `Grammar.MentionListLang` (with `Grammar.MentionListAccepted`, `Grammar.MentionListExtends`, `Links.MentionLinks`) |
