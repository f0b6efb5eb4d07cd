/**
 * The Discord embeds the bots publish: the task-request embed
 * (`build_discord_tr_embed`), the reviewed-contribution embed
 * (`build_contribution_embed`), and the one-line notice that goes with each.
 * An embed is modelled as its visible parts: title, description, colour,
 * thumbnail, author, footer and the ordered `(name, value, inline)` fields.
 */
module Embeds {
  import opened Wrappers
  import opened Text
  import Categories
  import Tags
  import Links
  import Grammar

  datatype Field = Field(name: string, value: string, inline: bool)

  datatype Author = Author(name: string, url: string, iconUrl: string)

  datatype Embed = Embed(
    title: Option<string>,
    description: Option<string>,
    color: nat,
    thumbnail: Option<string>,
    author: Option<Author>,
    footer: Option<string>,
    fields: seq<Field>)

  /** The field names, in order. */
  function Names(fields: seq<Field>): seq<string>
    decreases |fields|
  {
    if |fields| == 0 then [] else [fields[0].name] + Names(fields[1..])
  }

  /** The names are the fields' names, one per field, in order. */
  lemma {:induction false} NamesElements(fields: seq<Field>)
    ensures |Names(fields)| == |fields|
    ensures forall i :: 0 <= i < |fields| ==> Names(fields)[i] == fields[i].name
    decreases |fields|
  {
    if |fields| > 0 {
      NamesElements(fields[1..]);
    }
  }

  /** The value of the first field called `name`, if any. */
  function FieldValue(fields: seq<Field>, name: string): Option<string>
    decreases |fields|
  {
    if |fields| == 0 then None
    else if fields[0].name == name then Some(fields[0].value)
    else FieldValue(fields[1..], name)
  }

  /** A lookup fails exactly when no field has the name. */
  lemma {:induction false} FieldValueNone(fields: seq<Field>, name: string)
    ensures FieldValue(fields, name).None? <==> name !in Names(fields)
    decreases |fields|
  {
    if |fields| > 0 {
      assert Names(fields) == [fields[0].name] + Names(fields[1..]);
      FieldValueNone(fields[1..], name);
    }
  }

  lemma {:induction false} NamesAppend(a: seq<Field>, b: seq<Field>)
    ensures Names(a + b) == Names(a) + Names(b)
    decreases |a|
  {
    if |a| > 0 {
      assert (a + b)[1..] == a[1..] + b;
      NamesAppend(a[1..], b);
    } else {
      assert a + b == b;
    }
  }

  lemma {:induction false} FieldValueAppend(a: seq<Field>, b: seq<Field>, name: string)
    ensures FieldValue(a + b, name) == if name in Names(a) then FieldValue(a, name) else FieldValue(b, name)
    decreases |a|
  {
    if |a| > 0 {
      assert (a + b)[0] == a[0];
      assert (a + b)[1..] == a[1..] + b;
      if a[0].name != name {
        FieldValueAppend(a[1..], b, name);
        assert Names(a) == [a[0].name] + Names(a[1..]);
      }
    } else {
      assert a + b == b;
    }
  }

  function AvatarUrl(author: string): string {
    "https://steemitimages.com/u/" + author + "/avatar"
  }

  function AuthorOf(uiBase: string, name: string): Author {
    Author(name, Links.BuildSteemAccountLink(uiBase, name), AvatarUrl(name))
  }

  /** A Python string in a truth test: present and not empty. */
  predicate Truthy(o: Option<string>) {
    o.Some? && o.value != ""
  }

  // ---------------------------------------------------------------------------
  // The one-line notice

  /** `f"[{tag.upper()}] <{link}>"`: the message text posted above an embed. */
  function Notice(tag: string, link: string): (r: string)
    ensures |r| == |tag| + |link| + 5
  {
    "[" + Upper(tag) + "] <" + link + ">"
  }

  /** Reads a notice back into its upper-cased tag and its link, splitting at the first `]`. */
  function ReadNotice(m: string): Option<(string, string)> {
    if |m| < 4 || m[0] != '[' || m[|m| - 1] != '>' then None
    else
      match FirstIndex(m, ']', 1)
      case None => None
      case Some(j) =>
        if j + 2 < |m| && m[j + 1] == ' ' && m[j + 2] == '<' then Some((m[1..j], m[j + 3..|m| - 1]))
        else None
  }

  function FirstIndex(s: string, c: char, i: nat): (r: Option<nat>)
    ensures r.Some? ==> i <= r.value < |s| && s[r.value] == c && forall k :: i <= k < r.value ==> s[k] != c
    ensures r.None? ==> forall k :: i <= k < |s| ==> s[k] != c
    decreases |s| - i
  {
    if i >= |s| then None else if s[i] == c then Some(i) else FirstIndex(s, c, i + 1)
  }

  /**
   * A notice whose tag has no `]` (every category and status the bots
   * tag with) can be read back into the upper-cased tag and the link.
   */
  lemma {:induction false} NoticeReadBack(tag: string, link: string)
    requires ']' !in tag
    ensures ReadNotice(Notice(tag, link)) == Some((Upper(tag), link))
  {
    var m := Notice(tag, link);
    var u := Upper(tag);
    assert ']' !in u by {
      forall k | 0 <= k < |u|
        ensures u[k] != ']'
      {
        assert tag[k] != ']';
      }
    }
    assert forall k :: 1 <= k < |u| + 1 ==> m[k] == u[k - 1];
    assert m[|u| + 1] == ']';
    assert FirstIndex(m, ']', 1) == Some(|u| + 1);
    assert m[1..|u| + 1] == u;
    assert m[|u| + 4..|m| - 1] == link;
  }

  // ---------------------------------------------------------------------------
  // Task-request embed

  /** How list-like values are turned into text: by character, or by comma-separated item. */
  datatype ListStyle = PerCharacter | PerItem

  /** Iterating a Python string: its characters, each as a one-character string. */
  function CharItems(s: string): (r: seq<string>)
    ensures |r| == |s|
    ensures forall i :: 0 <= i < |s| ==> r[i] == [s[i]]
  {
    seq(|s|, i requires 0 <= i < |s| => [s[i]])
  }

  /** `", ".join(value)` on a string value, or the comma-separated items of the value. */
  function ListText(style: ListStyle, v: string): string {
    match style
    case PerCharacter => Join(", ", CharItems(v))
    case PerItem => Links.NormalizeStr(v)
  }

  /** The assignee links: one per character of the value, or one per comma-separated name. */
  function AssigneesText(style: ListStyle, uiBase: string, v: string): string {
    match style
    case PerCharacter => Links.AccountsStrToMdLinks(uiBase, Join(", ", Links.Mentions(CharItems(v))))
    case PerItem => Links.AccountsStrToMdLinks(uiBase, v)
  }

  /** `status and status.upper() == "CLOSED"`. */
  predicate IsClosed(args: Grammar.ParsedCmd) {
    Truthy(args.status) && Upper(args.status.value) == "CLOSED"
  }

  /** `status and status.upper() == "IN PROGRESS"`. */
  predicate IsInProgress(args: Grammar.ParsedCmd) {
    Truthy(args.status) && Upper(args.status.value) == "IN PROGRESS"
  }

  const DefaultBounty := "See the task details"
  const DefaultDeadline := "Not specified"
  const TaskFooter := "Verified by Utopian.io team"

  /** The fields a task embed can carry. */
  datatype TaskField = TaskType | Status | RequiredSkills | Discord | Bounty | DueDate | Assignees | Misc

  function Title(k: TaskField): string {
    match k
    case TaskType => "Task Type"
    case Status => "Status"
    case RequiredSkills => "Required skills"
    case Discord => "Discord"
    case Bounty => "Bounty"
    case DueDate => "Due date"
    case Assignees => "Assignees"
    case Misc => "Misc"
  }

  function Titles(ks: seq<TaskField>): seq<string>
    decreases |ks|
  {
    if |ks| == 0 then [] else [Title(ks[0])] + Titles(ks[1..])
  }

  function OptField(b: bool, f: Field): seq<Field> {
    if b then [f] else []
  }

  function Opt(b: bool, k: TaskField): seq<TaskField> {
    if b then [k] else []
  }

  /** The field list of a task embed, with `taskType` the category's name when the post has a task tag. */
  function TaskFields(style: ListStyle, uiBase: string, taskType: Option<string>, args: Grammar.ParsedCmd): seq<Field> {
    var head :=
      OptField(taskType.Some?, Field(Title(TaskType), Upper(taskType.GetOr("")), true))
      + OptField(args.status.Some?, Field(Title(Status), Upper(args.status.GetOr("")), true));
    if IsClosed(args) then head else head + OpenTaskFields(style, uiBase, args)
  }

  /** The fields after the status, which a closed task does not get. */
  function OpenTaskFields(style: ListStyle, uiBase: string, args: Grammar.ParsedCmd): seq<Field> {
    SkillsSeg(style, args) + (DiscordSeg(args) + (BountySeg(style, args) + (DueDateSeg(args) + (AssigneesSeg(style, uiBase, args) + MiscSeg(args)))))
  }

  function SkillsSeg(style: ListStyle, args: Grammar.ParsedCmd): seq<Field> {
    OptField(Truthy(args.skills), Field(Title(RequiredSkills), ListText(style, args.skills.GetOr("")), true))
  }

  function DiscordSeg(args: Grammar.ParsedCmd): seq<Field> {
    OptField(Truthy(args.discord), Field(Title(Discord), args.discord.GetOr(""), true))
  }

  function BountySeg(style: ListStyle, args: Grammar.ParsedCmd): seq<Field> {
    [Field(Title(Bounty), if Truthy(args.bounty) then ListText(style, args.bounty.value) else DefaultBounty, true)]
  }

  function DueDateSeg(args: Grammar.ParsedCmd): seq<Field> {
    [Field(Title(DueDate), if Truthy(args.deadline) then args.deadline.value else DefaultDeadline, true)]
  }

  function AssigneesSeg(style: ListStyle, uiBase: string, args: Grammar.ParsedCmd): seq<Field> {
    OptField(IsInProgress(args) && Truthy(args.assignees), Field(Title(Assignees), AssigneesText(style, uiBase, args.assignees.GetOr("")), false))
  }

  function MiscSeg(args: Grammar.ParsedCmd): seq<Field> {
    OptField(args.note.Some?, Field(Title(Misc), args.note.GetOr(""), false))
  }

  /** The order in which a task embed may show its fields. */
  const TaskFieldOrder: seq<TaskField> := [TaskType, Status, RequiredSkills, Discord, Bounty, DueDate, Assignees, Misc]

  /** Whether a task embed shows field `k`. */
  predicate Shows(k: TaskField, taskType: Option<string>, args: Grammar.ParsedCmd) {
    match k
    case TaskType => taskType.Some?
    case Status => args.status.Some?
    case RequiredSkills => !IsClosed(args) && Truthy(args.skills)
    case Discord => !IsClosed(args) && Truthy(args.discord)
    case Bounty => !IsClosed(args)
    case DueDate => !IsClosed(args)
    case Assignees => !IsClosed(args) && IsInProgress(args) && Truthy(args.assignees)
    case Misc => !IsClosed(args) && args.note.Some?
  }

  /** The fields of `TaskFieldOrder[i..]` a task embed shows, in order. */
  function ShownFrom(i: nat, taskType: Option<string>, args: Grammar.ParsedCmd): seq<TaskField>
    decreases |TaskFieldOrder| - i
  {
    if i >= |TaskFieldOrder| then []
    else Opt(Shows(TaskFieldOrder[i], taskType, args), TaskFieldOrder[i]) + ShownFrom(i + 1, taskType, args)
  }

  /**
   * The task embed lists exactly the fields `Shows` selects, in
   * `TaskFieldOrder`: a closed task gets the type and status only; any other
   * gets bounty and due date always and the rest when their values are set.
   */
  lemma {:induction false} TaskFieldNames(style: ListStyle, uiBase: string, taskType: Option<string>, args: Grammar.ParsedCmd)
    ensures Names(TaskFields(style, uiBase, taskType, args)) == Titles(ShownFrom(0, taskType, args))
  {
    var typeF := OptField(taskType.Some?, Field(Title(TaskType), Upper(taskType.GetOr("")), true));
    var statusF := OptField(args.status.Some?, Field(Title(Status), Upper(args.status.GetOr("")), true));
    var head := Opt(taskType.Some?, TaskType) + Opt(args.status.Some?, Status);
    NamesOpt(taskType.Some?, typeF, TaskType, Opt(taskType.Some?, TaskType));
    NamesOpt(args.status.Some?, statusF, Status, Opt(args.status.Some?, Status));
    NamesCons(typeF, statusF, Opt(taskType.Some?, TaskType), Opt(args.status.Some?, Status));
    ShownHead(taskType, args);
    AppendAssoc(Opt(taskType.Some?, TaskType), Opt(args.status.Some?, Status), ShownFrom(2, taskType, args));
    if !IsClosed(args) {
      var open := OpenKinds(taskType, args);
      OpenTaskFieldNames(style, uiBase, args, taskType);
      NamesAppend(typeF + statusF, OpenTaskFields(style, uiBase, args));
      ShownOpen(taskType, args);
      TitlesAppend(head, open);
    } else {
      ShownClosed(taskType, args);
      assert head + [] == head;
    }
  }

  lemma {:induction false} AppendAssoc(a: seq<TaskField>, b: seq<TaskField>, c: seq<TaskField>)
    ensures a + (b + c) == a + b + c
  {
  }

  lemma {:induction false} TitlesAppend(a: seq<TaskField>, b: seq<TaskField>)
    ensures Titles(a + b) == Titles(a) + Titles(b)
    decreases |a|
  {
    if |a| > 0 {
      assert (a + b)[1..] == a[1..] + b;
      TitlesAppend(a[1..], b);
    } else {
      assert a + b == b;
    }
  }

  function OpenKinds(taskType: Option<string>, args: Grammar.ParsedCmd): seq<TaskField> {
    Opt(Shows(RequiredSkills, taskType, args), RequiredSkills)
    + (Opt(Shows(Discord, taskType, args), Discord)
    + ([Bounty]
    + ([DueDate]
    + (Opt(Shows(Assignees, taskType, args), Assignees)
    + Opt(Shows(Misc, taskType, args), Misc)))))
  }

  lemma {:induction false} ShownStep(i: nat, taskType: Option<string>, args: Grammar.ParsedCmd)
    requires i < |TaskFieldOrder|
    ensures ShownFrom(i, taskType, args) == Opt(Shows(TaskFieldOrder[i], taskType, args), TaskFieldOrder[i]) + ShownFrom(i + 1, taskType, args)
  {
  }

  lemma {:induction false} ShownHead(taskType: Option<string>, args: Grammar.ParsedCmd)
    ensures ShownFrom(0, taskType, args) == Opt(taskType.Some?, TaskType) + (Opt(args.status.Some?, Status) + ShownFrom(2, taskType, args))
  {
    ShownStep(0, taskType, args);
    ShownStep(1, taskType, args);
    assert TaskFieldOrder[0] == TaskType && TaskFieldOrder[1] == Status;
  }

  lemma {:induction false} ShownClosed(taskType: Option<string>, args: Grammar.ParsedCmd)
    requires IsClosed(args)
    ensures ShownFrom(2, taskType, args) == []
  {
    assert ShownFrom(8, taskType, args) == [];
    assert ShownFrom(7, taskType, args) == [];
    assert ShownFrom(6, taskType, args) == [];
    assert ShownFrom(5, taskType, args) == [];
    assert ShownFrom(4, taskType, args) == [];
    assert ShownFrom(3, taskType, args) == [];
  }

  lemma {:induction false} ShownOpen(taskType: Option<string>, args: Grammar.ParsedCmd)
    requires !IsClosed(args)
    ensures ShownFrom(2, taskType, args) == OpenKinds(taskType, args)
  {
    assert ShownFrom(8, taskType, args) == [];
    assert ShownFrom(7, taskType, args) == Opt(Shows(Misc, taskType, args), Misc);
    assert ShownFrom(6, taskType, args) == Opt(Shows(Assignees, taskType, args), Assignees) + ShownFrom(7, taskType, args);
    assert ShownFrom(5, taskType, args) == [DueDate] + ShownFrom(6, taskType, args);
    assert ShownFrom(4, taskType, args) == [Bounty] + ShownFrom(5, taskType, args);
    assert ShownFrom(3, taskType, args) == Opt(Shows(Discord, taskType, args), Discord) + ShownFrom(4, taskType, args);
  }

  lemma {:induction false} OpenTaskFieldNames(style: ListStyle, uiBase: string, args: Grammar.ParsedCmd, taskType: Option<string>)
    requires !IsClosed(args)
    ensures Names(OpenTaskFields(style, uiBase, args)) == Titles(OpenKinds(taskType, args))
  {
    var s, d, b, u, a, m := SkillsSeg(style, args), DiscordSeg(args), BountySeg(style, args), DueDateSeg(args), AssigneesSeg(style, uiBase, args), MiscSeg(args);
    var ks := Opt(Shows(RequiredSkills, taskType, args), RequiredSkills);
    var kd := Opt(Shows(Discord, taskType, args), Discord);
    var ka := Opt(Shows(Assignees, taskType, args), Assignees);
    var km := Opt(Shows(Misc, taskType, args), Misc);
    SegmentNames(style, uiBase, args, taskType);
    NamesCons(a, m, ka, km);
    NamesCons(u, a + m, [DueDate], ka + km);
    NamesCons(b, u + (a + m), [Bounty], [DueDate] + (ka + km));
    NamesCons(d, b + (u + (a + m)), kd, [Bounty] + ([DueDate] + (ka + km)));
    NamesCons(s, d + (b + (u + (a + m))), ks, kd + ([Bounty] + ([DueDate] + (ka + km))));
  }

  /** Each segment of an open task's fields is named as its kind. */
  lemma {:induction false} SegmentNames(style: ListStyle, uiBase: string, args: Grammar.ParsedCmd, taskType: Option<string>)
    requires !IsClosed(args)
    ensures Names(SkillsSeg(style, args)) == Titles(Opt(Shows(RequiredSkills, taskType, args), RequiredSkills))
    ensures Names(DiscordSeg(args)) == Titles(Opt(Shows(Discord, taskType, args), Discord))
    ensures Names(BountySeg(style, args)) == Titles([Bounty])
    ensures Names(DueDateSeg(args)) == Titles([DueDate])
    ensures Names(AssigneesSeg(style, uiBase, args)) == Titles(Opt(Shows(Assignees, taskType, args), Assignees))
    ensures Names(MiscSeg(args)) == Titles(Opt(Shows(Misc, taskType, args), Misc))
  {
    NamesOpt(Truthy(args.skills), SkillsSeg(style, args), RequiredSkills, Opt(Shows(RequiredSkills, taskType, args), RequiredSkills));
    NamesOpt(Truthy(args.discord), DiscordSeg(args), Discord, Opt(Shows(Discord, taskType, args), Discord));
    NamesOpt(true, BountySeg(style, args), Bounty, [Bounty]);
    TailSegmentNames(style, uiBase, args, taskType);
  }

  lemma {:induction false} TailSegmentNames(style: ListStyle, uiBase: string, args: Grammar.ParsedCmd, taskType: Option<string>)
    requires !IsClosed(args)
    ensures Names(DueDateSeg(args)) == Titles([DueDate])
    ensures Names(AssigneesSeg(style, uiBase, args)) == Titles(Opt(Shows(Assignees, taskType, args), Assignees))
    ensures Names(MiscSeg(args)) == Titles(Opt(Shows(Misc, taskType, args), Misc))
  {
    NamesOpt(true, DueDateSeg(args), DueDate, [DueDate]);
    NamesOpt(IsInProgress(args) && Truthy(args.assignees), AssigneesSeg(style, uiBase, args), Assignees, Opt(Shows(Assignees, taskType, args), Assignees));
    NamesOpt(args.note.Some?, MiscSeg(args), Misc, Opt(Shows(Misc, taskType, args), Misc));
  }

  lemma {:induction false} NamesOpt(b: bool, fs: seq<Field>, k: TaskField, ks: seq<TaskField>)
    requires |fs| <= 1 && (|fs| == 1 <==> b) && (b ==> fs[0].name == Title(k))
    requires ks == Opt(b, k)
    ensures Names(fs) == Titles(ks)
  {
  }

  lemma {:induction false} NamesCons(f: seq<Field>, r: seq<Field>, kf: seq<TaskField>, kr: seq<TaskField>)
    requires Names(f) == Titles(kf) && Names(r) == Titles(kr)
    ensures Names(f + r) == Titles(kf + kr)
  {
    NamesAppend(f, r);
    TitlesAppend(kf, kr);
  }

  /** The task category a root post is filed under, and its table entry. */
  function TaskCategory(root: Tags.Comment): (r: Option<string>)
    ensures r.Some? ==> r.value in Categories.TasksProperties
    ensures r.None? <==> !Tags.HasTagIn(root.tags, Categories.TasksProperties.Keys)
  {
    Tags.GetCategory(root.tags, Categories.TasksProperties.Keys)
  }

  /** `int(TASKS_PROPERTIES[category]["color"][1:], 16)`, which every task colour decodes to. */
  function TaskColor(tk: string): (c: nat)
    requires tk in Categories.TasksProperties
    ensures Categories.ColorValue(Categories.TasksProperties[tk].color) == Some(c)
  {
    Categories.TaskColorsDecode();
    Categories.ColorValue(Categories.TasksProperties[tk].color).value
  }

  /**
   * `build_discord_tr_embed`, with list values rendered in `style`: the
   * post's title, the description when given, the post author, the task
   * category's colour and image (none when the post has no task tag), the
   * fixed footer and the task fields.
   */
  function BuildTaskEmbedWith(style: ListStyle, uiBase: string, root: Tags.Comment, args: Grammar.ParsedCmd): (e: Embed)
    ensures e.title == Some(root.title) && e.footer == Some(TaskFooter)
    ensures e.author == Some(AuthorOf(uiBase, root.author))
    ensures e.description.Some? <==> Truthy(args.description)
    ensures e.description.Some? ==> e.description == args.description
    ensures TaskCategory(root).None? ==> e.color == 0 && e.thumbnail.None?
    ensures TaskCategory(root).Some? ==>
      && Some(e.color) == Categories.ColorValue(Categories.TasksProperties[TaskCategory(root).value].color)
      && e.thumbnail == Some(Categories.TasksProperties[TaskCategory(root).value].imageUrl)
    ensures Names(e.fields) == Titles(ShownFrom(0, TaskTypeOf(root), args))
    ensures e.fields == TaskFields(style, uiBase, TaskTypeOf(root), args)
  {
    var category := TaskCategory(root);
    var fields := TaskFields(style, uiBase, TaskTypeOf(root), args);
    TaskFieldNames(style, uiBase, TaskTypeOf(root), args);
    Embed(
      Some(root.title),
      if Truthy(args.description) then args.description else None,
      if category.Some? then TaskColor(category.value) else 0,
      if category.Some? then Some(Categories.TasksProperties[category.value].imageUrl) else None,
      Some(AuthorOf(uiBase, root.author)),
      Some(TaskFooter),
      fields)
  }

  /** The category name of the post's task tag, shown as the task type. */
  function TaskTypeOf(root: Tags.Comment): Option<string> {
    match TaskCategory(root)
    case Some(tk) => Some(Categories.TasksProperties[tk].category)
    case None => None
  }

  /** The builder as written: string values are iterated, and so joined, character by character. */
  function BuildTaskEmbed(uiBase: string, root: Tags.Comment, args: Grammar.ParsedCmd): (e: Embed)
    ensures Names(e.fields) == Titles(ShownFrom(0, TaskTypeOf(root), args))
    ensures Truthy(args.skills) && !IsClosed(args) ==>
      FieldValue(e.fields, "Required skills") == Some(Join(", ", CharItems(args.skills.value)))
    ensures Truthy(args.bounty) && !IsClosed(args) ==>
      FieldValue(e.fields, "Bounty") == Some(Join(", ", CharItems(args.bounty.value)))
    ensures IsInProgress(args) && Truthy(args.assignees) ==>
      FieldValue(e.fields, "Assignees") == Some(Links.AccountsStrToMdLinks(uiBase, Join(", ", Links.Mentions(CharItems(args.assignees.value)))))
  {
    var e := BuildTaskEmbedWith(PerCharacter, uiBase, root, args);
    ListValues(PerCharacter, uiBase, TaskTypeOf(root), args);
    e
  }

  /** The builder with list values read as comma-separated items, as their help text describes them. */
  function BuildTaskEmbedFixed(uiBase: string, root: Tags.Comment, args: Grammar.ParsedCmd): (e: Embed)
    ensures Names(e.fields) == Titles(ShownFrom(0, TaskTypeOf(root), args))
    ensures Truthy(args.skills) && !IsClosed(args) ==>
      FieldValue(e.fields, "Required skills") == Some(Links.NormalizeStr(args.skills.value))
    ensures Truthy(args.bounty) && !IsClosed(args) ==>
      FieldValue(e.fields, "Bounty") == Some(Links.NormalizeStr(args.bounty.value))
    ensures IsInProgress(args) && Truthy(args.assignees) ==>
      FieldValue(e.fields, "Assignees") == Some(Links.AccountsStrToMdLinks(uiBase, args.assignees.value))
  {
    var e := BuildTaskEmbedWith(PerItem, uiBase, root, args);
    ListValues(PerItem, uiBase, TaskTypeOf(root), args);
    e
  }

  // ---------------------------------------------------------------------------
  // Field values

  function HeadFields(taskType: Option<string>, args: Grammar.ParsedCmd): seq<Field> {
    OptField(taskType.Some?, Field(Title(TaskType), Upper(taskType.GetOr("")), true))
    + OptField(args.status.Some?, Field(Title(Status), Upper(args.status.GetOr("")), true))
  }

  /** A field after the status is looked up among the open-task fields. */
  lemma {:induction false} PastHead(style: ListStyle, uiBase: string, taskType: Option<string>, args: Grammar.ParsedCmd, name: string)
    requires name != Title(TaskType) && name != Title(Status) && !IsClosed(args)
    ensures FieldValue(TaskFields(style, uiBase, taskType, args), name) == FieldValue(OpenTaskFields(style, uiBase, args), name)
  {
    var typeF := OptField(taskType.Some?, Field(Title(TaskType), Upper(taskType.GetOr("")), true));
    var statusF := OptField(args.status.Some?, Field(Title(Status), Upper(args.status.GetOr("")), true));
    NamesAppend(typeF, statusF);
    assert name !in Names(typeF + statusF);
    FieldValueAppend(typeF + statusF, OpenTaskFields(style, uiBase, args), name);
  }

  /** The status field shows the status in upper case. */
  lemma {:induction false} StatusValue(style: ListStyle, uiBase: string, taskType: Option<string>, args: Grammar.ParsedCmd)
    requires args.status.Some?
    ensures FieldValue(TaskFields(style, uiBase, taskType, args), "Status") == Some(Upper(args.status.value))
  {
    var typeF := OptField(taskType.Some?, Field(Title(TaskType), Upper(taskType.GetOr("")), true));
    var statusF := OptField(args.status.Some?, Field(Title(Status), Upper(args.status.GetOr("")), true));
    var rest := if IsClosed(args) then [] else OpenTaskFields(style, uiBase, args);
    assert TaskFields(style, uiBase, taskType, args) == typeF + statusF + rest by {
      if IsClosed(args) {
        assert typeF + statusF + [] == typeF + statusF;
      }
    }
    StatusInHead(typeF, statusF, rest, Upper(args.status.value));
  }

  /** The status field comes right after the optional type field. */
  lemma {:induction false} StatusInHead(typeF: seq<Field>, statusF: seq<Field>, rest: seq<Field>, v: string)
    requires |typeF| <= 1 && (|typeF| == 1 ==> typeF[0].name == "Task Type")
    requires statusF == [Field("Status", v, true)]
    ensures FieldValue(typeF + statusF + rest, "Status") == Some(v)
  {
    assert typeF + statusF + rest == typeF + (statusF + rest);
    SkipSeg(typeF, statusF + rest, "Status");
    FirstField(statusF[0], rest);
  }

  /** A parsed status is one of the three the pattern admits, so the field shows one of three words. */
  lemma {:induction false} ParsedStatusShown(style: ListStyle, uiBase: string, taskType: Option<string>, args: Grammar.ParsedCmd)
    requires Grammar.WellFormed(args) && args.status.Some?
    ensures FieldValue(TaskFields(style, uiBase, taskType, args), "Status") in {Some("OPEN"), Some("IN PROGRESS"), Some("CLOSED")}
    ensures IsClosed(args) <==> EqualsCI(args.status.value, "closed")
  {
    StatusValue(style, uiBase, taskType, args);
    assert Grammar.Field(args, Grammar.Status).Some?;
    StatusWord(args.status.value);
  }

  lemma {:induction false} StatusWord(v: string)
    requires Grammar.IsStatusValue(v)
    ensures Upper(v) == "OPEN" || Upper(v) == "IN PROGRESS" || Upper(v) == "CLOSED"
    ensures Upper(v) == "CLOSED" <==> EqualsCI(v, "closed")
    ensures |v| > 0
  {
    UpperWords();
    if EqualsCI(v, "open") {
      EqualsCIUpper(v, "open");
    } else if EqualsCI(v, "in progress") {
      EqualsCIUpper(v, "in progress");
    } else {
      EqualsCIUpper(v, "closed");
    }
  }

  lemma {:induction false} UpperWords()
    ensures Upper("open") == "OPEN" && Upper("in progress") == "IN PROGRESS" && Upper("closed") == "CLOSED"
  {
  }

  lemma {:induction false} SkipSeg(seg: seq<Field>, rest: seq<Field>, name: string)
    requires |seg| <= 1 && (|seg| == 1 ==> seg[0].name != name)
    ensures FieldValue(seg + rest, name) == FieldValue(rest, name)
  {
    FieldValueAppend(seg, rest, name);
  }

  /** Looking `name` up in `[f] + rest` when `f` is called `name`. */
  lemma {:induction false} FirstField(f: Field, rest: seq<Field>)
    ensures FieldValue([f] + rest, f.name) == Some(f.value)
  {
    FieldValueAppend([f], rest, f.name);
  }

  /** Skills and Discord, whatever their values, are not called `name`. */
  lemma {:induction false} SkipHead(style: ListStyle, args: Grammar.ParsedCmd, rest: seq<Field>, name: string)
    requires name != "Required skills" && name != "Discord"
    ensures FieldValue(SkillsSeg(style, args) + (DiscordSeg(args) + rest), name) == FieldValue(rest, name)
  {
    var sk, di := SkillsSeg(style, args), DiscordSeg(args);
    assert |sk| <= 1 && (|sk| == 1 ==> sk[0].name == "Required skills");
    assert |di| <= 1 && (|di| == 1 ==> di[0].name == "Discord");
    SkipSeg(sk, di + rest, name);
    SkipSeg(di, rest, name);
  }

  lemma {:induction false} SkipBounty(style: ListStyle, args: Grammar.ParsedCmd, rest: seq<Field>, name: string)
    requires name != "Bounty"
    ensures FieldValue(BountySeg(style, args) + rest, name) == FieldValue(rest, name)
  {
    var bo := BountySeg(style, args);
    assert |bo| == 1 && bo[0].name == "Bounty";
    SkipSeg(bo, rest, name);
  }

  lemma {:induction false} SkipDueDate(args: Grammar.ParsedCmd, rest: seq<Field>, name: string)
    requires name != "Due date"
    ensures FieldValue(DueDateSeg(args) + rest, name) == FieldValue(rest, name)
  {
    var du := DueDateSeg(args);
    assert |du| == 1 && du[0].name == "Due date";
    SkipSeg(du, rest, name);
  }

  lemma {:induction false} SkillsFirst(style: ListStyle, args: Grammar.ParsedCmd, rest: seq<Field>)
    requires Truthy(args.skills)
    ensures FieldValue(SkillsSeg(style, args) + rest, "Required skills") == Some(ListText(style, args.skills.value))
  {
    var sk := SkillsSeg(style, args);
    assert sk == [Field("Required skills", ListText(style, args.skills.value), true)];
    FirstField(sk[0], rest);
  }

  lemma {:induction false} BountyFirst(style: ListStyle, args: Grammar.ParsedCmd, rest: seq<Field>)
    ensures FieldValue(BountySeg(style, args) + rest, "Bounty") == Some(if Truthy(args.bounty) then ListText(style, args.bounty.value) else DefaultBounty)
  {
    var bo := BountySeg(style, args);
    assert bo == [Field("Bounty", if Truthy(args.bounty) then ListText(style, args.bounty.value) else DefaultBounty, true)];
    FirstField(bo[0], rest);
  }

  lemma {:induction false} DueDateFirst(args: Grammar.ParsedCmd, rest: seq<Field>)
    ensures FieldValue(DueDateSeg(args) + rest, "Due date") == Some(if Truthy(args.deadline) then args.deadline.value else DefaultDeadline)
  {
    var du := DueDateSeg(args);
    assert du == [Field("Due date", if Truthy(args.deadline) then args.deadline.value else DefaultDeadline, true)];
    FirstField(du[0], rest);
  }

  lemma {:induction false} AssigneesFirst(style: ListStyle, uiBase: string, args: Grammar.ParsedCmd, rest: seq<Field>)
    requires AssigneesSeg(style, uiBase, args) != []
    ensures FieldValue(AssigneesSeg(style, uiBase, args) + rest, "Assignees") == Some(AssigneesText(style, uiBase, args.assignees.GetOr("")))
  {
    var v := AssigneesText(style, uiBase, args.assignees.GetOr(""));
    assert Title(Assignees) == "Assignees";
    assert AssigneesSeg(style, uiBase, args) == [Field("Assignees", v, false)];
    FirstField(Field("Assignees", v, false), rest);
  }

  lemma {:induction false} SkillsValue(style: ListStyle, uiBase: string, taskType: Option<string>, args: Grammar.ParsedCmd)
    requires Truthy(args.skills) && !IsClosed(args)
    ensures FieldValue(TaskFields(style, uiBase, taskType, args), "Required skills") == Some(ListText(style, args.skills.value))
  {
    SkillsFirst(style, args, DiscordSeg(args) + (BountySeg(style, args) + (DueDateSeg(args) + (AssigneesSeg(style, uiBase, args) + MiscSeg(args)))));
    PastHead(style, uiBase, taskType, args, "Required skills");
  }

  lemma {:induction false} BountyValue(style: ListStyle, uiBase: string, taskType: Option<string>, args: Grammar.ParsedCmd)
    requires !IsClosed(args)
    ensures FieldValue(TaskFields(style, uiBase, taskType, args), "Bounty") == Some(if Truthy(args.bounty) then ListText(style, args.bounty.value) else DefaultBounty)
  {
    var after := DueDateSeg(args) + (AssigneesSeg(style, uiBase, args) + MiscSeg(args));
    BountyFirst(style, args, after);
    SkipHead(style, args, BountySeg(style, args) + after, "Bounty");
    PastHead(style, uiBase, taskType, args, "Bounty");
  }

  lemma {:induction false} DueDateValue(style: ListStyle, uiBase: string, taskType: Option<string>, args: Grammar.ParsedCmd)
    requires !IsClosed(args)
    ensures FieldValue(TaskFields(style, uiBase, taskType, args), "Due date") == Some(if Truthy(args.deadline) then args.deadline.value else DefaultDeadline)
  {
    var tail := AssigneesSeg(style, uiBase, args) + MiscSeg(args);
    DueDateFirst(args, tail);
    SkipBounty(style, args, DueDateSeg(args) + tail, "Due date");
    SkipHead(style, args, BountySeg(style, args) + (DueDateSeg(args) + tail), "Due date");
    PastHead(style, uiBase, taskType, args, "Due date");
  }

  lemma {:induction false} AssigneesValue(style: ListStyle, uiBase: string, taskType: Option<string>, args: Grammar.ParsedCmd)
    requires IsInProgress(args) && Truthy(args.assignees)
    ensures FieldValue(TaskFields(style, uiBase, taskType, args), "Assignees") == Some(AssigneesText(style, uiBase, args.assignees.value))
  {
    var tail := AssigneesSeg(style, uiBase, args) + MiscSeg(args);
    assert AssigneesSeg(style, uiBase, args) != [];
    AssigneesFirst(style, uiBase, args, MiscSeg(args));
    SkipDueDate(args, tail, "Assignees");
    SkipBounty(style, args, DueDateSeg(args) + tail, "Assignees");
    SkipHead(style, args, BountySeg(style, args) + (DueDateSeg(args) + tail), "Assignees");
    assert !IsClosed(args);
    PastHead(style, uiBase, taskType, args, "Assignees");
  }

  /**
   * The list-like values: skills and bounty when the task is not closed,
   * assignees when it is in progress, each in the builder's list style;
   * without a bounty or a deadline the defaults are shown.
   */
  lemma {:induction false} ListValues(style: ListStyle, uiBase: string, taskType: Option<string>, args: Grammar.ParsedCmd)
    ensures Truthy(args.skills) && !IsClosed(args) ==>
      FieldValue(TaskFields(style, uiBase, taskType, args), "Required skills") == Some(ListText(style, args.skills.value))
    ensures !IsClosed(args) ==>
      FieldValue(TaskFields(style, uiBase, taskType, args), "Bounty") == Some(if Truthy(args.bounty) then ListText(style, args.bounty.value) else DefaultBounty)
    ensures !IsClosed(args) ==>
      FieldValue(TaskFields(style, uiBase, taskType, args), "Due date") == Some(if Truthy(args.deadline) then args.deadline.value else DefaultDeadline)
    ensures IsInProgress(args) && Truthy(args.assignees) ==>
      FieldValue(TaskFields(style, uiBase, taskType, args), "Assignees") == Some(AssigneesText(style, uiBase, args.assignees.value))
  {
    if !IsClosed(args) {
      if Truthy(args.skills) {
        SkillsValue(style, uiBase, taskType, args);
      }
      BountyValue(style, uiBase, taskType, args);
      DueDateValue(style, uiBase, taskType, args);
    }
    if IsInProgress(args) && Truthy(args.assignees) {
      AssigneesValue(style, uiBase, taskType, args);
    }
  }

  // ---------------------------------------------------------------------------
  // What a reader of the embed sees

  /** A single word: no comma, no blank, no `@`. */
  predicate IsPlainWord(s: string) {
    |s| >= 1 && forall i :: 0 <= i < |s| ==> s[i] != ',' && s[i] != '@' && !IsSpace(s[i])
  }

  lemma {:induction false} PlainCharacters(s: string)
    requires IsPlainWord(s)
    ensures forall i :: 0 <= i < |s| ==> IsStripped(CharItems(s)[i], Whitespace) && IsStripped(CharItems(s)[i], SpaceOrAt)
    ensures forall i :: 0 <= i < |s| ==> ',' !in CharItems(s)[i] && CharItems(s)[i] != ""
  {
  }

  /** As written, a one-word skill list reads back as one skill per character. */
  lemma {:induction false} SkillsPerCharacter(s: string)
    requires IsPlainWord(s)
    ensures Links.ReadList(ListText(PerCharacter, s)) == CharItems(s)
  {
    PlainCharacters(s);
    Links.ReadBackJoined(CharItems(s));
  }

  /** Read as items, a one-word skill list reads back as that one skill. */
  lemma {:induction false} SkillsPerItem(s: string)
    requires IsPlainWord(s)
    ensures Links.ReadList(ListText(PerItem, s)) == [s]
  {
    SplitNoSep(s, ',');
    assert Links.NonEmpty([s]) == [s];
    StripOfStripped(s, Whitespace);
    assert Links.NormalizeItems(s) == [s];
  }

  /** The skill `"Go"`: shown as `"G, o"` as written, as `"Go"` when read as items. */
  lemma {:induction false} SkillsExample()
    ensures ListText(PerCharacter, "Go") == "G, o"
    ensures ListText(PerItem, "Go") == "Go"
  {
    assert CharItems("Go") == ["G", "o"];
    SplitNoSep("Go", ',');
    assert Links.NonEmpty(["Go"]) == ["Go"];
    StripOfStripped("Go", Whitespace);
    assert Links.NormalizeItems("Go") == ["Go"];
  }

  /**
   * As written, the assignee `@w` is linked character by character: the
   * first link is to the empty account name (from `"@@"`), then one link
   * per character of `w`.
   */
  lemma {:induction false} AssigneesPerCharacter(uiBase: string, w: string)
    requires IsPlainWord(w)
    ensures AssigneesText(PerCharacter, uiBase, "@" + w) == Join(", ", Links.MdLinks(uiBase, [""] + CharItems(w)))
  {
    var v := "@" + w;
    var names := CharItems(v);
    var ms := Links.Mentions(names);
    var want := [""] + CharItems(w);
    var segs := Split(Join(", ", ms), ',');
    assert segs == [ms[0]] + Prefixed(" ", ms[1..]) by {
      forall i | 0 <= i < |ms|
        ensures ',' !in ms[i]
      {
        assert ms[i] == "@" + names[i];
      }
      SplitJoinCommaSpace(ms);
    }
    assert Links.AccountNames(Join(", ", ms)) == want by {
      forall i | 0 <= i < |segs|
        ensures segs[i] != "" && Strip(segs[i], SpaceOrAt) == want[i]
      {
        AssigneePiece(w, names, ms, segs, i);
      }
      assert Links.NonEmpty(segs) == segs;
    }
  }

  lemma {:induction false} AssigneePiece(w: string, names: seq<string>, ms: seq<string>, segs: seq<string>, i: nat)
    requires IsPlainWord(w) && names == CharItems("@" + w) && ms == Links.Mentions(names)
    requires segs == [ms[0]] + Prefixed(" ", ms[1..]) && i < |segs|
    ensures segs[i] != "" && Strip(segs[i], SpaceOrAt) == ([""] + CharItems(w))[i]
  {
    if i == 0 {
      assert segs[0] == "@@";
      StripAll("@@", SpaceOrAt);
    } else {
      assert names[i] == [w[i - 1]];
      Links.MentionPieceStrips(segs, ms, names, i);
    }
  }

  /**
   * Read as a comma-separated list, an assignee value the command accepts,
   * `@a, b, ...`, is linked name by name, each once.
   */
  lemma {:induction false} AssigneesPerItem(uiBase: string, names: seq<string>)
    requires |names| >= 1 && forall i :: 0 <= i < |names| ==> Grammar.IsAssigneeName(names[i])
    ensures Grammar.AssigneesLang("@" + Join(", ", names))
    ensures AssigneesText(PerItem, uiBase, "@" + Join(", ", names)) == Join(", ", Links.MdLinks(uiBase, names))
  {
    Grammar.AssigneeListAccepted(names);
    forall i | 0 <= i < |names|
      ensures names[i] != "" && IsStripped(names[i], SpaceOrAt) && ',' !in names[i]
    {
      var n := names[i];
      assert forall k :: 0 <= k < |n| ==> Grammar.IsAssigneeChar(n[k]);
    }
    Links.AssigneeListLinks(uiBase, names);
  }
}
