/**
 * The bot's command grammar `CMD_RE` and `parse_command`.
 *
 * The pattern is: the call token (prefix and bot name), then either blanks
 * and `help`, or any number of clauses `\s+ [--] keyword [:] \s+ value [;]`,
 * the keyword alternatives tried in the order status, bounty, description,
 * note, skills, discord, deadline, assignees. `search` returns the match that
 * starts at the first occurrence of the token. After the token nothing in
 * the pattern can fail, so a clause that is matched is never given up again:
 * the scanner below takes, clause by clause, the first way the pattern would
 * match it, and stops at the first place no clause matches. A field named
 * twice keeps the last value, as a repeated regex group does. Every group is
 * a string (or `None`); nothing is split into lists.
 */
module Grammar {
  import opened Wrappers
  import opened Text

  /** `found.groupdict()`: every group of the pattern, each a captured string or `None`. */
  datatype ParsedCmd = ParsedCmd(
    botCmd: Option<string>,
    help: Option<string>,
    status: Option<string>,
    bounty: Option<string>,
    description: Option<string>,
    note: Option<string>,
    skills: Option<string>,
    discord: Option<string>,
    deadline: Option<string>,
    assignees: Option<string>)

  const Unset := ParsedCmd(None, None, None, None, None, None, None, None, None, None)

  /** The argument groups, in the order the pattern tries their alternatives. */
  datatype Arg = Status | Bounty | Description | Note | Skills | Discord | Deadline | Assignees

  const ArgOrder: seq<Arg> := [Status, Bounty, Description, Note, Skills, Discord, Deadline, Assignees]

  function Keyword(a: Arg): string {
    match a
    case Status => "status"
    case Bounty => "bounty"
    case Description => "description"
    case Note => "note"
    case Skills => "skills"
    case Discord => "discord"
    case Deadline => "deadline"
    case Assignees => "assignees"
  }

  function Field(p: ParsedCmd, a: Arg): Option<string> {
    match a
    case Status => p.status
    case Bounty => p.bounty
    case Description => p.description
    case Note => p.note
    case Skills => p.skills
    case Discord => p.discord
    case Deadline => p.deadline
    case Assignees => p.assignees
  }

  /** Records a captured value for one argument group and leaves every other group as it was. */
  function SetField(p: ParsedCmd, a: Arg, v: string): (q: ParsedCmd)
    ensures Field(q, a) == Some(v)
    ensures forall b :: b != a ==> Field(q, b) == Field(p, b)
    ensures q.botCmd == p.botCmd && q.help == p.help
  {
    match a
    case Status => p.(status := Some(v))
    case Bounty => p.(bounty := Some(v))
    case Description => p.(description := Some(v))
    case Note => p.(note := Some(v))
    case Skills => p.(skills := Some(v))
    case Discord => p.(discord := Some(v))
    case Deadline => p.(deadline := Some(v))
    case Assignees => p.(assignees := Some(v))
  }

  // ---------------------------------------------------------------------------
  // The shape of each group's value

  /** `open|in[ ]progress|closed`, any case. */
  predicate IsStatusValue(v: string) {
    EqualsCI(v, "open") || EqualsCI(v, "in progress") || EqualsCI(v, "closed")
  }

  /** `\d{4}-\d{2}-\d{2}`: exactly ten characters. */
  predicate IsDateValue(v: string) {
    && |v| == 10 && v[4] == '-' && v[7] == '-'
    && forall k :: 0 <= k < 10 && k != 4 && k != 7 ==> IsDigit(v[k])
  }

  /** The fixed characters of a mention `<@!123>`. */
  const MentionOpen := '<'
  const MentionSign := '@'
  const MentionBang := '!'
  const MentionClose := '>'

  /** A Discord user mention: an opening angle bracket, the at sign, an optional `!`, digits, and a closing angle bracket. */
  predicate IsMention(v: string) {
    && |v| >= 4 && v[0] == MentionOpen && v[1] == MentionSign && v[|v| - 1] == MentionClose && IsDigit(v[|v| - 2])
    && forall k :: 2 <= k < |v| - 1 ==> IsDigit(v[k]) || (k == 2 && v[k] == MentionBang)
  }

  /** `.+?[#]\d{4}`: a name on one line, `#`, and a four-digit discriminator. */
  predicate IsDiscordTag(v: string) {
    && |v| >= 6 && v[|v| - 5] == '#'
    && (forall k :: |v| - 4 <= k < |v| ==> IsDigit(v[k]))
    && forall k :: 0 <= k < |v| - 5 ==> v[k] != '\n'
  }

  /** `.+?` between double quotes: one line, no quote after the first character. */
  predicate IsQuotedText(v: string) {
    && |v| >= 1
    && (forall k :: 0 <= k < |v| ==> v[k] != '\n')
    && forall k :: 1 <= k < |v| ==> v[k] != '"'
  }

  predicate IsBountyChar(c: char) {
    IsSpace(c) || IsWordChar(c) || c == '.' || c == ','
  }

  /**
   * `(?:\s*?\d+(?:\.\d+?)?[ ]\w+(?:\s*?,\s*?)?)+`: amounts and units; a digit
   * comes first after any blanks, and the value ends in a unit or a comma.
   */
  predicate IsBountyValue(v: string) {
    && |v| >= 3
    && (forall k :: 0 <= k < |v| ==> IsBountyChar(v[k]))
    && (IsWordChar(v[|v| - 1]) || v[|v| - 1] == ',')
    && exists k :: 0 <= k < |v| && IsDigit(v[k]) && forall j :: 0 <= j < k ==> IsSpace(v[j])
  }

  /** `[-_\w ]`. */
  predicate IsSkillChar(c: char) {
    IsWordChar(c) || c == '-' || c == ' '
  }

  /**
   * `(?:[-_\w ]+(?:\s*?,?\s*?))+` as a whole: skill characters, blanks and
   * commas, starting with a skill character, with a skill character between
   * any two commas.
   */
  predicate SkillsLang(v: string) {
    |v| >= 1 && IsSkillChar(v[0]) && SkillsRest(v, 1, false)
  }

  /** `afterComma`: a comma has been read and no skill character since. */
  predicate SkillsRest(v: string, i: nat, afterComma: bool)
    decreases |v| - i
  {
    if i >= |v| then true
    else if IsSkillChar(v[i]) then SkillsRest(v, i + 1, false)
    else if v[i] == ',' then !afterComma && SkillsRest(v, i + 1, true)
    else IsSpace(v[i]) && SkillsRest(v, i + 1, afterComma)
  }

  /** A skill the skills pattern accepts between commas: one or more of `[-_\w ]`. */
  predicate IsSkillName(n: string) {
    |n| >= 1 && forall ch :: ch in n ==> IsSkillChar(ch)
  }

  /** The list `skill1, skill2, ...` that the help text documents is accepted. */
  lemma {:induction false} SkillListAccepted(words: seq<string>)
    requires |words| >= 1 && forall i :: 0 <= i < |words| ==> IsSkillName(words[i])
    ensures SkillsLang(Join(", ", words))
  {
    var v := Join(", ", words);
    assert v[0..] == v;
    SkillsFrom(v, 0, words);
  }

  lemma {:induction false} SkillsFrom(v: string, i: nat, words: seq<string>)
    requires i <= |v| && v[i..] == Join(", ", words)
    requires |words| >= 1 && forall m :: 0 <= m < |words| ==> IsSkillName(words[m])
    ensures i < |v| && IsSkillChar(v[i]) && SkillsRest(v, i + 1, false)
    decreases |words|
  {
    var n := words[0];
    var j := i + |n|;
    if |words| == 1 {
      assert v[i..] == n;
      assert j == |v|;
    } else {
      var rest := Join(", ", words[1..]);
      assert v[i..] == n + ", " + rest;
      assert v[j] == v[i..][|n|] && v[j + 1] == v[i..][|n| + 1];
      assert v[j + 2..] == rest by {
        assert v[j + 2..] == v[i..][|n| + 2..];
      }
      SkillsFrom(v, j + 2, words[1..]);
      assert SkillsRest(v, j + 1, true);
      assert SkillsRest(v, j, false);
    }
    forall m | i <= m < j
      ensures IsSkillChar(v[m])
    {
      assert v[m] == v[i..][m - i] == n[m - i];
    }
    SkillCharsAccepted(v, i + 1, j);
  }

  /** A run of skill characters ending where the rest is accepted is accepted from its start. */
  lemma {:induction false} SkillCharsAccepted(v: string, i: nat, j: nat)
    requires i <= j <= |v| && forall m :: i <= m < j ==> IsSkillChar(v[m])
    requires SkillsRest(v, j, false)
    ensures SkillsRest(v, i, false)
    decreases j - i
  {
    if i < j {
      SkillCharsAccepted(v, i + 1, j);
    }
  }

  /** `[\w\d.-]`. */
  predicate IsAssigneeChar(c: char) {
    IsWordChar(c) || c == '.' || c == '-'
  }

  /** Where `AssigneesRest` stands: after a name character, in a gap before its comma, or after the comma. */
  datatype Gap = InName | BeforeComma | AfterComma

  /**
   * `@(?:[\w\d.-]+(?:\s*?,\s*?)?)+` as a whole: `@`, then names separated by
   * exactly one comma with optional blanks around it; a trailing comma is allowed.
   */
  predicate AssigneesLang(v: string) {
    |v| >= 2 && v[0] == '@' && IsAssigneeChar(v[1]) && AssigneesRest(v, 2, InName)
  }

  predicate AssigneesRest(v: string, i: nat, g: Gap)
    decreases |v| - i
  {
    if i >= |v| then g != BeforeComma
    else if IsAssigneeChar(v[i]) then g != BeforeComma && AssigneesRest(v, i + 1, InName)
    else if v[i] == ',' then g != AfterComma && AssigneesRest(v, i + 1, AfterComma)
    else IsSpace(v[i]) && AssigneesRest(v, i + 1, if g == InName then BeforeComma else g)
  }

  /** A name the assignee pattern accepts: one or more of `[\w\d.-]`. */
  predicate IsAssigneeName(n: string) {
    |n| >= 1 && forall k :: 0 <= k < |n| ==> IsAssigneeChar(n[k])
  }

  /** The list `@a, b, c`, with `@` only before the first name and `", "` between names, is accepted. */
  lemma {:induction false} AssigneeListAccepted(names: seq<string>)
    requires |names| >= 1 && forall i :: 0 <= i < |names| ==> IsAssigneeName(names[i])
    ensures AssigneesLang("@" + Join(", ", names))
  {
    var v := "@" + Join(", ", names);
    assert v[1..] == Join(", ", names);
    NamesAccepted(v, 1, names, InName);
  }

  lemma {:induction false} NamesAccepted(v: string, i: nat, names: seq<string>, g: Gap)
    requires i <= |v| && v[i..] == Join(", ", names)
    requires |names| >= 1 && forall k :: 0 <= k < |names| ==> IsAssigneeName(names[k])
    requires g != BeforeComma
    ensures i < |v| && IsAssigneeChar(v[i]) && AssigneesRest(v, i, g)
    decreases |names|
  {
    var n := names[0];
    var j := i + |n|;
    if |names| == 1 {
      assert v[i..] == n;
      assert forall k :: i <= k < j ==> v[k] == n[k - i];
      NameAccepted(v, i, j, g);
    } else {
      var rest := Join(", ", names[1..]);
      assert v[i..] == n + ", " + rest;
      assert forall k :: i <= k < j ==> v[k] == n[k - i];
      assert v[j] == ',' && v[j + 1] == ' ';
      assert v[j + 2..] == rest;
      NamesAccepted(v, j + 2, names[1..], AfterComma);
      assert AssigneesRest(v, j + 1, AfterComma);
      assert AssigneesRest(v, j, InName);
      NameAccepted(v, i, j, g);
    }
  }

  /** A run of name characters ending where the rest is accepted after a name is accepted from its start. */
  lemma {:induction false} NameAccepted(v: string, i: nat, j: nat, g: Gap)
    requires i < j <= |v| && forall k :: i <= k < j ==> IsAssigneeChar(v[k])
    requires g != BeforeComma && AssigneesRest(v, j, InName)
    ensures IsAssigneeChar(v[i]) && AssigneesRest(v, i, g)
    decreases j - i
  {
    if i + 1 < j {
      NameAccepted(v, i + 1, j, InName);
    }
  }

  /**
   * The help text documents assignees as `@name1[, @name2, ...]`, but the
   * pattern rejects a second `@`: after the comma and its blanks only a name
   * character may follow.
   */
  lemma {:induction false} MentionListRejected()
    ensures !AssigneesLang("@a, @b")
  {
    var v := "@a, @b";
    assert v[2] == ',' && v[3] == ' ' && v[4] == '@';
    assert !AssigneesRest(v, 4, AfterComma);
    assert !AssigneesRest(v, 3, AfterComma);
    assert !AssigneesRest(v, 2, InName);
  }

  /**
   * The assignees pattern the help text evidently means,
   * `@[\w\d.-]+(?:\s*?,\s*?@?[\w\d.-]+)*(?:\s*?,\s*?)?`: as `AssigneesLang`,
   * but each name after a comma may carry its own `@`.
   */
  predicate MentionListLang(v: string) {
    |v| >= 2 && v[0] == '@' && IsAssigneeChar(v[1]) && MentionListRest(v, 2, InName)
  }

  predicate MentionListRest(v: string, i: nat, g: Gap)
    decreases |v| - i
  {
    if i >= |v| then g != BeforeComma
    else if IsAssigneeChar(v[i]) then g != BeforeComma && MentionListRest(v, i + 1, InName)
    else if v[i] == ',' then g != AfterComma && MentionListRest(v, i + 1, AfterComma)
    else if v[i] == '@' then g == AfterComma && i + 1 < |v| && IsAssigneeChar(v[i + 1]) && MentionListRest(v, i + 1, AfterComma)
    else IsSpace(v[i]) && MentionListRest(v, i + 1, if g == InName then BeforeComma else g)
  }

  /** The corrected pattern accepts the list `@name1, @name2, ...` as the help text documents it. */
  lemma {:induction false} MentionListAccepted(names: seq<string>)
    requires |names| >= 1 && forall i :: 0 <= i < |names| ==> IsAssigneeName(names[i])
    ensures MentionListLang(Join(", ", Prefixed("@", names)))
  {
    var v := Join(", ", Prefixed("@", names));
    assert v[0..] == v;
    MentionsAccepted(v, 0, names);
  }

  lemma {:induction false} MentionsAccepted(v: string, i: nat, names: seq<string>)
    requires i <= |v| && v[i..] == Join(", ", Prefixed("@", names))
    requires |names| >= 1 && forall k :: 0 <= k < |names| ==> IsAssigneeName(names[k])
    ensures i + 1 < |v| && v[i] == '@' && IsAssigneeChar(v[i + 1]) && MentionListRest(v, i + 1, AfterComma)
    decreases |names|
  {
    var n := names[0];
    var ms := Prefixed("@", names);
    var j := i + 1 + |n|;
    if |names| == 1 {
      assert v[i..] == "@" + n;
      assert forall k :: i + 1 <= k < j ==> v[k] == n[k - i - 1];
      MentionNameAccepted(v, i + 1, j, AfterComma);
    } else {
      var rest := Join(", ", ms[1..]);
      assert ms[1..] == Prefixed("@", names[1..]);
      assert v[i..] == "@" + n + ", " + rest;
      assert forall k :: i + 1 <= k < j ==> v[k] == n[k - i - 1];
      assert v[j] == ',' && v[j + 1] == ' ';
      assert v[j + 2..] == rest;
      MentionsAccepted(v, j + 2, names[1..]);
      assert MentionListRest(v, j + 2, AfterComma);
      assert MentionListRest(v, j + 1, AfterComma);
      assert MentionListRest(v, j, InName);
      MentionNameAccepted(v, i + 1, j, AfterComma);
    }
  }

  /** A run of name characters ending where the rest is accepted after a name is accepted from its start. */
  lemma {:induction false} MentionNameAccepted(v: string, i: nat, j: nat, g: Gap)
    requires i < j <= |v| && forall k :: i <= k < j ==> IsAssigneeChar(v[k])
    requires g != BeforeComma && MentionListRest(v, j, InName)
    ensures IsAssigneeChar(v[i]) && MentionListRest(v, i, g)
    decreases j - i
  {
    if i + 1 < j {
      MentionNameAccepted(v, i + 1, j, InName);
    }
  }

  /** The correction only adds: every list the pattern accepts as written is still accepted. */
  lemma {:induction false} MentionListExtends(v: string)
    requires AssigneesLang(v)
    ensures MentionListLang(v)
  {
    RestExtends(v, 2, InName);
  }

  lemma {:induction false} RestExtends(v: string, i: nat, g: Gap)
    requires AssigneesRest(v, i, g)
    ensures MentionListRest(v, i, g)
    decreases |v| - i
  {
    if i < |v| {
      if IsAssigneeChar(v[i]) {
        RestExtends(v, i + 1, InName);
      } else if v[i] == ',' {
        RestExtends(v, i + 1, AfterComma);
      } else {
        RestExtends(v, i + 1, if g == InName then BeforeComma else g);
      }
    }
  }

  /** The value shape the pattern guarantees for each argument group. */
  predicate ValidFor(a: Arg, v: string) {
    match a
    case Status => IsStatusValue(v)
    case Bounty => IsBountyValue(v)
    case Description => IsQuotedText(v)
    case Note => IsQuotedText(v)
    case Skills => SkillsLang(v)
    case Discord => IsMention(v) || IsDiscordTag(v)
    case Deadline => IsDateValue(v)
    case Assignees => AssigneesLang(v)
  }

  predicate ArgsValid(p: ParsedCmd) {
    forall a :: Field(p, a).Some? ==> ValidFor(a, Field(p, a).value)
  }

  predicate NoArgs(p: ParsedCmd) {
    forall a :: Field(p, a).None?
  }

  /**
   * What every match of the pattern satisfies: the token group is set, `help`
   * excludes every argument group, and every set value has its group's shape.
   */
  predicate WellFormed(p: ParsedCmd) {
    && p.botCmd.Some?
    && ArgsValid(p)
    && (p.help.Some? ==> EqualsCI(p.help.value, "help") && NoArgs(p))
  }

  // ---------------------------------------------------------------------------
  // Scanning

  datatype CharClass = Spaces | Blanks | Digits | WordChars

  predicate InClass(c: char, cls: CharClass) {
    match cls
    case Spaces => IsSpace(c)
    case Blanks => IsBlank(c)
    case Digits => IsDigit(c)
    case WordChars => IsWordChar(c)
  }

  /** The length of the longest run of `cls` characters starting at `i`. */
  function Run(text: string, i: nat, cls: CharClass): (n: nat)
    requires i <= |text|
    ensures i + n <= |text|
    ensures forall k :: i <= k < i + n ==> InClass(text[k], cls)
    ensures i + n < |text| ==> !InClass(text[i + n], cls)
    decreases |text| - i
  {
    if i < |text| && InClass(text[i], cls) then 1 + Run(text, i + 1, cls) else 0
  }

  /** One matched group: the value is `text[start..stop]`, the clause ends at `end`. */
  datatype Hit = Hit(start: nat, stop: nat, end: nat)

  predicate HitAfter(h: Hit, from: nat, text: string) {
    from <= h.start <= h.stop <= h.end <= |text| && from < h.end
  }

  /** The group's captured text. */
  function HitText(text: string, h: Hit): string
    requires h.start <= h.stop <= |text|
  {
    text[h.start..h.stop]
  }

  function StatusAt(text: string, pos: nat): (e: Option<nat>)
    requires pos <= |text|
    ensures e.Some? ==> pos < e.value <= |text| && IsStatusValue(text[pos .. (e.value)])
  {
    if MatchesCIAt(text, pos, "open") then Some(pos + 4)
    else if MatchesCIAt(text, pos, "in progress") then Some(pos + 11)
    else if MatchesCIAt(text, pos, "closed") then Some(pos + 6)
    else None
  }

  function StatusHitAt(text: string, pos: nat): (h: Option<Hit>)
    requires pos <= |text|
    ensures h.Some? ==> HitAfter(h.value, pos, text) && h.value.start == pos && IsStatusValue(HitText(text, h.value))
  {
    match StatusAt(text, pos)
    case Some(e) => Some(Hit(pos, e, e))
    case None => None
  }

  /** `T\d{2}:\d{2}:\d{2}`, the `T` in either case. */
  predicate IsTimeOfDay(v: string) {
    && |v| == 9 && (v[0] == 'T' || v[0] == 't') && v[3] == ':' && v[6] == ':'
    && forall k :: 1 <= k < 9 && k != 3 && k != 6 ==> IsDigit(v[k])
  }

  /** Length of `(?:T\d{2}:\d{2}:\d{2}(?:Z|[+-]\d{4})?)?` at `e`: matched but left out of the group. */
  function TimeSuffix(text: string, e: nat): (n: nat)
    requires e <= |text|
    ensures e + n <= |text|
  {
    if e + 9 <= |text| && IsTimeOfDay(text[e..e + 9]) then
      var t := e + 9;
      if t < |text| && (text[t] == 'Z' || text[t] == 'z') then 10
      else if t + 5 <= |text| && (text[t] == '+' || text[t] == '-') && AllDigits(text[t + 1..t + 5]) then 14
      else 9
    else 0
  }

  function DeadlineAt(text: string, pos: nat): (h: Option<Hit>)
    requires pos <= |text|
    ensures h.Some? ==> HitAfter(h.value, pos, text) && h.value.start == pos && IsDateValue(HitText(text, h.value))
  {
    if pos + 10 <= |text| && IsDateValue(text[pos..pos + 10]) then
      Some(Hit(pos, pos + 10, pos + 10 + TimeSuffix(text, pos + 10)))
    else None
  }

  /** `.+?"`: the first quote after at least one character, with no line break before it. */
  function LazyClose(text: string, s: nat, j: nat): (r: Option<nat>)
    requires s < j <= |text|
    requires forall k :: s <= k < j ==> text[k] != '\n'
    requires forall k :: s < k < j ==> text[k] != '"'
    ensures r.Some? ==> j <= r.value < |text| && text[r.value] == '"'
    ensures r.Some? ==> forall k :: s <= k < r.value ==> text[k] != '\n'
    ensures r.Some? ==> forall k :: s < k < r.value ==> text[k] != '"'
    decreases |text| - j
  {
    if j >= |text| then None
    else if text[j] == '"' then Some(j)
    else if text[j] == '\n' then None
    else LazyClose(text, s, j + 1)
  }

  /** `"(?P<g>.+?)"` at `pos`. */
  function QuotedAt(text: string, pos: nat): (h: Option<Hit>)
    requires pos <= |text|
    ensures h.Some? ==> HitAfter(h.value, pos, text) && IsQuotedText(HitText(text, h.value))
  {
    if pos + 1 < |text| && text[pos] == '"' && text[pos + 1] != '\n' then
      match LazyClose(text, pos + 1, pos + 2)
      case Some(j) => Some(Hit(pos + 1, j, j + 1))
      case None => None
    else None
  }

  /** The first quote at or after `j`. */
  function FirstQuote(text: string, j: nat): (r: Option<nat>)
    requires j <= |text|
    ensures r.Some? ==> j <= r.value < |text| && text[r.value] == '"'
    ensures r.Some? ==> forall k :: j <= k < r.value ==> text[k] != '"'
    decreases |text| - j
  {
    if j >= |text| then None
    else if text[j] == '"' then Some(j)
    else FirstQuote(text, j + 1)
  }

  /** `"(?P<skills>...)"` or `"(?P<assignees>...)"` at `pos`: the text up to the next quote, in the group's language. */
  function QuotedListAt(text: string, pos: nat, a: Arg): (h: Option<Hit>)
    requires pos <= |text|
    requires a == Skills || a == Assignees
    ensures h.Some? ==> HitAfter(h.value, pos, text) && ValidFor(a, HitText(text, h.value))
  {
    if pos < |text| && text[pos] == '"' then
      match FirstQuote(text, pos + 1)
      case Some(j) =>
        var v := text[pos + 1..j];
        if (a == Skills && SkillsLang(v)) || (a == Assignees && AssigneesLang(v)) then Some(Hit(pos + 1, j, j + 1))
        else None
      case None => None
    else None
  }

  predicate BountyCharsIn(text: string, a: nat, e: nat)
    requires a <= e <= |text|
  {
    forall k :: a <= k < e ==> IsBountyChar(text[k])
  }

  /** The last character of a repetition: a unit character or its comma. */
  predicate EndsItem(text: string, e: nat) {
    0 < e <= |text| && (IsWordChar(text[e - 1]) || text[e - 1] == ',')
  }

  /** `\d+(?:\.\d+?)?[ ]` at `s`: where the space after the amount is. */
  function AmountEnd(text: string, s: nat): (p: Option<nat>)
    requires s <= |text|
    ensures p.Some? ==> s < p.value < |text| && text[p.value] == ' ' && IsDigit(text[s])
    ensures p.Some? ==> BountyCharsIn(text, s, p.value + 1)
  {
    var d := Run(text, s, Digits);
    if d == 0 then None
    else
      var p := s + d;
      if p < |text| && text[p] == ' ' then Some(p)
      else if p < |text| && text[p] == '.' then
        var f := Run(text, p + 1, Digits);
        if f > 0 && p + 1 + f < |text| && text[p + 1 + f] == ' ' then Some(p + 1 + f) else None
      else None
  }

  /** `\w+(?:\s*?,\s*?)?` at `u`: the unit and an optional comma; where they end. */
  function UnitEnd(text: string, u: nat): (e: Option<nat>)
    requires u <= |text|
    ensures e.Some? ==> u < e.value <= |text| && BountyCharsIn(text, u, e.value)
    ensures e.Some? ==> EndsItem(text, e.value)
  {
    var w := Run(text, u, WordChars);
    if w == 0 then None
    else
      var e := u + w;
      var sp := Run(text, e, Spaces);
      if e + sp < |text| && text[e + sp] == ',' then Some(e + sp + 1) else Some(e)
  }

  /** One repetition `\s*?\d+(?:\.\d+?)?[ ]\w+(?:\s*?,\s*?)?` at `a`; its end. */
  function BountyItem(text: string, a: nat): (e: Option<nat>)
    requires a <= |text|
    ensures e.Some? ==> a + Run(text, a, Spaces) < e.value <= |text|
    ensures e.Some? ==> IsDigit(text[a + Run(text, a, Spaces)])
    ensures e.Some? ==> BountyCharsIn(text, a, e.value)
    ensures e.Some? ==> EndsItem(text, e.value)
  {
    var s1 := a + Run(text, a, Spaces);
    assert BountyCharsIn(text, a, s1);
    match AmountEnd(text, s1)
    case None => None
    case Some(p) =>
      match UnitEnd(text, p + 1)
      case None => None
      case Some(e) => Some(e)
  }

  /** Further repetitions, as many as match. */
  function BountyRepeat(text: string, a: nat): (e: nat)
    requires a <= |text|
    ensures a <= e <= |text|
    ensures BountyCharsIn(text, a, e)
    ensures a < e ==> EndsItem(text, e)
    decreases |text| - a
  {
    var r := BountyItem(text, a);
    if r.None? then a
    else
      var e := BountyRepeat(text, r.value);
      BountyCharsJoin(text, a, r.value, e);
      e
  }

  lemma {:induction false} BountyCharsJoin(text: string, a: nat, m: nat, e: nat)
    requires a <= m <= e <= |text|
    requires BountyCharsIn(text, a, m) && BountyCharsIn(text, m, e)
    ensures BountyCharsIn(text, a, e)
  {
  }

  lemma {:induction false} BountyValueShape(text: string, s: nat, e: nat)
    requires s <= e <= |text| && BountyCharsIn(text, s, e)
    requires s + Run(text, s, Spaces) < e && IsDigit(text[s + Run(text, s, Spaces)])
    requires e >= s + 3 && EndsItem(text, e)
    ensures IsBountyValue(text[s..e])
  {
    var v := text[s..e];
    var d := Run(text, s, Spaces);
    assert forall k :: 0 <= k < |v| ==> v[k] == text[s + k];
    assert IsDigit(v[d]) && forall j :: 0 <= j < d ==> IsSpace(v[j]);
  }

  /** `\s+?(?P<bounty>...)`: the group starts after one blank and holds one or more repetitions. */
  function BountyAt(text: string, k: nat): (h: Option<Hit>)
    requires k <= |text|
    ensures h.Some? ==> HitAfter(h.value, k, text) && IsBountyValue(HitText(text, h.value))
  {
    if k < |text| && IsSpace(text[k]) then
      var s := k + 1;
      var r := BountyItem(text, s);
      if r.None? then None
      else
        var e := BountyRepeat(text, r.value);
        BountyCharsJoin(text, s, r.value, e);
        BountyValueShape(text, s, e);
        Some(Hit(s, e, e))
    else None
  }

  /** Whether the text at `p` holds the character `c`. */
  predicate CharAt(text: string, p: nat, c: char) {
    p < |text| && text[p] == c
  }

  /** A Discord user mention at `p`; its end. */
  function MentionAt(text: string, p: nat): (e: Option<nat>)
    requires p <= |text|
    ensures e.Some? ==> p < e.value <= |text| && IsMention(text[p .. (e.value)])
  {
    if CharAt(text, p, MentionOpen) && CharAt(text, p + 1, MentionSign) then
      var q := if CharAt(text, p + 2, MentionBang) then p + 3 else p + 2;
      var d := Run(text, q, Digits);
      if d > 0 && CharAt(text, q + d, MentionClose) then Some(q + d + 1) else None
    else None
  }

  /** `.+?[#]\d{4}` from `p`, with `j` the next candidate position of the `#`. */
  function TagFrom(text: string, p: nat, j: nat): (e: Option<nat>)
    requires p < j <= |text|
    requires forall k :: p <= k < j ==> text[k] != '\n'
    ensures e.Some? ==> p < e.value <= |text| && IsDiscordTag(text[p .. (e.value)])
    decreases |text| - j
  {
    if j >= |text| then None
    else if text[j] == '#' && j + 5 <= |text| && AllDigits(text[j + 1..j + 5]) then
      TagEnd(text, p, j);
      Some(j + 5)
    else if text[j] == '\n' then None
    else TagFrom(text, p, j + 1)
  }

  /** A `#` and four digits after a newline-free stretch close a tag. */
  lemma {:induction false} TagEnd(text: string, p: nat, j: nat)
    requires p < j && j + 5 <= |text| && text[j] == '#' && AllDigits(text[j + 1..j + 5])
    requires forall k :: p <= k < j ==> text[k] != '\n'
    ensures IsDiscordTag(text[p..j + 5])
  {
    var v := text[p..j + 5];
    forall k | |v| - 4 <= k < |v|
      ensures IsDigit(v[k])
    {
      assert v[k] == text[j + 1..j + 5][k + p - j - 1];
    }
  }

  function TagAt(text: string, p: nat): (e: Option<nat>)
    requires p <= |text|
    ensures e.Some? ==> p < e.value <= |text| && IsDiscordTag(text[p .. (e.value)])
  {
    if p < |text| && text[p] != '\n' then TagFrom(text, p, p + 1) else None
  }

  /**
   * `\s+?(?P<discord><@!?\d+>|.+?[#]\d{4})` with the lazy blanks ending just
   * before `p`: both alternatives at `p`, then one blank more, and so on.
   */
  function DiscordFrom(text: string, p: nat): (h: Option<Hit>)
    requires p <= |text|
    ensures h.Some? ==> HitAfter(h.value, p, text) && ValidFor(Discord, HitText(text, h.value))
    decreases |text| - p
  {
    match MentionAt(text, p)
    case Some(e) => Some(Hit(p, e, e))
    case None =>
      match TagAt(text, p)
      case Some(e) => Some(Hit(p, e, e))
      case None => if p < |text| && IsSpace(text[p]) then DiscordFrom(text, p + 1) else None
  }

  function DiscordAt(text: string, k: nat): (h: Option<Hit>)
    requires k <= |text|
    ensures h.Some? ==> HitAfter(h.value, k, text) && ValidFor(Discord, HitText(text, h.value))
  {
    if k < |text| && IsSpace(text[k]) then DiscordFrom(text, k + 1) else None
  }

  /** The value of argument `a`, its separating blanks starting at `k`. */
  function ValueAt(text: string, k: nat, a: Arg): (h: Option<Hit>)
    requires k <= |text|
    ensures h.Some? ==> HitAfter(h.value, k, text) && ValidFor(a, HitText(text, h.value))
  {
    var r := k + Run(text, k, Spaces);
    match a
    case Bounty => BountyAt(text, k)
    case Discord => DiscordAt(text, k)
    case Status => if r == k then None else StatusHitAt(text, r)
    case Deadline => if r == k then None else DeadlineAt(text, r)
    case Description => if r == k then None else QuotedAt(text, r)
    case Note => if r == k then None else QuotedAt(text, r)
    case Skills => if r == k then None else QuotedListAt(text, r, Skills)
    case Assignees => if r == k then None else QuotedListAt(text, r, Assignees)
  }

  /** `keyword:?` then the value, at `q`. */
  function ArgAt(text: string, q: nat, a: Arg): (h: Option<Hit>)
    requires q <= |text|
    ensures h.Some? ==> HitAfter(h.value, q, text) && ValidFor(a, HitText(text, h.value))
  {
    if MatchesCIAt(text, q, Keyword(a)) then
      var k := q + |Keyword(a)|;
      var k2 := if k < |text| && text[k] == ':' then k + 1 else k;
      ValueAt(text, k2, a)
    else None
  }

  /** The argument an alternative matched, and where. */
  datatype ArgHit = ArgHit(arg: Arg, hit: Hit)

  /** The alternatives from `ArgOrder[i]` on; the first that matches. */
  function TryArgs(text: string, q: nat, i: nat): (r: Option<ArgHit>)
    requires q <= |text|
    ensures r.Some? ==> HitAfter(r.value.hit, q, text) && ValidFor(r.value.arg, HitText(text, r.value.hit))
    decreases |ArgOrder| - i
  {
    if i >= |ArgOrder| then None
    else
      match ArgAt(text, q, ArgOrder[i])
      case Some(h) => Some(ArgHit(ArgOrder[i], h))
      case None => TryArgs(text, q, i + 1)
  }

  /** One argument clause as the pattern reads it: a group and its captured text. */
  datatype Clause = Clause(arg: Arg, value: string)

  datatype Step = Step(clause: Clause, end: nat)

  /** `\s+(?:--)?(?:alternatives);?` at `p`. */
  function ClauseAt(text: string, p: nat): (r: Option<Step>)
    requires p <= |text|
    ensures r.Some? ==> p < r.value.end <= |text| && ValidFor(r.value.clause.arg, r.value.clause.value)
  {
    var w := Run(text, p, Spaces);
    if w == 0 then None
    else
      var q := p + w;
      var q2 := if q + 2 <= |text| && text[q] == '-' && text[q + 1] == '-' then q + 2 else q;
      match TryArgs(text, q2, 0)
      case None => None
      case Some(ArgHit(a, h)) =>
        var e := if h.end < |text| && text[h.end] == ';' then h.end + 1 else h.end;
        Some(Step(Clause(a, text[h.start..h.stop]), e))
  }

  /** The clauses from `p` on, as many as match, in text order. */
  function ClausesFrom(text: string, p: nat): seq<Clause>
    requires p <= |text|
    decreases |text| - p
  {
    match ClauseAt(text, p)
    case None => []
    case Some(step) => [step.clause] + ClausesFrom(text, step.end)
  }

  /** Every clause has its group's shape. */
  predicate AllValid(cs: seq<Clause>) {
    forall i :: 0 <= i < |cs| ==> ValidFor(cs[i].arg, cs[i].value)
  }

  /** A well-shaped clause in front of well-shaped clauses. */
  lemma {:induction false} ConsValid(c: Clause, rest: seq<Clause>)
    requires ValidFor(c.arg, c.value) && AllValid(rest)
    ensures AllValid([c] + rest)
  {
    assert forall i :: 1 <= i <= |rest| ==> ([c] + rest)[i] == rest[i - 1];
  }

  /** Every clause read has its group's shape. */
  lemma {:induction false} ClausesValid(text: string, p: nat)
    requires p <= |text|
    ensures AllValid(ClausesFrom(text, p))
    decreases |text| - p
  {
    match ClauseAt(text, p)
    case None =>
    case Some(step) =>
      ClausesValid(text, step.end);
      ConsValid(step.clause, ClausesFrom(text, step.end));
  }

  /** Records the clauses in order; a later clause for the same group overwrites an earlier one. */
  function Apply(p: ParsedCmd, cs: seq<Clause>): (q: ParsedCmd)
    ensures q.botCmd == p.botCmd && q.help == p.help
    ensures ArgsValid(p) && (forall i :: 0 <= i < |cs| ==> ValidFor(cs[i].arg, cs[i].value)) ==> ArgsValid(q)
    decreases |cs|
  {
    if |cs| == 0 then p
    else
      var next := SetField(p, cs[0].arg, cs[0].value);
      assert ArgsValid(p) && ValidFor(cs[0].arg, cs[0].value) ==> ArgsValid(next);
      Apply(next, cs[1..])
  }

  /** The value of the last clause for `a`, or `dflt` when no clause names `a`. */
  function LastFor(cs: seq<Clause>, a: Arg, dflt: Option<string>): Option<string>
    decreases |cs|
  {
    if |cs| == 0 then dflt
    else if cs[|cs| - 1].arg == a then Some(cs[|cs| - 1].value)
    else LastFor(cs[..|cs| - 1], a, dflt)
  }

  /** A group repeated in one command keeps the value of its last clause. */
  lemma {:induction false} ApplyLastWins(p: ParsedCmd, cs: seq<Clause>, a: Arg)
    ensures Field(Apply(p, cs), a) == LastFor(cs, a, Field(p, a))
    decreases |cs|
  {
    if |cs| > 0 {
      var next := SetField(p, cs[0].arg, cs[0].value);
      ApplyLastWins(next, cs[1..], a);
      LastForCons(cs, a, Field(p, a), Field(next, a));
    }
  }

  lemma {:induction false} LastForCons(cs: seq<Clause>, a: Arg, dflt: Option<string>, next: Option<string>)
    requires |cs| > 0
    requires next == if cs[0].arg == a then Some(cs[0].value) else dflt
    ensures LastFor(cs[1..], a, next) == LastFor(cs, a, dflt)
    decreases |cs|
  {
    if |cs| > 1 {
      assert cs[1..][..|cs[1..]| - 1] == cs[..|cs| - 1][1..];
      LastForCons(cs[..|cs| - 1], a, dflt, next);
    }
  }

  // ---------------------------------------------------------------------------
  // search and parse_command

  /** The first position at or after `i` where `token` occurs, ignoring case. */
  function FindCI(text: string, token: string, i: nat): (r: Option<nat>)
    ensures r.Some? ==> i <= r.value && MatchesCIAt(text, r.value, token)
    ensures r.Some? ==> forall j :: i <= j < r.value ==> !MatchesCIAt(text, j, token)
    ensures r.None? ==> forall j :: i <= j ==> !MatchesCIAt(text, j, token)
    decreases |text| + 1 - i
  {
    if i + |token| > |text| then None
    else if MatchesCIAt(text, i, token) then Some(i)
    else FindCI(text, token, i + 1)
  }

  /** `[ \t]+(?P<help>help)` at `p`: where the word starts. */
  function HelpAt(text: string, p: nat): (r: Option<nat>)
    requires p <= |text|
    ensures r.Some? ==> p < r.value && MatchesCIAt(text, r.value, "help")
  {
    var b := Run(text, p, Blanks);
    if b > 0 && MatchesCIAt(text, p + b, "help") then Some(p + b) else None
  }

  /**
   * `parse_command`: `None` exactly when the call token occurs nowhere in the
   * text; otherwise the group dictionary of the match at its first
   * occurrence, which is well formed and whose token group is that occurrence.
   */
  function ParseCommand(text: string, token: string): (r: Option<ParsedCmd>)
    ensures r.None? <==> forall j :: 0 <= j ==> !MatchesCIAt(text, j, token)
    ensures r.Some? ==> WellFormed(r.value)
    ensures r.Some? ==> EqualsCI(r.value.botCmd.value, token)
    ensures r.Some? ==> exists i: nat :: MatchesCIAt(text, i, token) && r.value.botCmd.value == text[i..i + |token|]
  {
    match FindCI(text, token, 0)
    case None => None
    case Some(i) => Some(ParseAt(text, token, i))
  }

  /** The group dictionary of the match whose token occurs at `i`. */
  function ParseAt(text: string, token: string, i: nat): (r: ParsedCmd)
    requires MatchesCIAt(text, i, token)
    ensures WellFormed(r) && r.botCmd == Some(text[i..i + |token|])
  {
    var p := i + |token|;
    var bot := Unset.(botCmd := Some(text[i..p]));
    match HelpAt(text, p)
    case Some(h) =>
      TokenOnly(bot.botCmd, Some(text[h..h + 4]));
      bot.(help := Some(text[h..h + 4]))
    case None =>
      TokenOnly(bot.botCmd, None);
      ClausesValid(text, p);
      Apply(bot, ClausesFrom(text, p))
  }

  /** A dictionary with only the token and help groups set has no argument. */
  lemma {:induction false} TokenOnly(b: Option<string>, h: Option<string>)
    ensures NoArgs(Unset.(botCmd := b, help := h)) && ArgsValid(Unset.(botCmd := b, help := h))
  {
  }

  // ---------------------------------------------------------------------------
  // The group dictionary as the dispatcher counts it

  /** The pattern's group names, in pattern order. */
  const GroupNames: seq<string> := [
    "bot_cmd", "help", "status", "bounty", "description", "note", "skills", "discord", "deadline", "assignees"
  ]

  function OneIfSet(o: Option<string>): nat {
    if o.Some? then 1 else 0
  }

  /** `len([x for x in parsed_cmd if parsed_cmd[x] is not None])`. */
  function SetCount(p: ParsedCmd): nat {
    OneIfSet(p.botCmd) + OneIfSet(p.help) + OneIfSet(p.status) + OneIfSet(p.bounty)
    + OneIfSet(p.description) + OneIfSet(p.note) + OneIfSet(p.skills) + OneIfSet(p.discord)
    + OneIfSet(p.deadline) + OneIfSet(p.assignees)
  }

  /**
   * For a parsed command without `help` and `status`, "more than one group
   * set" means exactly "some other argument was given", because the token
   * group is always set.
   */
  lemma {:induction false} SetCountWithoutStatus(p: ParsedCmd)
    requires WellFormed(p) && p.help.None? && p.status.None?
    ensures SetCount(p) > 1 <==> exists a :: Field(p, a).Some?
  {
    if SetCount(p) > 1 {
      assert p.bounty.Some? || p.description.Some? || p.note.Some? || p.skills.Some?
        || p.discord.Some? || p.deadline.Some? || p.assignees.Some?;
      if p.bounty.Some? { assert Field(p, Bounty).Some?; }
      else if p.description.Some? { assert Field(p, Description).Some?; }
      else if p.note.Some? { assert Field(p, Note).Some?; }
      else if p.skills.Some? { assert Field(p, Skills).Some?; }
      else if p.discord.Some? { assert Field(p, Discord).Some?; }
      else if p.deadline.Some? { assert Field(p, Deadline).Some?; }
      else { assert Field(p, Assignees).Some?; }
    }
  }

  // ---------------------------------------------------------------------------
  // Two commands from the usage text, parsed

  const HelpText := "!ut help"
  const StatusText := "!ut status: open"

  /** `!ut help` sets the token and help groups and nothing else. */
  lemma {:induction false} HelpExample()
    ensures ParseCommand(HelpText, "!ut") == Some(Unset.(botCmd := Some("!ut"), help := Some("help")))
  {
    var t := HelpText;
    TokenFirst(t);
    assert t[3] == ' ' && t[4] == 'h';
    assert Run(t, 3, Blanks) == 1;
    assert t[4..8] == "help" by { assert t[4] == 'h' && t[5] == 'e' && t[6] == 'l' && t[7] == 'p'; }
    assert MatchesCIAt(t, 4, "help");
    assert HelpAt(t, 3) == Some(4);
  }

  lemma {:induction false} StatusValueAt()
    ensures ValueAt(StatusText, 11, Status) == Some(Hit(12, 16, 16))
  {
    var t := StatusText;
    assert t[11] == ' ' && t[12] == 'o';
    assert Run(t, 11, Spaces) == 1;
    assert t[12..16] == "open" by { assert t[12] == 'o' && t[13] == 'p' && t[14] == 'e' && t[15] == 'n'; }
    assert MatchesCIAt(t, 12, "open");
  }

  lemma {:induction false} StatusArgAt()
    ensures ArgAt(StatusText, 4, Status) == Some(Hit(12, 16, 16))
  {
    var t := StatusText;
    assert t[4..10] == "status" by {
      assert t[4] == 's' && t[5] == 't' && t[6] == 'a' && t[7] == 't' && t[8] == 'u' && t[9] == 's';
    }
    assert MatchesCIAt(t, 4, Keyword(Status));
    assert t[10] == ':';
    StatusValueAt();
  }

  lemma {:induction false} StatusClause()
    ensures ClauseAt(StatusText, 3) == Some(Step(Clause(Status, "open"), 16))
  {
    var t := StatusText;
    assert Run(t, 3, Spaces) == 1 by {
      assert t[3] == ' ' && t[4] == 's';
      assert Run(t, 4, Spaces) == 0;
    }
    assert !(t[4] == '-') by { assert t[4] == 's'; }
    assert t[12..16] == "open" by { assert t[12] == 'o' && t[13] == 'p' && t[14] == 'e' && t[15] == 'n'; }
    assert TryArgs(t, 4, 0) == Some(ArgHit(Status, Hit(12, 16, 16))) by { StatusArgAt(); }
  }

  lemma {:induction false} StatusClauses()
    ensures ClausesFrom(StatusText, 3) == [Clause(Status, "open")]
  {
    StatusClause();
    assert Run(StatusText, 16, Spaces) == 0;
    assert ClauseAt(StatusText, 16) == None;
  }

  /** `!ut status: open` sets the token and status groups and nothing else. */
  lemma {:induction false} StatusExample()
    ensures ParseCommand(StatusText, "!ut") == Some(Unset.(botCmd := Some("!ut"), status := Some("open")))
  {
    var t := StatusText;
    TokenFirst(t);
    StatusNoHelp();
    StatusClauses();
    StatusApplied();
  }

  lemma {:induction false} StatusNoHelp()
    ensures HelpAt(StatusText, 3) == None
  {
    var t := StatusText;
    assert t[3] == ' ' && t[4] == 's';
    assert !MatchesCIAt(t, 4, "help") by { assert t[4] == 's'; }
  }

  lemma {:induction false} StatusApplied()
    ensures Apply(Unset.(botCmd := Some("!ut")), [Clause(Status, "open")]) == Unset.(botCmd := Some("!ut"), status := Some("open"))
  {
    assert [Clause(Status, "open")][1..] == [];
  }

  /** A text that starts with the token finds it at once. */
  lemma {:induction false} TokenFirst(t: string)
    requires |t| >= 3 && t[0] == '!' && t[1] == 'u' && t[2] == 't'
    ensures t[0..3] == "!ut" && FindCI(t, "!ut", 0) == Some(0)
  {
    assert t[0..3] == "!ut";
    assert MatchesCIAt(t, 0, "!ut");
  }
}
