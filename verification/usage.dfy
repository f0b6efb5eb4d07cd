/**
 * The usage example, `TASK_EXAMPLE`. Both messages that show it put each
 * value one blank after its keyword: `--key value` joined by blanks on one
 * line, `key: value` joined by newlines on several. Each value lemma below
 * says that, in any text holding the value there, the group's own
 * alternative of the command pattern, started at that blank, reads exactly
 * the example's value. `ExampleApplied` says that the six clauses, taken
 * in the written order, give the example's group dictionary.
 */
module Usage {
  import opened Wrappers
  import opened Text
  import opened Grammar

  /** `'"' + s + '"'`. */
  function Quoted(s: string): string {
    "\"" + s + "\""
  }

  const ExampleDescription := "Short description of the task"
  const ExampleSkills := "Python, Flask, Steem"
  const ExampleMention := "351997733646761985"

  /** The group dictionary the example stands for. */
  const ExampleParsed := Unset.(
    botCmd := Some("!ut"),
    status := Some("open"),
    bounty := Some("10 SBD"),
    description := Some(ExampleDescription),
    skills := Some(ExampleSkills),
    deadline := Some("2018-01-01"),
    discord := Some("<@" + ExampleMention + ">"))

  // ---------------------------------------------------------------------------
  // The example's clauses

  /** The six clauses, in the order written. */
  const ExampleClauseList: seq<Clause> := [
    Clause(Status, "open"),
    Clause(Bounty, "10 SBD"),
    Clause(Description, ExampleDescription),
    Clause(Skills, ExampleSkills),
    Clause(Deadline, "2018-01-01"),
    Clause(Discord, "<@" + ExampleMention + ">")
  ]

  /** Taking the six clauses in order sets exactly the example's groups, each to its value. */
  lemma {:induction false} ExampleApplied()
    ensures Apply(Unset.(botCmd := Some("!ut")), ExampleClauseList) == ExampleParsed
  {
    var cs := ExampleClauseList;
    var p0 := Unset.(botCmd := Some("!ut"));
    var p1 := SetField(p0, Status, "open");
    var p2 := SetField(p1, Bounty, "10 SBD");
    var p3 := SetField(p2, Description, ExampleDescription);
    var p4 := SetField(p3, Skills, ExampleSkills);
    var p5 := SetField(p4, Deadline, "2018-01-01");
    var p6 := SetField(p5, Discord, "<@" + ExampleMention + ">");
    assert cs[1..][1..][1..][1..][1..][1..] == [];
    assert Apply(p0, cs) == Apply(p1, cs[1..]);
    assert Apply(p1, cs[1..]) == Apply(p2, cs[1..][1..]);
    assert Apply(p2, cs[1..][1..]) == Apply(p3, cs[1..][1..][1..]);
    assert Apply(p3, cs[1..][1..][1..]) == Apply(p4, cs[1..][1..][1..][1..]);
    assert Apply(p4, cs[1..][1..][1..][1..]) == Apply(p5, cs[1..][1..][1..][1..][1..]);
    assert Apply(p5, cs[1..][1..][1..][1..][1..]) == p6;
  }

  /** What follows a part held at `p`. */
  lemma {:induction false} SuffixAfter(t: string, p: nat, c: string, r: string)
    requires p <= |t| && t[p..] == c + r
    ensures p + |c| <= |t| && t[p + |c|..] == r
  {
    assert t[p + |c|..] == t[p..][|c|..];
    assert (c + r)[|c|..] == r;
  }

  // ---------------------------------------------------------------------------
  // The example's values

  /** The description holds no quote and no line break. */
  lemma {:induction false} ExampleDescriptionPlain()
    ensures '"' !in ExampleDescription && '\n' !in ExampleDescription
  {
  }

  /** The skills value is a list the skills group accepts. */
  lemma {:induction false} ExampleSkillsLang()
    ensures SkillsLang(ExampleSkills)
  {
    var words := ["Python", "Flask", "Steem"];
    assert Join(", ", words) == ExampleSkills by {
      assert words[1..] == ["Flask", "Steem"] && words[1..][1..] == ["Steem"];
    }
    forall i | 0 <= i < |words|
      ensures IsSkillName(words[i])
    {
      assert forall ch :: ch in words[i] ==> IsLetter(ch);
    }
    SkillListAccepted(words);
  }

  // ---------------------------------------------------------------------------
  // Each value, read by its group's alternative

  /** The stretch a part occupies. */
  lemma {:induction false} InfixAt(t: string, p: nat, x: string, y: string, z: string)
    requires p <= |t| && t[p..] == x + y + z
    ensures p + |x| + |y| <= |t| && t[p + |x|..p + |x| + |y|] == y
  {
    assert t[p + |x|..p + |x| + |y|] == t[p..][|x|..|x| + |y|];
    assert (x + y + z)[|x|..|x| + |y|] == y;
  }

  /** After its keyword, ` open` is read by the status alternative as `open`, whatever follows. */
  lemma {:induction false} StatusValue(t: string, k: nat, r: string)
    requires k <= |t| && t[k..] == " " + "open" + r
    ensures ValueAt(t, k, Status) == Some(Hit(k + 1, k + 5, k + 5)) && t[k + 1..k + 5] == "open"
  {
    InfixAt(t, k, " ", "open", r);
    assert t[k] == ' ' && t[k + 1] == 'o' by {
      assert t[k] == t[k..][0] && t[k + 1] == t[k + 1..k + 5][0];
    }
    RunOne(t, k, Spaces);
    assert MatchesCIAt(t, k + 1, "open");
  }

  /**
   * ` 10 SBD`, followed by the next entry's separator (a blank, then neither a
   * blank, a digit nor a comma), is read by the bounty alternative as `10 SBD`.
   */
  lemma {:induction false} BountyValue(t: string, k: nat, r: string)
    requires k <= |t| && t[k..] == " " + "10 SBD" + r
    requires |r| >= 2 && IsSpace(r[0]) && !IsSpace(r[1]) && !IsDigit(r[1]) && r[1] != ','
    ensures ValueAt(t, k, Bounty) == Some(Hit(k + 1, k + 7, k + 7)) && t[k + 1..k + 7] == "10 SBD"
  {
    InfixAt(t, k, " ", "10 SBD", r);
    SuffixAfter(t, k, " " + "10 SBD", r);
    assert t[k] == ' ' by {
      assert t[k] == t[k..][0];
    }
    assert t[k + 7] == r[0] && t[k + 8] == r[1] by {
      assert t[k + 7] == t[k + 7..][0] && t[k + 8] == t[k + 7..][1];
    }
    BountyFirstItem(t, k + 1);
    BountyNoMore(t, k + 7);
    assert BountyRepeat(t, k + 7) == k + 7;
  }

  /** `10 SBD` is one repetition of the bounty pattern. */
  lemma {:induction false} BountyFirstItem(t: string, s: nat)
    requires s + 8 <= |t| && t[s..s + 6] == "10 SBD"
    requires IsSpace(t[s + 6]) && !IsSpace(t[s + 7]) && t[s + 7] != ','
    ensures BountyItem(t, s) == Some(s + 6)
  {
    var v := t[s..s + 6];
    assert t[s] == v[0] && t[s + 1] == v[1] && t[s + 2] == v[2];
    assert t[s + 3] == v[3] && t[s + 4] == v[4] && t[s + 5] == v[5];
    RunZero(t, s, Spaces);
    AmountTen(t, s);
    UnitSbd(t, s + 3);
  }

  lemma {:induction false} AmountTen(t: string, s: nat)
    requires s + 3 <= |t| && t[s] == '1' && t[s + 1] == '0' && t[s + 2] == ' '
    ensures AmountEnd(t, s) == Some(s + 2)
  {
    RunTwo(t, s, Digits);
  }

  lemma {:induction false} UnitSbd(t: string, u: nat)
    requires u + 5 <= |t| && t[u] == 'S' && t[u + 1] == 'B' && t[u + 2] == 'D'
    requires IsSpace(t[u + 3]) && !IsSpace(t[u + 4]) && t[u + 4] != ','
    ensures UnitEnd(t, u) == Some(u + 3)
  {
    RunThree(t, u, WordChars);
    RunOne(t, u + 3, Spaces);
  }

  /** A blank and then no digit: no further repetition. */
  lemma {:induction false} BountyNoMore(t: string, a: nat)
    requires a + 1 < |t| && IsSpace(t[a]) && !IsSpace(t[a + 1]) && !IsDigit(t[a + 1])
    ensures BountyItem(t, a) == None
  {
    RunOne(t, a, Spaces);
    RunZero(t, a + 1, Digits);
  }

  /** A quoted description without quotes or line breaks is read by the description alternative, without its quotes. */
  lemma {:induction false} QuotedValue(t: string, k: nat, v: string, r: string)
    requires k <= |t| && t[k..] == " " + Quoted(v) + r
    requires |v| >= 1 && '"' !in v && '\n' !in v
    ensures ValueAt(t, k, Description) == Some(Hit(k + 2, k + 2 + |v|, k + 3 + |v|)) && t[k + 2..k + 2 + |v|] == v
  {
    var c := k + 2 + |v|;
    QuoteParts(t, k, v, r);
    Absent(t, k + 2, v, '"');
    Absent(t, k + 2, v, '\n');
    assert t[k + 2] == v[0];
    RunOne(t, k, Spaces);
    LazyCloseAt(t, k + 2, k + 3, c);
  }

  /** A quoted list without quotes that the skills group accepts is read by the skills alternative, without its quotes. */
  lemma {:induction false} SkillsValue(t: string, k: nat, v: string, r: string)
    requires k <= |t| && t[k..] == " " + Quoted(v) + r
    requires '"' !in v && SkillsLang(v)
    ensures ValueAt(t, k, Skills) == Some(Hit(k + 2, k + 2 + |v|, k + 3 + |v|)) && t[k + 2..k + 2 + |v|] == v
  {
    QuoteParts(t, k, v, r);
    Absent(t, k + 2, v, '"');
    RunOne(t, k, Spaces);
    FirstQuoteAt(t, k + 2, k + 2 + |v|);
  }

  /** Where the blank, the quotes and the quoted text of a quoted value are. */
  lemma {:induction false} QuoteParts(t: string, k: nat, v: string, r: string)
    requires k <= |t| && t[k..] == " " + Quoted(v) + r
    ensures k + 2 + |v| < |t| && t[k] == ' ' && t[k + 1] == '"' && t[k + 2 + |v|] == '"'
    ensures t[k + 2..k + 2 + |v|] == v
  {
    assert t[k..] == " \"" + v + ("\"" + r);
    InfixAt(t, k, " \"", v, "\"" + r);
    SuffixAfter(t, k, " \"" + v, "\"" + r);
    assert t[k] == t[k..][0] && t[k + 1] == t[k..][1];
    assert t[k + 2 + |v|] == t[k + 2 + |v|..][0];
  }

  /** ` 2018-01-01`, not followed by a time (`T...`), is read by the deadline alternative as the date. */
  lemma {:induction false} DeadlineValue(t: string, k: nat, r: string)
    requires k <= |t| && t[k..] == " " + "2018-01-01" + r
    requires r == [] || (r[0] != 'T' && r[0] != 't')
    ensures ValueAt(t, k, Deadline) == Some(Hit(k + 1, k + 11, k + 11)) && t[k + 1..k + 11] == "2018-01-01"
  {
    InfixAt(t, k, " ", "2018-01-01", r);
    SuffixAfter(t, k, " " + "2018-01-01", r);
    assert t[k] == ' ' && t[k + 1] == '2' by {
      assert t[k] == t[k..][0] && t[k + 1] == t[k + 1..k + 11][0];
    }
    RunOne(t, k, Spaces);
    ExampleDate();
    assert TimeSuffix(t, k + 11) == 0 by {
      if k + 20 <= |t| {
        assert t[k + 11..k + 20][0] == t[k + 11..][0] == r[0];
      }
    }
  }

  lemma {:induction false} ExampleDate()
    ensures IsDateValue("2018-01-01")
  {
    var v := "2018-01-01";
    assert v[0] == '2' && v[1] == '0' && v[2] == '1' && v[3] == '8' && v[4] == '-';
    assert v[5] == '0' && v[6] == '1' && v[7] == '-' && v[8] == '0' && v[9] == '1';
  }

  /** A mention `<@digits>` is read by the discord alternative as itself, whatever follows. */
  lemma {:induction false} DiscordValue(t: string, k: nat, d: string, r: string)
    requires k <= |t| && t[k..] == " " + ("<@" + d + ">") + r
    requires |d| >= 1 && forall ch :: ch in d ==> IsDigit(ch)
    ensures ValueAt(t, k, Discord) == Some(Hit(k + 1, k + 4 + |d|, k + 4 + |d|)) && t[k + 1..k + 4 + |d|] == "<@" + d + ">"
  {
    InfixAt(t, k, " ", "<@" + d + ">", r);
    SuffixAfter(t, k, " ", "<@" + d + ">" + r);
    assert t[k] == ' ' by {
      assert t[k] == t[k..][0];
    }
    MentionOf(t, k + 1, d, r);
  }

  /** `<@digits>` at `m` is a mention ending just after the `>`. */
  lemma {:induction false} MentionOf(t: string, m: nat, d: string, r: string)
    requires m <= |t| && t[m..] == "<@" + d + ">" + r
    requires |d| >= 1 && forall ch :: ch in d ==> IsDigit(ch)
    ensures MentionAt(t, m) == Some(m + 3 + |d|)
  {
    assert t[m..] == "<@" + d + (">" + r);
    InfixAt(t, m, "<@", d, ">" + r);
    SuffixAfter(t, m, "<@" + d, ">" + r);
    assert t[m] == '<' && t[m + 1] == '@' by {
      assert t[m] == t[m..][0] && t[m + 1] == t[m..][1];
    }
    assert t[m + 2 + |d|] == '>' by {
      assert t[m + 2 + |d|] == t[m + 2 + |d|..][0];
    }
    assert t[m + 2] == d[0] by {
      assert t[m + 2] == t[m + 2..m + 2 + |d|][0];
    }
    DigitsRun(t, m + 2, d);
  }

  /** A character absent from a stretch's text is absent from the stretch. */
  lemma {:induction false} Absent(t: string, s: nat, v: string, ch: char)
    requires s + |v| <= |t| && t[s..s + |v|] == v && ch !in v
    ensures forall m :: s <= m < s + |v| ==> t[m] != ch
  {
    forall m | s <= m < s + |v|
      ensures t[m] != ch
    {
      assert t[m] == v[m - s];
    }
  }

  // ---------------------------------------------------------------------------
  // Scanning a known stretch

  /** No `cls` character at `i`. */
  lemma {:induction false} RunZero(t: string, i: nat, cls: CharClass)
    requires i <= |t| && (i == |t| || !InClass(t[i], cls))
    ensures Run(t, i, cls) == 0
  {
  }

  /** Exactly one `cls` character at `i`. */
  lemma {:induction false} RunOne(t: string, i: nat, cls: CharClass)
    requires i + 1 < |t| && InClass(t[i], cls) && !InClass(t[i + 1], cls)
    ensures Run(t, i, cls) == 1
  {
    RunZero(t, i + 1, cls);
  }

  lemma {:induction false} RunTwo(t: string, i: nat, cls: CharClass)
    requires i + 2 < |t| && InClass(t[i], cls) && InClass(t[i + 1], cls) && !InClass(t[i + 2], cls)
    ensures Run(t, i, cls) == 2
  {
    RunOne(t, i + 1, cls);
  }

  lemma {:induction false} RunThree(t: string, i: nat, cls: CharClass)
    requires i + 3 < |t| && InClass(t[i], cls) && InClass(t[i + 1], cls)
    requires InClass(t[i + 2], cls) && !InClass(t[i + 3], cls)
    ensures Run(t, i, cls) == 3
  {
    RunTwo(t, i + 1, cls);
  }

  /** A stretch of digits `d` at `i`, followed by a non-digit. */
  lemma {:induction false} DigitsRun(t: string, i: nat, d: string)
    requires i + |d| < |t| && t[i..i + |d|] == d && !IsDigit(t[i + |d|])
    requires forall ch :: ch in d ==> IsDigit(ch)
    ensures Run(t, i, Digits) == |d|
  {
    forall m | i <= m < i + |d|
      ensures IsDigit(t[m])
    {
      assert t[m] == d[m - i];
    }
    RunExact(t, i, |d|, Digits);
  }

  lemma {:induction false} RunExact(t: string, i: nat, n: nat, cls: CharClass)
    requires i + n <= |t|
    requires forall k :: i <= k < i + n ==> InClass(t[k], cls)
    requires i + n == |t| || !InClass(t[i + n], cls)
    ensures Run(t, i, cls) == n
    decreases n
  {
    if n > 0 {
      RunExact(t, i + 1, n - 1, cls);
    }
  }

  lemma {:induction false} LazyCloseAt(t: string, s: nat, j: nat, c: nat)
    requires s < j <= c < |t| && t[c] == '"'
    requires forall k :: s <= k < c ==> t[k] != '\n'
    requires forall k :: s < k < c ==> t[k] != '"'
    ensures LazyClose(t, s, j) == Some(c)
    decreases c - j
  {
    if j < c {
      LazyCloseAt(t, s, j + 1, c);
    }
  }

  lemma {:induction false} FirstQuoteAt(t: string, j: nat, c: nat)
    requires j <= c < |t| && t[c] == '"'
    requires forall k :: j <= k < c ==> t[k] != '"'
    ensures FirstQuote(t, j) == Some(c)
    decreases c - j
  {
    if j < c {
      FirstQuoteAt(t, j + 1, c);
    }
  }
}
