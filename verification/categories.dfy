/**
 * The Utopian category tables: `CATEGORIES_PROPERTIES` with its alias keys,
 * the `TASKS_PROPERTIES` table derived from it, and the decoding of a
 * `"#rrggbb"` colour into the integer a Discord embed carries.
 */
module Categories {
  import opened Wrappers
  import opened Text

  datatype CategoryProps = CategoryProps(color: string, name: string, imageUrl: string)

  datatype TaskProps = TaskProps(color: string, name: string, category: string, imageUrl: string)

  const Analysis := CategoryProps("#164265", "analysis", "https://i.imgsafe.org/6e/6e1ebd6655.png")
  const Ideas := CategoryProps("#54d2a0", "ideas", "https://i.imgsafe.org/6e/6e0c6738dc.png")
  const Development := CategoryProps("#000", "development", "https://i.imgsafe.org/89/8900cca3dd.png")
  const BugHunting := CategoryProps("#d9534f", "bug-hunting", "https://i.imgsafe.org/6e/6e0c5d5b89.png")
  const Translations := CategoryProps("#ffce3d", "translations", "https://i.imgsafe.org/6e/6e0c6a5717.png")
  const Graphics := CategoryProps("#f6a623", "graphics", "https://i.imgsafe.org/6e/6e0c637019.png")
  const Social := CategoryProps("#7ec2f3", "social", "https://i.imgsafe.org/6e/6e0c699e7f.png")
  const Documentation := CategoryProps("#b1b1b1", "documentation", "https://i.imgsafe.org/6e/6e0c6379e7.png")
  const Tutorials := CategoryProps("#782c51", "tutorials", "https://i.imgsafe.org/6e/6e0c6c2d63.png")
  const VideoTutorials := CategoryProps("#ec3324", "video-tutorials", "https://i.imgsafe.org/6e/6e0c6cff9f.png")
  const Copywriting := CategoryProps("#008080", "copywriting", "https://i.imgsafe.org/6e/6e0c5f3cd9.png")
  const Blog := CategoryProps("#0275d8", "blog", "https://i.imgsafe.org/6e/6e0c5c9970.png")
  const IAmUtopian := CategoryProps("#B10DC9", "iamutopian", "https://i.imgsafe.org/6e/6e0c66aa52.png")
  const AntiAbuse := CategoryProps("#800000", "anti-abuse", "https://i.imgsafe.org/6e/6e0c58ea30.png")

  /** The fourteen categories in declaration order. */
  const BaseCategories: seq<CategoryProps> := [
    Analysis, Ideas, Development, BugHunting, Translations, Graphics, Social,
    Documentation, Tutorials, VideoTutorials, Copywriting, Blog, IAmUtopian, AntiAbuse
  ]

  /** `CATEGORIES_PROPERTIES`: each category under its own name, then the alias keys. */
  const CategoriesProperties: map<string, CategoryProps> := map[
    "analysis" := Analysis,
    "ideas" := Ideas,
    "development" := Development,
    "bug-hunting" := BugHunting,
    "translations" := Translations,
    "graphics" := Graphics,
    "social" := Social,
    "documentation" := Documentation,
    "tutorials" := Tutorials,
    "video-tutorials" := VideoTutorials,
    "copywriting" := Copywriting,
    "blog" := Blog,
    "iamutopian" := IAmUtopian,
    "anti-abuse" := AntiAbuse,
    "suggestions" := Ideas,
    "bughunting" := BugHunting,
    "visibility" := Social,
    "tutorial" := Tutorials,
    "videotutorials" := VideoTutorials,
    "videotutorial" := VideoTutorials,
    "video-tutorial" := VideoTutorials,
    "antiabuse" := AntiAbuse
  ]

  /** The alias keys and the category each one shares its entry with. */
  const Aliases: map<string, string> := map[
    "suggestions" := "ideas",
    "bughunting" := "bug-hunting",
    "visibility" := "social",
    "tutorial" := "tutorials",
    "videotutorials" := "video-tutorials",
    "videotutorial" := "video-tutorials",
    "video-tutorial" := "video-tutorials",
    "antiabuse" := "anti-abuse"
  ]

  const TaskPrefix := "task-"

  function TaskKey(k: string): string {
    TaskPrefix + k
  }

  function TaskEntry(v: CategoryProps): TaskProps {
    TaskProps(v.color, TaskPrefix + v.name, v.name, v.imageUrl)
  }

  /**
   * The loop that builds `TASKS_PROPERTIES`: every category key `k` gives the
   * key `"task-" + k`, whose entry keeps the colour and image, prefixes the
   * name and records the category's name; there is no other key.
   */
  function DeriveTasks(cats: map<string, CategoryProps>): (t: map<string, TaskProps>)
    ensures forall k :: k in cats ==> TaskKey(k) in t && t[TaskKey(k)] == TaskEntry(cats[k])
    ensures forall tk :: tk in t ==> StartsWith(tk, TaskPrefix) && tk[|TaskPrefix|..] in cats
  {
    TaskKeyInjective();
    var t := map k | k in cats :: TaskKey(k) := TaskEntry(cats[k]);
    assert forall tk :: tk in t ==> exists k :: k in cats && tk == TaskKey(k);
    t
  }

  /** Distinct category keys give distinct task keys. */
  lemma {:induction false} TaskKeyInjective()
    ensures forall a, b :: TaskKey(a) == TaskKey(b) ==> a == b
  {
    forall a, b | TaskKey(a) == TaskKey(b)
      ensures a == b
    {
      assert TaskKey(a)[|TaskPrefix|..] == a;
      assert TaskKey(b)[|TaskPrefix|..] == b;
    }
  }

  const TasksProperties: map<string, TaskProps> := DeriveTasks(CategoriesProperties)

  /** Prefixing every key with `"task-"` loses no key: the derived table is as large as its source. */
  lemma {:induction false} DeriveTasksSize(cats: map<string, CategoryProps>)
    ensures |DeriveTasks(cats)| == |cats|
  {
    var t := DeriveTasks(cats);
    ImageSize(cats.Keys);
    assert t.Keys == set k | k in cats.Keys :: TaskKey(k);
  }

  lemma {:induction false} ImageSize(ks: set<string>)
    ensures |set k | k in ks :: TaskKey(k)| == |ks|
    decreases |ks|
  {
    if ks != {} {
      var k :| k in ks;
      var rest := ks - {k};
      ImageSize(rest);
      var img := set x | x in ks :: TaskKey(x);
      var restImg := set x | x in rest :: TaskKey(x);
      assert img == restImg + {TaskKey(k)};
      assert TaskKey(k) !in restImg by {
        TaskKeyInjective();
      }
    }
  }

  // ---------------------------------------------------------------------------
  // Colours

  function HexDigitValue(c: char): (v: nat)
    requires IsHexDigit(c)
    ensures v < 16
  {
    if IsDigit(c) then c as int - '0' as int
    else if 'a' <= c <= 'f' then c as int - 'a' as int + 10
    else c as int - 'A' as int + 10
  }

  predicate AllHex(s: string) {
    forall k :: 0 <= k < |s| ==> IsHexDigit(s[k])
  }

  function Pow16(n: nat): (p: nat)
    ensures p >= 1
  {
    if n == 0 then 1 else 16 * Pow16(n - 1)
  }

  /** The value of a string of hex digits, most significant first. */
  function HexValue(s: string): nat
    requires AllHex(s)
    decreases |s|
  {
    if |s| == 0 then 0
    else 16 * HexValue(s[..|s| - 1]) + HexDigitValue(s[|s| - 1])
  }

  /** `n` hex digits denote less than `16^n`. */
  lemma {:induction false} HexValueBound(s: string)
    requires AllHex(s)
    ensures HexValue(s) < Pow16(|s|)
    decreases |s|
  {
    if |s| > 0 {
      HexValueBound(s[..|s| - 1]);
    }
  }

  /**
   * Python's `int(s, 16)` on a string of plain hex digits: their value when
   * there is at least one, `None` for the empty string or a string holding
   * any other character. `int` also accepts surrounding blanks, a sign, a
   * `0x` prefix and underscores between digits; the colours of the table
   * use none of them.
   */
  function ParseHex(s: string): (r: Option<nat>)
    ensures r.Some? <==> |s| > 0 && AllHex(s)
    ensures r.Some? ==> r.value < Pow16(|s|)
  {
    if |s| > 0 && AllHex(s) then
      HexValueBound(s);
      Some(HexValue(s))
    else None
  }

  /** `int(color[1:], 16)`: the colour with its first character dropped, read in base 16. */
  function ColorValue(color: string): Option<nat> {
    ParseHex(if |color| == 0 then "" else color[1..])
  }

  /** A colour as the tables write it: `#` and then one or more hex digits. */
  predicate IsHexColor(color: string) {
    |color| >= 2 && color[0] == '#' && AllHex(color[1..])
  }

  lemma {:induction false} HexColorDecodes(color: string)
    requires IsHexColor(color)
    ensures ColorValue(color).Some?
    ensures ColorValue(color).value < Pow16(|color| - 1)
  {
  }

  /** Every category colour is well formed, so decoding it never raises. */
  lemma {:induction false} CategoryColorsAreHex()
    ensures forall k :: k in CategoriesProperties ==> IsHexColor(CategoriesProperties[k].color)
  {
    FirstColorsHex();
    LastColorsHex();
    assert forall k :: k in CategoriesProperties ==> CategoriesProperties[k] in BaseCategories;
  }

  /** The colours of the first seven categories. */
  lemma {:induction false} FirstColorsHex()
    ensures forall i :: 0 <= i < 7 ==> IsHexColor(BaseCategories[i].color)
  {
    forall i | 0 <= i < 7
      ensures IsHexColor(BaseCategories[i].color)
    {
    }
  }

  /** The colours of the last seven categories. */
  lemma {:induction false} LastColorsHex()
    ensures forall i :: 7 <= i < |BaseCategories| ==> IsHexColor(BaseCategories[i].color)
  {
    forall i | 7 <= i < |BaseCategories|
      ensures IsHexColor(BaseCategories[i].color)
    {
    }
  }

  /** Every task colour is a copy of a category colour, so it decodes too. */
  lemma {:induction false} TaskColorsDecode()
    ensures forall tk :: tk in TasksProperties ==> ColorValue(TasksProperties[tk].color).Some?
  {
    CategoryColorsAreHex();
    forall tk | tk in TasksProperties
      ensures ColorValue(TasksProperties[tk].color).Some?
    {
      var k := tk[|TaskPrefix|..];
      assert tk == TaskKey(k);
      HexColorDecodes(CategoriesProperties[k].color);
    }
  }

  lemma {:induction false} DevelopmentColorIsZero()
    ensures ColorValue(CategoriesProperties["development"].color) == Some(0)
  {
    var hex := CategoriesProperties["development"].color[1..];
    assert hex == "000" by {
      assert hex[0] == '0' && hex[1] == '0' && hex[2] == '0';
    }
    ZerosValue(hex);
  }

  /** A run of `0` digits denotes zero. */
  lemma {:induction false} ZerosValue(s: string)
    requires forall k :: 0 <= k < |s| ==> s[k] == '0'
    ensures AllHex(s) && HexValue(s) == 0
    decreases |s|
  {
    if |s| > 0 {
      var init := s[..|s| - 1];
      assert forall k :: 0 <= k < |init| ==> init[k] == s[k];
      ZerosValue(init);
    }
  }

  // ---------------------------------------------------------------------------
  // Facts about the concrete tables

  /** Each alias key holds the very entry of the category it names. */
  lemma {:induction false} AliasesShareEntries()
    ensures forall a :: a in Aliases ==> a in CategoriesProperties && Aliases[a] in CategoriesProperties
    ensures forall a :: a in Aliases ==> CategoriesProperties[a] == CategoriesProperties[Aliases[a]]
  {
    forall a | a in Aliases
      ensures a in CategoriesProperties && Aliases[a] in CategoriesProperties
      ensures CategoriesProperties[a] == CategoriesProperties[Aliases[a]]
    {
      AliasEntry(a);
    }
  }

  /** One alias at a time: the case split keeps each map lookup small. */
  lemma {:induction false} AliasEntry(a: string)
    requires a in Aliases
    ensures a in CategoriesProperties && Aliases[a] in CategoriesProperties
    ensures CategoriesProperties[a] == CategoriesProperties[Aliases[a]]
  {
    if a == "suggestions" {
      assert Aliases[a] == "ideas";
    } else if a == "bughunting" {
      assert Aliases[a] == "bug-hunting";
    } else if a == "visibility" {
      assert Aliases[a] == "social";
    } else if a == "tutorial" {
      assert Aliases[a] == "tutorials";
    } else if a == "videotutorials" || a == "videotutorial" || a == "video-tutorial" {
      assert Aliases[a] == "video-tutorials";
    } else {
      assert a == "antiabuse";
      assert Aliases[a] == "anti-abuse";
    }
  }

  /** The task entry of an alias copies its canonical category: e.g. `task-suggestions` is an ideas task. */
  lemma {:induction false} TaskAliasesShareCategory(a: string)
    requires a in Aliases
    ensures TaskKey(a) in TasksProperties && TaskKey(Aliases[a]) in TasksProperties
    ensures TasksProperties[TaskKey(a)] == TasksProperties[TaskKey(Aliases[a])]
    ensures TasksProperties[TaskKey(a)].category == Aliases[a]
  {
    AliasesShareEntries();
  }

  lemma {:induction false} TaskTableShape()
    ensures |TasksProperties| == |CategoriesProperties|
    ensures forall tk :: tk in TasksProperties ==> StartsWith(tk, TaskPrefix)
  {
    DeriveTasksSize(CategoriesProperties);
  }
}
