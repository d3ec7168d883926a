/** The two constant tables of the converter: where each colour of the source
    theme goes, and the template the output starts from. */
module Tables {
  import opened Doc
  import opened PyStr

  /** `COLOR_MAPPINGS`, in the order the dictionary literal lists it: a source
      colour key and the dotted target path under `custom_theme.colors`. */
  const COLOR_MAPPINGS: seq<(string, string)> := [
    ("header", "section.header"),
    ("page", "section.body"),
    ("hero", "section.hero"),
    ("accent", "section.accent"),
    ("tertiary", "section.tertiary"),
    ("stroke", "section.stroke"),
    ("footer", "section.footer"),
    ("text_hero", "text.hero"),
    ("text_primary", "text.primary"),
    ("text_secondary", "text.secondary"),
    ("text_headings", "text.headings"),
    ("text_links", "text.link"),
    ("button_primary_fill", "button.primary_fill"),
    ("button_primary_text", "button.primary_text")
  ]

  /** The two halves of each target path of `COLOR_MAPPINGS`, entry by entry. */
  const COLOR_TARGETS: seq<(string, string)> := [
    ("section", "header"),
    ("section", "body"),
    ("section", "hero"),
    ("section", "accent"),
    ("section", "tertiary"),
    ("section", "stroke"),
    ("section", "footer"),
    ("text", "hero"),
    ("text", "primary"),
    ("text", "secondary"),
    ("text", "headings"),
    ("text", "link"),
    ("button", "primary_fill"),
    ("button", "primary_text")
  ]

  /** The key list `process_colors` hands to `deep_set` for a target path. */
  function TargetKeys(path: string): (r: seq<string>)
    ensures |r| >= 3 && r[..2] == ["custom_theme", "colors"]
  {
    ["custom_theme", "colors"] + Split(path, '.')
  }

  /** A default colour record of the template. */
  function Rec(value: string, description: string): (r: Value) {
    Map(map["value" := Str(value), "description" := Str(description)])
  }

  const SECTION_DEFAULTS: Value := Map(map[
    "header" := Rec("#F8F8F8", "Background for header"),
    "body" := Rec("#FFFFFF", "Background for main content"),
    "hero" := Rec("#F8F8F8", "Background for hero section"),
    "accent" := Rec("#F8F8F8", "Subtle background"),
    "tertiary" := Rec("#FFFFFF", "Tertiary background"),
    "stroke" := Rec("rgba(0,0,0,0.1)", "Border color"),
    "footer" := Rec("#07A88D", "Background for footer")
  ])

  const TEXT_DEFAULTS: Value := Map(map[
    "header" := Rec("rgba(0,0,0,0.8)", "Header text"),
    "hero" := Rec("#FFFFFF", "Hero text"),
    "headings" := Rec("rgba(0,0,0,0.8)", "Headings text"),
    "primary" := Rec("rgba(0,0,0,0.8)", "Main content text"),
    "secondary" := Rec("rgba(0,0,0,0.8)", "Supporting text"),
    "accent" := Rec("#07A88D", "Subtle text"),
    "link" := Rec("#07A88D", "Link text"),
    "footer" := Rec("#FFFFFF", "Footer text")
  ])

  const BUTTON_DEFAULTS: Value := Map(map[
    "primary_fill" := Rec("#1155CB", "Background for Primary Button"),
    "primary_text" := Rec("#FFFFFF", "Text for Primary Button")
  ])

  /** The `text.catalog` block, which no colour mapping reaches. */
  const CATALOG: Value := Map(map[
    "welcome_message" := Str("Welcome to our platform!"),
    "primary_header" := Str("Discover our content")
  ])

  /** `custom_theme.colors` of the template: three groups of records. */
  const COLOR_DEFAULTS: Value := Map(map[
    "section" := SECTION_DEFAULTS,
    "text" := TEXT_DEFAULTS,
    "button" := BUTTON_DEFAULTS
  ])

  /** `custom_theme` of the template. */
  const THEME_DEFAULTS: Value := Map(map["colors" := COLOR_DEFAULTS])

  /** The top-level `text` block of the template. */
  const TEXT_BLOCK: Value := Map(map["catalog" := CATALOG])

  /** `DEFAULT_VALUES`, the template every output starts from. */
  const DEFAULT_VALUES: map<string, Value> := map[
    "custom_theme" := THEME_DEFAULTS,
    "text" := TEXT_BLOCK
  ]

  /** Distinct entries of a table write to paths that do not overlap. */
  predicate Apart(t: seq<(string, string)>) {
    forall e1, e2 :: e1 in t && e2 in t && e1 != e2 ==> Incomparable(TargetKeys(e1.1), TargetKeys(e2.1))
  }

  /** A dotted path with exactly one dot splits into its two halves. */
  lemma SplitAtDot(path: string, a: string, b: string)
    requires path == a + "." + b && '.' !in a && '.' !in b
    ensures Split(path, '.') == [a, b]
  {
    SplitPrefix(a, b, '.');
    assert |Split(b, '.')| == 1;
    JoinSplit(b, '.');
  }

  /** Every target path of `COLOR_MAPPINGS` splits into the group and the slot
      that `COLOR_TARGETS` names, so `deep_set` gets four keys. */
  lemma TargetsSplit(i: int)
    requires 0 <= i < |COLOR_MAPPINGS|
    ensures |COLOR_TARGETS| == |COLOR_MAPPINGS|
    ensures TargetKeys(COLOR_MAPPINGS[i].1) == ["custom_theme", "colors", COLOR_TARGETS[i].0, COLOR_TARGETS[i].1]
  {
    if i < 7 {
      JoinedSection(i);
    } else {
      JoinedRest(i);
    }
    TargetsDotless(i);
    SplitAtDot(COLOR_MAPPINGS[i].1, COLOR_TARGETS[i].0, COLOR_TARGETS[i].1);
  }

  /** The `section.*` entries are their group and slot joined by a dot. */
  lemma JoinedSection(i: int)
    requires 0 <= i < 7
    ensures |COLOR_TARGETS| == |COLOR_MAPPINGS|
    ensures COLOR_MAPPINGS[i].1 == COLOR_TARGETS[i].0 + "." + COLOR_TARGETS[i].1
  {
  }

  /** The `text.*` and `button.*` entries are their group and slot joined by
      a dot. */
  lemma JoinedRest(i: int)
    requires 7 <= i < 14
    ensures |COLOR_TARGETS| == |COLOR_MAPPINGS|
    ensures COLOR_MAPPINGS[i].1 == COLOR_TARGETS[i].0 + "." + COLOR_TARGETS[i].1
  {
  }

  /** No group or slot name holds a dot. */
  lemma TargetsDotless(i: int)
    requires 0 <= i < |COLOR_TARGETS|
    ensures '.' !in COLOR_TARGETS[i].0 && '.' !in COLOR_TARGETS[i].1
  {
  }

  /** No two entries of `COLOR_MAPPINGS` write to overlapping paths, so the
      order of the writes does not matter. */
  lemma TableApart()
    ensures Apart(COLOR_MAPPINGS)
  {
    forall e1, e2 | e1 in COLOR_MAPPINGS && e2 in COLOR_MAPPINGS && e1 != e2
      ensures Incomparable(TargetKeys(e1.1), TargetKeys(e2.1))
    {
      var i :| 0 <= i < |COLOR_MAPPINGS| && COLOR_MAPPINGS[i] == e1;
      var j :| 0 <= j < |COLOR_MAPPINGS| && COLOR_MAPPINGS[j] == e2;
      TargetsSplit(i);
      TargetsSplit(j);
      TargetsDistinct(i, j);
      var p, q := TargetKeys(e1.1), TargetKeys(e2.1);
      assert |p| == |q| == 4;
      assert p != q by {
        assert p[2..] == [COLOR_TARGETS[i].0, COLOR_TARGETS[i].1];
        assert q[2..] == [COLOR_TARGETS[j].0, COLOR_TARGETS[j].1];
      }
    }
  }

  lemma TargetsDistinct(i: int, j: int)
    requires 0 <= i < |COLOR_TARGETS| && 0 <= j < |COLOR_TARGETS| && i != j
    ensures COLOR_TARGETS[i] != COLOR_TARGETS[j]
  {
  }
}
