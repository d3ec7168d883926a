/** What `process_colors` does to the output document, stated on values, and
    what follows from it: every mapped colour lands verbatim at its target,
    everything else keeps its value, and the order of the table is
    irrelevant. */
module Colors {
  import opened Doc
  import opened PyStr
  import opened Tables

  /** Python's `k in s` for a string `s`: `k` occurs somewhere in `s`. */
  predicate IsSubstring(k: string, s: string) {
    exists i :: 0 <= i <= |s| && k <= s[i..]
  }

  /** Python's `k in v`: key membership for a mapping, a substring test for a
      string. */
  predicate PyIn(k: string, v: Value) {
    match v
    case Map(m) => k in m
    case Str(s) => IsSubstring(k, s)
  }

  /** One iteration of the loop of `process_colors` on the table entry `e`,
      given the value of `source_data['colors']`. Indexing a string with a
      string key raises, and so does `deep_set`. */
  function ColorStep(o: Option<map<string, Value>>, colors: Value, e: (string, string)): (r: Option<map<string, Value>>)
  {
    if o.None? || !PyIn(e.0, colors) then o
    else if colors.Str? then None
    else Put(o.value, TargetKeys(e.1), colors.entries[e.0])
  }

  /** The iterations over the entries of `t`, in order. */
  function ApplyColors(o: Option<map<string, Value>>, colors: Value, t: seq<(string, string)>): (r: Option<map<string, Value>>)
    decreases |t|
  {
    if t == [] then o else ApplyColors(ColorStep(o, colors, t[0]), colors, t[1..])
  }

  /** `process_colors(source, target)` on a target with entries `m`: None is
      the exception it raises. `source_data['colors']` is looked up with no
      presence check, so a source without `colors` fails. */
  function ColorsSpec(m: map<string, Value>, source: Value): (r: Option<map<string, Value>>)
  {
    TableSpec(m, source, COLOR_MAPPINGS)
  }

  /** `process_colors` driven by the mapping table `t`. The loop reads
      `source_data['colors']` only inside an iteration, so an empty table
      never looks at the source. */
  function TableSpec(m: map<string, Value>, source: Value, t: seq<(string, string)>): (r: Option<map<string, Value>>)
  {
    if source.Str? || "colors" !in source.entries then (if t == [] then Some(m) else None)
    else ApplyColors(Some(m), source.entries["colors"], t)
  }

  /** Once an iteration has raised, nothing after it runs. */
  lemma {:induction false} ApplyNone(colors: Value, t: seq<(string, string)>)
    ensures ApplyColors(None, colors, t) == None
    decreases |t|
  {
    if t != [] {
      ApplyNone(colors, t[1..]);
    }
  }

  /** Two iterations whose writes do not overlap can be swapped, whether they
      succeed or raise. */
  lemma StepsCommute(o: Option<map<string, Value>>, colors: Value, e1: (string, string), e2: (string, string))
    requires e1 == e2 || Incomparable(TargetKeys(e1.1), TargetKeys(e2.1))
    ensures ColorStep(ColorStep(o, colors, e1), colors, e2) == ColorStep(ColorStep(o, colors, e2), colors, e1)
  {
    if e1 != e2 && o.Some? && PyIn(e1.0, colors) && PyIn(e2.0, colors) && colors.Map? {
      PutCommute(o.value, TargetKeys(e1.1), colors.entries[e1.0], TargetKeys(e2.1), colors.entries[e2.0]);
    }
  }

  /** The entry at index `j` can be moved to the front. */
  lemma {:induction false} ApplyMoveFront(o: Option<map<string, Value>>, colors: Value, t: seq<(string, string)>, j: int)
    requires Apart(t) && 0 <= j < |t|
    ensures ApplyColors(o, colors, t) == ApplyColors(ColorStep(o, colors, t[j]), colors, t[..j] + t[j + 1..])
    decreases j
  {
    if j > 0 {
      var t' := t[1..];
      assert Apart(t') by {
        forall e | e in t' ensures e in t {
        }
      }
      var s0 := ColorStep(o, colors, t[0]);
      ApplyMoveFront(s0, colors, t', j - 1);
      assert t'[j - 1] == t[j];
      assert t[0] in t && t[j] in t;
      StepsCommute(o, colors, t[0], t[j]);
      var rest := t'[..j - 1] + t'[j..];
      assert t[..j] + t[j + 1..] == [t[0]] + rest;
      assert ([t[0]] + rest)[0] == t[0] && ([t[0]] + rest)[1..] == rest;
      calc {
        ApplyColors(o, colors, t);
        ApplyColors(s0, colors, t');
        ApplyColors(ColorStep(s0, colors, t[j]), colors, rest);
        ApplyColors(ColorStep(ColorStep(o, colors, t[j]), colors, t[0]), colors, rest);
        ApplyColors(ColorStep(o, colors, t[j]), colors, [t[0]] + rest);
      }
    } else {
      assert t[..j] + t[j + 1..] == t[1..];
    }
  }

  /** Walking any rearrangement of a table whose writes do not overlap gives
      the same result. */
  lemma {:induction false} ApplyPerm(o: Option<map<string, Value>>, colors: Value, t1: seq<(string, string)>, t2: seq<(string, string)>)
    requires Apart(t2) && multiset(t1) == multiset(t2)
    ensures ApplyColors(o, colors, t1) == ApplyColors(o, colors, t2)
    decreases |t1|
  {
    if t1 != [] {
      assert t1[0] in multiset(t2);
      var j :| 0 <= j < |t2| && t2[j] == t1[0];
      ApplyMoveFront(o, colors, t2, j);
      var t2' := t2[..j] + t2[j + 1..];
      assert t2 == t2[..j] + [t2[j]] + t2[j + 1..];
      assert t1 == [t1[0]] + t1[1..];
      assert multiset(t2) == multiset(t2') + multiset{t1[0]};
      assert multiset(t1) == multiset(t1[1..]) + multiset{t1[0]};
      assert multiset(t1[1..]) == multiset(t1) - multiset{t1[0]};
      assert multiset(t2') == multiset(t2) - multiset{t1[0]};
      assert Apart(t2') by {
        forall e | e in t2' ensures e in t2 {
          assert e in multiset(t2');
        }
      }
      ApplyPerm(ColorStep(o, colors, t1[0]), colors, t1[1..], t2');
    } else {
      assert |t2| == |multiset(t2)| == 0;
    }
  }

  /** The result of `process_colors` does not depend on the order in which the
      mapping table is walked. */
  lemma ColorsOrderIrrelevant(m: map<string, Value>, source: Value, order: seq<(string, string)>)
    requires source.Map? && "colors" in source.entries
    requires multiset(order) == multiset(COLOR_MAPPINGS)
    ensures ApplyColors(Some(m), source.entries["colors"], order) == ColorsSpec(m, source)
  {
    TableApart();
    ApplyPerm(Some(m), source.entries["colors"], order, COLOR_MAPPINGS);
  }

  /** A path that no performed write touches keeps its value. */
  lemma {:induction false} ApplyOther(m: map<string, Value>, colors: Value, t: seq<(string, string)>, q: seq<string>)
    requires ApplyColors(Some(m), colors, t).Some?
    requires forall e :: e in t && PyIn(e.0, colors) ==> Incomparable(TargetKeys(e.1), q)
    ensures Lookup(Map(ApplyColors(Some(m), colors, t).value), q) == Lookup(Map(m), q)
    decreases |t|
  {
    if t != [] {
      var o := ColorStep(Some(m), colors, t[0]);
      if o.None? {
        ApplyNone(colors, t[1..]);
      } else {
        if PyIn(t[0].0, colors) {
          PutOther(m, TargetKeys(t[0].1), colors.entries[t[0].0], q);
        }
        ApplyOther(o.value, colors, t[1..], q);
      }
    }
  }

  /** Each performed write leaves the source value, as it is, at its target. */
  lemma {:induction false} ApplyWrites(m: map<string, Value>, colors: Value, t: seq<(string, string)>, e: (string, string))
    requires Apart(t) && e in t && PyIn(e.0, colors)
    requires ApplyColors(Some(m), colors, t).Some?
    ensures colors.Map?
    ensures Lookup(Map(ApplyColors(Some(m), colors, t).value), TargetKeys(e.1)) == Some(colors.entries[e.0])
    decreases |t|
  {
    var o := ColorStep(Some(m), colors, t[0]);
    if o.None? {
      ApplyNone(colors, t[1..]);
    } else if e in t[1..] {
      assert Apart(t[1..]) by {
        forall e' | e' in t[1..] ensures e' in t {
        }
      }
      ApplyWrites(o.value, colors, t[1..], e);
    } else {
      assert e == t[0];
      PutGet(m, TargetKeys(e.1), colors.entries[e.0]);
      forall e' | e' in t[1..] && PyIn(e'.0, colors)
        ensures Incomparable(TargetKeys(e'.1), TargetKeys(e.1))
      {
      }
      ApplyOther(o.value, colors, t[1..], TargetKeys(e.1));
    }
  }

  /** For every mapped key present in `source.colors`, the output holds the
      source value verbatim at the key's target path: the default
      `{value, description}` record there is replaced, not merged into. */
  lemma ColorsWriteMapped(m: map<string, Value>, source: Value, e: (string, string))
    requires ColorsSpec(m, source).Some?
    requires e in COLOR_MAPPINGS && source.Map? && "colors" in source.entries
    requires PyIn(e.0, source.entries["colors"])
    ensures source.entries["colors"].Map?
    ensures Lookup(Map(ColorsSpec(m, source).value), TargetKeys(e.1)) == Some(source.entries["colors"].entries[e.0])
  {
    TableApart();
    TableWrites(m, source, COLOR_MAPPINGS, e);
  }

  lemma TableWrites(m: map<string, Value>, source: Value, t: seq<(string, string)>, e: (string, string))
    requires Apart(t) && TableSpec(m, source, t).Some?
    requires e in t && source.Map? && "colors" in source.entries
    requires PyIn(e.0, source.entries["colors"])
    ensures source.entries["colors"].Map?
    ensures Lookup(Map(TableSpec(m, source, t).value), TargetKeys(e.1)) == Some(source.entries["colors"].entries[e.0])
  {
    ApplyWrites(m, source.entries["colors"], t, e);
  }

  /** A mapped key absent from `source.colors` leaves its target as it was. */
  lemma ColorsKeepUnset(m: map<string, Value>, source: Value, e: (string, string))
    requires ColorsSpec(m, source).Some?
    requires e in COLOR_MAPPINGS && source.Map? && "colors" in source.entries
    requires !PyIn(e.0, source.entries["colors"])
    ensures Lookup(Map(ColorsSpec(m, source).value), TargetKeys(e.1)) == Lookup(Map(m), TargetKeys(e.1))
  {
    TableApart();
    TableKeepsUnset(m, source, COLOR_MAPPINGS, e);
  }

  lemma TableKeepsUnset(m: map<string, Value>, source: Value, t: seq<(string, string)>, e: (string, string))
    requires Apart(t) && TableSpec(m, source, t).Some?
    requires e in t && source.Map? && "colors" in source.entries
    requires !PyIn(e.0, source.entries["colors"])
    ensures Lookup(Map(TableSpec(m, source, t).value), TargetKeys(e.1)) == Lookup(Map(m), TargetKeys(e.1))
  {
    var colors := source.entries["colors"];
    forall e' | e' in t && PyIn(e'.0, colors)
      ensures Incomparable(TargetKeys(e'.1), TargetKeys(e.1))
    {
    }
    ApplyOther(m, colors, t, TargetKeys(e.1));
  }

  /** A path that overlaps no target path of the table keeps its value. */
  lemma ColorsKeepUntargeted(m: map<string, Value>, source: Value, q: seq<string>)
    requires ColorsSpec(m, source).Some?
    requires forall e :: e in COLOR_MAPPINGS ==> Incomparable(TargetKeys(e.1), q)
    ensures Lookup(Map(ColorsSpec(m, source).value), q) == Lookup(Map(m), q)
  {
    ApplyOther(m, source.entries["colors"], COLOR_MAPPINGS, q);
  }

  /** Only the mapped keys of the source's colours matter: two sources whose
      colour mappings agree on every key of the table give the same result, so
      unmapped keys never reach the output. */
  lemma {:induction false} ApplyIgnoresUnmapped(o: Option<map<string, Value>>, c1: map<string, Value>, c2: map<string, Value>, t: seq<(string, string)>)
    requires forall e :: e in t ==> (e.0 in c1 <==> e.0 in c2) && (e.0 in c1 ==> c1[e.0] == c2[e.0])
    ensures ApplyColors(o, Map(c1), t) == ApplyColors(o, Map(c2), t)
    decreases |t|
  {
    if t != [] {
      assert ColorStep(o, Map(c1), t[0]) == ColorStep(o, Map(c2), t[0]);
      ApplyIgnoresUnmapped(ColorStep(o, Map(c1), t[0]), c1, c2, t[1..]);
    }
  }

  lemma ColorsIgnoreUnmapped(m: map<string, Value>, s1: map<string, Value>, s2: map<string, Value>)
    requires "colors" in s1 && "colors" in s2 && s1["colors"].Map? && s2["colors"].Map?
    requires var c1, c2 := s1["colors"].entries, s2["colors"].entries;
             forall e :: e in COLOR_MAPPINGS ==> (e.0 in c1 <==> e.0 in c2) && (e.0 in c1 ==> c1[e.0] == c2[e.0])
    ensures ColorsSpec(m, Map(s1)) == ColorsSpec(m, Map(s2))
  {
    var c1, c2 := s1["colors"].entries, s2["colors"].entries;
    assert s1["colors"] == Map(c1) && s2["colors"] == Map(c2);
    ApplyIgnoresUnmapped(Some(m), c1, c2, COLOR_MAPPINGS);
  }

  /** Every proper prefix of every target path is free of strings, so each
      `deep_set` of the table can go down to its last key. */
  predicate Open(m: map<string, Value>) {
    forall e, j :: e in COLOR_MAPPINGS && 0 < j < |TargetKeys(e.1)| ==> !IsText(Lookup(Map(m), TargetKeys(e.1)[..j]))
  }

  lemma TargetLength(e: (string, string))
    requires e in COLOR_MAPPINGS
    ensures |TargetKeys(e.1)| == 4
  {
    var i :| 0 <= i < |COLOR_MAPPINGS| && COLOR_MAPPINGS[i] == e;
    TargetsSplit(i);
  }

  /** On an open document the write of a table entry succeeds and leaves the
      document open. */
  lemma OpenPut(m: map<string, Value>, e: (string, string), x: Value)
    requires Open(m) && e in COLOR_MAPPINGS
    ensures Put(m, TargetKeys(e.1), x).Some?
    ensures Open(Put(m, TargetKeys(e.1), x).value)
  {
    var keys := TargetKeys(e.1);
    PutSucceedsIff(m, keys, x);
    var m' := Put(m, keys, x).value;
    TargetLength(e);
    forall e', j | e' in COLOR_MAPPINGS && 0 < j < |TargetKeys(e'.1)|
      ensures !IsText(Lookup(Map(m'), TargetKeys(e'.1)[..j]))
    {
      TargetLength(e');
      var p := TargetKeys(e'.1)[..j];
      if p < keys {
        PutPrefix(m, keys, x, p);
      } else {
        assert !(keys <= p) by {
          assert |p| < |keys|;
        }
        PutOther(m, keys, x, p);
      }
    }
  }

  /** On an open document `process_colors` raises exactly when the source
      colours are a string containing one of the table's keys. */
  lemma {:induction false} ApplyOpen(m: map<string, Value>, colors: Value, t: seq<(string, string)>)
    requires Open(m) && forall e :: e in t ==> e in COLOR_MAPPINGS
    ensures ApplyColors(Some(m), colors, t).Some? <==> colors.Map? || forall e :: e in t ==> !PyIn(e.0, colors)
    decreases |t|
  {
    if t != [] {
      var e := t[0];
      if !PyIn(e.0, colors) {
        ApplyOpen(m, colors, t[1..]);
        assert forall e' :: e' in t ==> e' == e || e' in t[1..];
      } else if colors.Str? {
        ApplyNone(colors, t[1..]);
      } else {
        OpenPut(m, e, colors.entries[e.0]);
        ApplyOpen(Put(m, TargetKeys(e.1), colors.entries[e.0]).value, colors, t[1..]);
      }
    }
  }

  lemma ColorsSucceedIff(m: map<string, Value>, source: Value)
    requires Open(m)
    ensures ColorsSpec(m, source).Some? <==>
            && source.Map? && "colors" in source.entries
            && (source.entries["colors"].Map? || forall e :: e in COLOR_MAPPINGS ==> !PyIn(e.0, source.entries["colors"]))
  {
    if source.Map? && "colors" in source.entries {
      var colors := source.entries["colors"];
      assert ColorsSpec(m, source) == ApplyColors(Some(m), colors, COLOR_MAPPINGS);
      ApplyOpen(m, colors, COLOR_MAPPINGS);
    }
  }

  /** The template is open: the colour writes on it never meet a string. */
  lemma DefaultsOpen()
    ensures Open(DEFAULT_VALUES)
  {
    forall e, j | e in COLOR_MAPPINGS && 0 < j < |TargetKeys(e.1)|
      ensures !IsText(Lookup(Map(DEFAULT_VALUES), TargetKeys(e.1)[..j]))
    {
      var i :| 0 <= i < |COLOR_MAPPINGS| && COLOR_MAPPINGS[i] == e;
      DefaultsOpenAt(i, j);
    }
  }

  lemma DefaultsOpenAt(i: int, j: int)
    requires 0 <= i < |COLOR_MAPPINGS| && 0 < j < |TargetKeys(COLOR_MAPPINGS[i].1)|
    ensures !IsText(Lookup(Map(DEFAULT_VALUES), TargetKeys(COLOR_MAPPINGS[i].1)[..j]))
  {
    TargetsSplit(i);
    var g := COLOR_TARGETS[i].0;
    var p := ["custom_theme", "colors", g];
    assert TargetKeys(COLOR_MAPPINGS[i].1)[..j] == p[..j];
    DefaultsGroup(g, j);
  }

  lemma DefaultsGroup(g: string, j: int)
    requires 0 < j <= 3
    ensures !IsText(Lookup(Map(DEFAULT_VALUES), ["custom_theme", "colors", g][..j]))
  {
    var p := ["custom_theme", "colors", g];
    if j == 1 {
      assert p[..j] == ["custom_theme"];
      TemplateTheme("custom_theme");
    } else if j == 2 {
      assert p[..j] == ["custom_theme", "colors"];
      TemplateColors("custom_theme", "colors");
    } else {
      assert p[..j] == p;
      TemplateGroup("custom_theme", "colors", g);
    }
  }

  lemma TemplateTheme(top: string)
    requires top == "custom_theme"
    ensures Lookup(Map(DEFAULT_VALUES), [top]) == Some(THEME_DEFAULTS)
  {
    assert [top][1..] == [];
  }

  lemma TemplateColors(top: string, name: string)
    requires top == "custom_theme" && name == "colors"
    ensures Lookup(Map(DEFAULT_VALUES), [top, name]) == Some(COLOR_DEFAULTS)
  {
    var ct := THEME_DEFAULTS;
    assert DEFAULT_VALUES[top] == ct;
    assert [top, name][1..] == [name] && [name][1..] == [];
    assert Lookup(Map(DEFAULT_VALUES), [top, name]) == Lookup(ct, [name]);
    assert Lookup(ct, [name]) == Lookup(COLOR_DEFAULTS, []);
  }

  lemma TemplateGroup(top: string, name: string, g: string)
    requires top == "custom_theme" && name == "colors"
    ensures !IsText(Lookup(Map(DEFAULT_VALUES), [top, name, g]))
  {
    var ct := THEME_DEFAULTS;
    assert DEFAULT_VALUES[top] == ct;
    var q := [top, name, g];
    assert q[1..] == [name, g] && q[2..] == [g] && [g][1..] == [];
    assert Lookup(Map(DEFAULT_VALUES), q) == Lookup(ct, q[1..]);
    assert Lookup(ct, q[1..]) == Lookup(COLOR_DEFAULTS, [g]);
    GroupsAreMaps(g);
  }

  /** Each colour group of the template is a mapping. */
  lemma GroupsAreMaps(g: string)
    ensures !IsText(Lookup(COLOR_DEFAULTS, [g]))
  {
    var groups := COLOR_DEFAULTS.entries;
    assert groups == map["section" := SECTION_DEFAULTS, "text" := TEXT_DEFAULTS, "button" := BUTTON_DEFAULTS];
    assert [g][1..] == [];
    if g in groups {
      assert groups[g].Map? by {
        assert g == "section" || g == "text" || g == "button";
      }
    }
  }

  /** A slot `group.name` that no entry of the table targets. */
  lemma NotTargeted(group: string, name: string)
    requires (group, name) !in COLOR_TARGETS
    ensures forall e :: e in COLOR_MAPPINGS ==> Incomparable(TargetKeys(e.1), ["custom_theme", "colors", group, name])
  {
    forall e | e in COLOR_MAPPINGS
      ensures Incomparable(TargetKeys(e.1), ["custom_theme", "colors", group, name])
    {
      var i :| 0 <= i < |COLOR_MAPPINGS| && COLOR_MAPPINGS[i] == e;
      TargetsSplit(i);
      assert COLOR_TARGETS[i] in COLOR_TARGETS;
      var p, q := TargetKeys(e.1), ["custom_theme", "colors", group, name];
      assert p != q by {
        assert p[2..] == [COLOR_TARGETS[i].0, COLOR_TARGETS[i].1];
        assert q[2..] == [group, name];
      }
    }
  }

  /** Whatever the source, a successful `process_colors` on the template keeps
      the three text colours no entry maps (`text.header`, `text.accent`,
      `text.footer`) and the `text.catalog` block as they were. */
  lemma DefaultsKept(source: Value)
    requires ColorsSpec(DEFAULT_VALUES, source).Some?
    ensures var out := Map(ColorsSpec(DEFAULT_VALUES, source).value);
            && (forall name :: name in {"header", "accent", "footer"} ==>
                  Lookup(out, ["custom_theme", "colors", "text", name]) == Some(TEXT_DEFAULTS.entries[name]))
            && Lookup(out, ["text", "catalog"]) == Some(CATALOG)
  {
    forall name | name in {"header", "accent", "footer"}
      ensures Lookup(Map(ColorsSpec(DEFAULT_VALUES, source).value), ["custom_theme", "colors", "text", name]) == Some(TEXT_DEFAULTS.entries[name])
    {
      UnmappedTextKept(source, name);
    }
    CatalogKept(source);
  }

  lemma CatalogKept(source: Value)
    requires ColorsSpec(DEFAULT_VALUES, source).Some?
    ensures Lookup(Map(ColorsSpec(DEFAULT_VALUES, source).value), ["text", "catalog"]) == Some(CATALOG)
  {
    forall e | e in COLOR_MAPPINGS ensures Incomparable(TargetKeys(e.1), ["text", "catalog"]) {
      assert TargetKeys(e.1)[0] == "custom_theme";
    }
    ColorsKeepUntargeted(DEFAULT_VALUES, source, ["text", "catalog"]);
    TemplateCatalog("text", "catalog");
  }

  lemma UnmappedTextKept(source: Value, name: string)
    requires ColorsSpec(DEFAULT_VALUES, source).Some?
    requires name in {"header", "accent", "footer"}
    ensures var q := ["custom_theme", "colors", "text", name];
            Lookup(Map(ColorsSpec(DEFAULT_VALUES, source).value), q) == Some(TEXT_DEFAULTS.entries[name])
  {
    UnmappedText(name);
    UntargetedSlotKept(DEFAULT_VALUES, source, "text", name);
    TemplateText(name);
  }

  /** The text slots that no entry of the table targets. */
  lemma UnmappedText(name: string)
    requires name in {"header", "accent", "footer"}
    ensures ("text", name) !in COLOR_TARGETS
  {
  }

  lemma UntargetedSlotKept(m: map<string, Value>, source: Value, group: string, name: string)
    requires ColorsSpec(m, source).Some?
    requires (group, name) !in COLOR_TARGETS
    ensures var q := ["custom_theme", "colors", group, name];
            Lookup(Map(ColorsSpec(m, source).value), q) == Lookup(Map(m), q)
  {
    NotTargeted(group, name);
    ColorsKeepUntargeted(m, source, ["custom_theme", "colors", group, name]);
  }

  lemma TemplateText(name: string)
    requires name in TEXT_DEFAULTS.entries
    ensures Lookup(Map(DEFAULT_VALUES), ["custom_theme", "colors", "text", name]) == Some(TEXT_DEFAULTS.entries[name])
  {
    var q := ["custom_theme", "colors", "text", name];
    var ct := THEME_DEFAULTS;
    assert DEFAULT_VALUES["custom_theme"] == ct;
    assert COLOR_DEFAULTS.entries["text"] == TEXT_DEFAULTS;
    assert q[1..] == ["colors", "text", name] && q[2..] == ["text", name] && q[3..] == [name];
    assert Lookup(Map(DEFAULT_VALUES), q) == Lookup(ct, q[1..]);
    assert Lookup(ct, q[1..]) == Lookup(COLOR_DEFAULTS, q[2..]);
    assert Lookup(COLOR_DEFAULTS, q[2..]) == Lookup(TEXT_DEFAULTS, q[3..]);
    assert [name][1..] == [];
    assert Lookup(TEXT_DEFAULTS, [name]) == Lookup(TEXT_DEFAULTS.entries[name], []);
  }

  lemma TemplateCatalog(top: string, name: string)
    requires top == "text" && name == "catalog"
    ensures Lookup(Map(DEFAULT_VALUES), [top, name]) == Some(CATALOG)
  {
    var q := [top, name];
    var tx := TEXT_BLOCK;
    assert DEFAULT_VALUES[top] == tx;
    assert q[1..] == [name] && [name][1..] == [];
    assert Lookup(Map(DEFAULT_VALUES), q) == Lookup(tx, [name]);
    assert Lookup(tx, [name]) == Lookup(CATALOG, []);
  }
}
