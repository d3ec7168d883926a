/** The part of `main` between loading the theme file and printing the
    result: a shallow copy of the template, then colours, fonts and images
    in turn, each on the same target dictionary. */
module Pipeline {
  import opened Doc
  import opened Store
  import opened Tables
  import opened Colors
  import opened Assets
  import opened Convert

  /** The three steps of `main` on a target with entries `m`, or None when
      one of them raises. */
  function Steps(m: map<string, Value>, source: Value, files: Files, b64: seq<byte> -> string): (r: Option<map<string, Value>>)
  {
    match ColorsSpec(m, source)
    case None => None
    case Some(m1) =>
      match FontsSpec(m1, source)
      case None => None
      case Some(m2) => ImagesSpec(m2, source, files, b64)
  }

  /** The document `main` prints for the parsed theme `source`, or None when
      one of the three steps raises. */
  function Converted(source: Value, files: Files, b64: seq<byte> -> string): (r: Option<map<string, Value>>)
  {
    Steps(DEFAULT_VALUES, source, files, b64)
  }

  /** `DEFAULT_VALUES.copy()`: a new dictionary whose entries are the
      template's own nested values. */
  function TemplateCopy(): (r: map<string, Slot>) {
    map k | k in DEFAULT_VALUES :: Leaf(DEFAULT_VALUES[k])
  }

  lemma TemplateCopyView()
    ensures Wf([TemplateCopy()])
    ensures View([TemplateCopy()], 0) == Map(DEFAULT_VALUES)
  {
    var h := [TemplateCopy()];
    assert View(h, 0).entries == DEFAULT_VALUES;
  }

  /** Lines 147-149 of `main`: the three steps in turn on the dictionary
      `target`, stopping at the first that raises. */
  method ProcessAll(heap: Heap, source: Value, target: nat, files: Files, b64: seq<byte> -> string) returns (ok: bool)
    requires heap.Valid() && target < |heap.objs|
    modifies heap
    ensures heap.Valid() && |heap.objs| >= old(|heap.objs|)
    ensures var r := Steps(old(View(heap.objs, target)).entries, source, files, b64);
            ok == r.Some? && (ok ==> View(heap.objs, target) == Map(r.value))
  {
    ghost var m0 := View(heap.objs, target).entries;
    ok := ProcessColors(heap, source, target);
    if !ok {
      return false;
    }
    ghost var m1 := View(heap.objs, target).entries;
    FontsAfterColors(m0, m1, source);
    ok := ProcessFonts(heap, source, target);
    ghost var m2 := View(heap.objs, target).entries;
    StepsImages(m0, m1, m2, source, files, b64);
    ok := ProcessImages(heap, source, target, files, b64);
  }

  /** `process_colors` succeeds only on a mapping source, and on a mapping
      `process_fonts` cannot raise: of the three steps, fonts is never the
      one that fails. */
  lemma FontsAfterColors(m0: map<string, Value>, m1: map<string, Value>, source: Value)
    requires ColorsSpec(m0, source) == Some(m1)
    ensures source.Map? && "colors" in source.entries
    ensures FontsSpec(m1, source).Some?
  {
  }

  lemma StepsImages(m0: map<string, Value>, m1: map<string, Value>, m2: map<string, Value>, source: Value, files: Files, b64: seq<byte> -> string)
    requires ColorsSpec(m0, source) == Some(m1) && FontsSpec(m1, source) == Some(m2)
    ensures Steps(m0, source, files, b64) == ImagesSpec(m2, source, files, b64)
  {
  }

  /** The three steps of `main` on a fresh copy of the template. */
  method Run(source: Value, files: Files, b64: seq<byte> -> string) returns (out: Option<Value>)
    ensures var r := Converted(source, files, b64);
            out.Some? == r.Some? && (out.Some? ==> out.value == Map(r.value))
  {
    TemplateCopyView();
    var heap := new Heap([TemplateCopy()]);
    var ok := ProcessAll(heap, source, 0, files, b64);
    if ok {
      out := Some(View(heap.objs, 0));
    } else {
      out := None;
    }
  }

  /** A parsed theme mapping converts exactly when it has `colors` (a mapping,
      or a string none of whose mapped keys occurs in it) and its `images`,
      if any, is a mapping of readable paths. */
  lemma ConvertSucceedsIff(source: map<string, Value>, files: Files, b64: seq<byte> -> string)
    ensures Converted(Map(source), files, b64).Some? <==>
            && "colors" in source
            && (source["colors"].Map? || forall e :: e in COLOR_MAPPINGS ==> !PyIn(e.0, source["colors"]))
            && ("images" !in source ||
                (source["images"].Map? && forall k :: k in source["images"].entries ==> Readable(source["images"].entries[k], files)))
  {
    TemplateColorsSucceedIff(Map(source));
    var c := ColorsSpec(DEFAULT_VALUES, Map(source));
    if c.Some? {
      AssetsSucceedIff(c.value, source, files, b64);
      StepsImages(DEFAULT_VALUES, c.value, FontsSpec(c.value, Map(source)).value, Map(source), files, b64);
    }
  }

  /** On the template, `process_colors` succeeds exactly when the source has
      `colors` that is a mapping or a string without mapped keys. */
  lemma TemplateColorsSucceedIff(source: Value)
    ensures ColorsSpec(DEFAULT_VALUES, source).Some? <==>
            && source.Map? && "colors" in source.entries
            && (source.entries["colors"].Map? || forall e :: e in COLOR_MAPPINGS ==> !PyIn(e.0, source.entries["colors"]))
  {
    DefaultsOpen();
    ColorsSucceedIff(DEFAULT_VALUES, source);
  }

  /** On a mapping source, fonts never raise and images raise exactly when
      `images` is a string or holds an unreadable entry. */
  lemma AssetsSucceedIff(m1: map<string, Value>, source: map<string, Value>, files: Files, b64: seq<byte> -> string)
    ensures FontsSpec(m1, Map(source)).Some?
    ensures ImagesSpec(FontsSpec(m1, Map(source)).value, Map(source), files, b64).Some? <==>
            "images" !in source ||
            (source["images"].Map? && forall k :: k in source["images"].entries ==> Readable(source["images"].entries[k], files))
  {
    FontsCopy(m1, source);
    ImagesSucceedIff(FontsSpec(m1, Map(source)).value, source, files, b64);
  }

  /** A top-level key other than `custom_theme` is one no colour write
      reaches. */
  lemma ColorsKeepTop(m: map<string, Value>, source: Value, k: string)
    requires ColorsSpec(m, source).Some? && k != "custom_theme"
    ensures var r := ColorsSpec(m, source).value;
            (k in r <==> k in m) && (k in r ==> r[k] == m[k])
  {
    forall e | e in COLOR_MAPPINGS ensures Incomparable(TargetKeys(e.1), [k]) {
      assert TargetKeys(e.1)[0] == "custom_theme";
    }
    ColorsKeepUntargeted(m, source, [k]);
    LookupTop(ColorsSpec(m, source).value, k);
    LookupTop(m, k);
  }

  lemma LookupTop(m: map<string, Value>, k: string)
    ensures Lookup(Map(m), [k]) == if k in m then Some(m[k]) else None
  {
    assert [k][0] == k && [k][1..] == [];
  }

  /** The template has `custom_theme` and `text` and no key that fonts or
      images write. */
  lemma TemplateKeys()
    ensures "custom_theme" in DEFAULT_VALUES && "text" in DEFAULT_VALUES
    ensures "custom_fonts" !in DEFAULT_VALUES && "images" !in DEFAULT_VALUES
  {
  }

  /** The printed document: `custom_fonts` is there exactly when the theme has
      `fonts`, and is that value; `images` is there exactly when the theme has
      `images`; the `text` block of the template is untouched, and
      `custom_theme` is as `process_colors` left it. */
  lemma ConvertOutput(source: map<string, Value>, files: Files, b64: seq<byte> -> string)
    requires Converted(Map(source), files, b64).Some?
    ensures var r := Converted(Map(source), files, b64).value;
            && ("custom_fonts" in r <==> "fonts" in source)
            && ("fonts" in source ==> r["custom_fonts"] == source["fonts"])
            && ("images" in r <==> "images" in source)
            && "text" in r && r["text"] == DEFAULT_VALUES["text"]
            && "custom_theme" in r
            && r["custom_theme"] == ColorsSpec(DEFAULT_VALUES, Map(source)).value["custom_theme"]
  {
    TemplateKeys();
    var m0 := DEFAULT_VALUES;
    var m1 := ColorsSpec(m0, Map(source)).value;
    ColorsTop(m0, m1, Map(source));
    var m2 := FontsSpec(m1, Map(source)).value;
    StepsOutput(m1, m2, ImagesSpec(m2, Map(source), files, b64).value, source, files, b64);
  }

  /** Fonts and images after `process_colors` has left `m1`, which has
      `custom_theme` and `text` and neither `custom_fonts` nor `images`. */
  lemma StepsOutput(m1: map<string, Value>, m2: map<string, Value>, r: map<string, Value>, source: map<string, Value>, files: Files, b64: seq<byte> -> string)
    requires "custom_theme" in m1 && "text" in m1 && "custom_fonts" !in m1 && "images" !in m1
    requires FontsSpec(m1, Map(source)) == Some(m2) && ImagesSpec(m2, Map(source), files, b64) == Some(r)
    ensures "custom_fonts" in r <==> "fonts" in source
    ensures "fonts" in source ==> r["custom_fonts"] == source["fonts"]
    ensures "images" in r <==> "images" in source
    ensures "text" in r && r["text"] == m1["text"]
    ensures "custom_theme" in r && r["custom_theme"] == m1["custom_theme"]
  {
    AssetsOutput(m1, m2, r, source, files, b64);
    AssetsKeep(m1, m2, r, source, files, b64, "text");
    AssetsKeep(m1, m2, r, source, files, b64, "custom_theme");
  }

  /** What `process_colors` leaves at the top level of such a target. */
  lemma ColorsTop(m0: map<string, Value>, m1: map<string, Value>, source: Value)
    requires "custom_theme" in m0 && "text" in m0 && "custom_fonts" !in m0 && "images" !in m0
    requires ColorsSpec(m0, source) == Some(m1)
    ensures "custom_theme" in m1 && "text" in m1 && m1["text"] == m0["text"]
    ensures "custom_fonts" !in m1 && "images" !in m1
  {
    ColorsKeepTop(m0, source, "custom_fonts");
    ColorsKeepTop(m0, source, "images");
    ColorsKeepTop(m0, source, "text");
    ColorsKeepKeys(m0, source);
  }

  lemma ColorsKeepKeys(m: map<string, Value>, source: Value)
    requires ColorsSpec(m, source).Some?
    ensures m.Keys <= ColorsSpec(m, source).value.Keys
  {
    ApplyKeepsKeys(m, source.entries["colors"], COLOR_MAPPINGS);
  }

  /** Fonts and images on a target without `custom_fonts` or `images`. */
  lemma AssetsOutput(m1: map<string, Value>, m2: map<string, Value>, r: map<string, Value>, source: map<string, Value>, files: Files, b64: seq<byte> -> string)
    requires "custom_fonts" !in m1 && "images" !in m1
    requires FontsSpec(m1, Map(source)) == Some(m2) && ImagesSpec(m2, Map(source), files, b64) == Some(r)
    ensures "custom_fonts" in r <==> "fonts" in source
    ensures "fonts" in source ==> r["custom_fonts"] == source["fonts"]
    ensures "images" in r <==> "images" in source
  {
    FontsCopy(m1, source);
    if "images" in source {
      ImagesRecords(m2, source, files, b64);
    } else {
      ImagesAbsent(m2, source, files, b64);
    }
  }

  /** Fonts and images change no other top-level key. */
  lemma AssetsKeep(m1: map<string, Value>, m2: map<string, Value>, r: map<string, Value>, source: map<string, Value>, files: Files, b64: seq<byte> -> string, k: string)
    requires k != "custom_fonts" && k != "images"
    requires FontsSpec(m1, Map(source)) == Some(m2) && ImagesSpec(m2, Map(source), files, b64) == Some(r)
    ensures (k in r <==> k in m1) && (k in r ==> r[k] == m1[k])
  {
    FontsCopy(m1, source);
    if "images" in source {
      ImagesRecords(m2, source, files, b64);
    } else {
      ImagesAbsent(m2, source, files, b64);
    }
  }

  /** Colour writes add keys but never remove one. */
  lemma {:induction false} ApplyKeepsKeys(m: map<string, Value>, colors: Value, t: seq<(string, string)>)
    requires ApplyColors(Some(m), colors, t).Some?
    ensures m.Keys <= ApplyColors(Some(m), colors, t).value.Keys
    decreases |t|
  {
    if t != [] {
      var o := ColorStep(Some(m), colors, t[0]);
      if o.None? {
        ApplyNone(colors, t[1..]);
      } else {
        ApplyKeepsKeys(o.value, colors, t[1..]);
      }
    }
  }
}
