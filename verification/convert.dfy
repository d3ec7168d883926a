/** The converter's functions as they run: each one mutates the output
    dictionary in the store in place, and is proved to leave it as the value
    level description says. */
module Convert {
  import opened Doc
  import opened Store
  import opened PyStr
  import opened Tables
  import opened Colors
  import opened Assets

  /** The state of `deep_set` before iteration `i`: `dct` has walked down
      `keys[..i]` to the object `d`, and what is left to do gives `goal`. */
  ghost predicate Descent(h: Objects, root: nat, keys: seq<string>, value: Value, i: int, d: nat, goal: Option<Value>)
  {
    && Wf(h) && root < |h| && 0 <= i < |keys|
    && Walk(h, root, keys[..i]) == Some(d)
    && goal == Graft(View(h, root), keys[..i], Put(View(h, d).entries, keys[i..], value))
  }

  /** The dictionary `setdefault` leaves at key `k` of `obj` when the entry is
      not a dictionary of the store: a new empty one, or a copy of the mapping
      that is there. */
  function Detached(obj: map<string, Slot>, k: string): (init: map<string, Slot>)
    ensures forall k' :: k' in init ==> init[k'].Leaf?
  {
    if k in obj && obj[k].Leaf? && obj[k].v.Map? then map k' | k' in obj[k].v.entries :: Leaf(obj[k].v.entries[k'])
    else map[]
  }

  /** `setdefault` finds a dictionary of the store. */
  lemma DescendRef(h: Objects, root: nat, keys: seq<string>, value: Value, i: int, d: nat, goal: Option<Value>)
    requires Descent(h, root, keys, value, i, d, goal) && i < |keys| - 1
    requires keys[i] in h[d] && h[d][keys[i]].Ref?
    ensures Descent(h, root, keys, value, i + 1, h[d][keys[i]].id, goal)
  {
    var k, rest := keys[i], keys[i + 1..];
    assert keys[i..] == [k] + rest;
    assert keys[..i + 1] == keys[..i] + [k];
    WalkLookup(h, root, keys[..i]);
    GraftDescend(View(h, root), keys[..i], k, rest, value);
    WalkSnoc(h, root, keys[..i], k);
  }

  /** `setdefault` finds a string: the next step raises. */
  lemma DescendStr(h: Objects, root: nat, keys: seq<string>, value: Value, i: int, d: nat, goal: Option<Value>)
    requires Descent(h, root, keys, value, i, d, goal) && i < |keys| - 1
    requires keys[i] in h[d] && h[d][keys[i]].Leaf? && h[d][keys[i]].v.Str?
    ensures goal == None
  {
    var k, rest := keys[i], keys[i + 1..];
    assert keys[i..] == [k] + rest;
    PutStep(View(h, d).entries, k, rest, value);
  }

  /** `setdefault` creates a dictionary, or the mapping at the key becomes a
      dictionary of the store. */
  lemma DescendNew(h: Objects, root: nat, keys: seq<string>, value: Value, i: int, d: nat, goal: Option<Value>)
    requires Descent(h, root, keys, value, i, d, goal) && i < |keys| - 1
    requires !(keys[i] in h[d] && h[d][keys[i]].Ref?)
    requires !(keys[i] in h[d] && h[d][keys[i]].v.Str?)
    ensures var init := Detached(h[d], keys[i]);
            Descent((h + [init])[d := h[d][keys[i] := Ref(|h|)]], root, keys, value, i + 1, |h|, goal)
  {
    var k, rest := keys[i], keys[i + 1..];
    assert keys[i..] == [k] + rest;
    assert keys[..i + 1] == keys[..i] + [k];
    var init := Detached(h[d], k);
    WalkLookup(h, root, keys[..i]);
    LinkWalk(h, root, keys[..i], d, k, init);
    LinkView(h, root, keys[..i], d, k, init);
    DetachedView(h, d, k);
    GraftSetDefault(View(h, root), keys[..i], k, rest, value);
  }

  /** The view of the dictionary `setdefault` links in: the mapping that was
      at `k`, or an empty one. */
  lemma DetachedView(h: Objects, d: nat, k: string)
    requires Wf(h) && d < |h|
    requires !(k in h[d] && h[d][k].Ref?) && !(k in h[d] && h[d][k].v.Str?)
    ensures var e := View(h, d).entries;
            && (k in e ==> e[k].Map?)
            && View((h + [Detached(h[d], k)])[d := h[d][k := Ref(|h|)]], |h|) == if k in e then e[k] else Map(map[])
  {
    var init := Detached(h[d], k);
    NewView(h, d, k, init);
    var e := View(h, d).entries;
    if k in h[d] {
      assert (map k' | k' in init :: init[k'].v) == e[k].entries;
    } else {
      assert init == map[];
    }
  }

  /** The final assignment `dct[keys[-1]] = value`. */
  lemma AssignLast(h: Objects, root: nat, keys: seq<string>, value: Value, d: nat, goal: Option<Value>)
    requires keys != [] && Descent(h, root, keys, value, |keys| - 1, d, goal)
    ensures var h' := h[d := h[d][keys[|keys| - 1] := Leaf(value)]];
            Wf(h') && goal == Some(View(h', root))
  {
    var last := keys[|keys| - 1];
    assert keys[|keys| - 1..] == [last];
    WalkLookup(h, root, keys[..|keys| - 1]);
    StoreLeaf(h, root, keys[..|keys| - 1], d, last, value);
  }

  /** `deep_set(dct, keys, value)`: walks down `keys[:-1]` with `setdefault`
      and assigns the last key. `ok` is false where Python raises. */
  method DeepSet(heap: Heap, dct: nat, keys: seq<string>, value: Value) returns (ok: bool)
    requires heap.Valid() && dct < |heap.objs|
    modifies heap
    ensures heap.Valid() && |heap.objs| >= old(|heap.objs|)
    ensures var r := Put(old(View(heap.objs, dct)).entries, keys, value);
            ok == r.Some? && (ok ==> View(heap.objs, dct) == Map(r.value))
  {
    if keys == [] {
      // The loop over keys[:-1] does nothing and keys[-1] raises IndexError.
      return false;
    }
    ghost var m0 := View(heap.objs, dct).entries;
    // The document deep_set produces, or None when it raises.
    ghost var goal := Graft(Map(m0), [], Put(m0, keys, value));
    var d: nat := dct;
    var i := 0;
    while i < |keys| - 1
      invariant |heap.objs| >= old(|heap.objs|)
      invariant Descent(heap.objs, dct, keys, value, i, d, goal)
    {
      var h: Objects := heap.objs;
      var k := keys[i];
      if k in h[d] && h[d][k].Ref? {
        DescendRef(h, dct, keys, value, i, d, goal);
        d := h[d][k].id;
      } else if k in h[d] && h[d][k].v.Str? {
        DescendStr(h, dct, keys, value, i, d, goal);
        return false;
      } else {
        DescendNew(h, dct, keys, value, i, d, goal);
        var init := Detached(h[d], k);
        heap.objs := (h + [init])[d := h[d][k := Ref(|h|)]];
        d := |h|;
      }
      i := i + 1;
    }
    AssignLast(heap.objs, dct, keys, value, d, goal);
    heap.objs := heap.objs[d := heap.objs[d][keys[|keys| - 1] := Leaf(value)]];
    ok := true;
  }

  /** One more iteration of `process_colors`; once one raises, the whole
      call does. */
  lemma ApplyAdvance(m: map<string, Value>, colors: Value, t: seq<(string, string)>, i: int)
    requires 0 <= i < |t|
    ensures ApplyColors(Some(m), colors, t[i..]) == ApplyColors(ColorStep(Some(m), colors, t[i]), colors, t[i + 1..])
    ensures ColorStep(Some(m), colors, t[i]).None? ==> ApplyColors(Some(m), colors, t[i..]).None?
  {
    assert t[i..][0] == t[i] && t[i..][1..] == t[i + 1..];
    ApplyNone(colors, t[i + 1..]);
  }

  /** `process_colors(source_data, target_data)`: every table entry whose
      source key is in `source_data['colors']` is written with `deep_set`. */
  method ProcessColors(heap: Heap, source: Value, target: nat) returns (ok: bool)
    requires heap.Valid() && target < |heap.objs|
    modifies heap
    ensures heap.Valid() && |heap.objs| >= old(|heap.objs|)
    ensures var r := ColorsSpec(old(View(heap.objs, target)).entries, source);
            ok == r.Some? && (ok ==> View(heap.objs, target) == Map(r.value))
  {
    ok := ProcessTable(heap, source, target, COLOR_MAPPINGS);
  }

  /** The loop of `process_colors` over the entries of `t`, in order. */
  method ProcessTable(heap: Heap, source: Value, target: nat, t: seq<(string, string)>) returns (ok: bool)
    requires heap.Valid() && target < |heap.objs|
    modifies heap
    ensures heap.Valid() && |heap.objs| >= old(|heap.objs|)
    ensures var r := TableSpec(old(View(heap.objs, target)).entries, source, t);
            ok == r.Some? && (ok ==> View(heap.objs, target) == Map(r.value))
  {
    ghost var m0 := View(heap.objs, target).entries;
    var i := 0;
    while i < |t|
      invariant 0 <= i <= |t|
      invariant heap.Valid() && target < |heap.objs| && |heap.objs| >= old(|heap.objs|)
      invariant i == 0 ==> View(heap.objs, target).entries == m0
      invariant i > 0 ==> source.Map? && "colors" in source.entries
      invariant source.Map? && "colors" in source.entries ==>
                TableSpec(m0, source, t) == ApplyColors(Some(View(heap.objs, target).entries), source.entries["colors"], t[i..])
    {
      var e := t[i];
      // source_data['colors'] raises when the source has no such key.
      if source.Str? || "colors" !in source.entries {
        return false;
      }
      var colors := source.entries["colors"];
      ghost var before := View(heap.objs, target).entries;
      ApplyAdvance(before, colors, t, i);
      if PyIn(e.0, colors) {
        if colors.Str? {
          // Indexing a string with a string key raises.
          return false;
        }
        ok := DeepSet(heap, target, TargetKeys(e.1), colors.entries[e.0]);
        if !ok {
          return false;
        }
      }
      i := i + 1;
    }
    assert t[i..] == [];
    ok := true;
  }

  /** `process_fonts(source_data, target_data)`. */
  method ProcessFonts(heap: Heap, source: Value, target: nat) returns (ok: bool)
    requires heap.Valid() && target < |heap.objs|
    modifies heap
    ensures heap.Valid() && |heap.objs| == old(|heap.objs|)
    ensures var r := FontsSpec(old(View(heap.objs, target)).entries, source);
            ok == r.Some? && (ok ==> View(heap.objs, target) == Map(r.value))
  {
    if PyIn("fonts", source) {
      if source.Str? {
        // Indexing a string with a string key raises.
        return false;
      }
      var h := heap.objs;
      StoreLeaf(h, target, [], target, "custom_fonts", source.entries["fonts"]);
      heap.objs := h[target := h[target]["custom_fonts" := Leaf(source.entries["fonts"])]];
    }
    ok := true;
  }

  /** The records `process_images` has stored once the keys left in `todo`
      remain. */
  function Done(images: map<string, Value>, todo: set<string>, files: Files, b64: seq<byte> -> string): (r: map<string, Value>)
  {
    map k | k in images && k !in todo && Readable(images[k], files) :: ImageRecord(images[k].s, b64(files[images[k].s]))
  }

  /** No record is stored before the loop; all of them after it. */
  lemma DoneBounds(images: map<string, Value>, files: Files, b64: seq<byte> -> string)
    ensures Done(images, images.Keys, files, b64) == map[]
    ensures (forall k :: k in images ==> Readable(images[k], files)) ==>
            Done(images, {}, files, b64) == Records(images, files, b64)
  {
  }

  /** Storing the record of the key `k` takes it out of `todo`. */
  lemma DoneStep(images: map<string, Value>, todo: set<string>, files: Files, b64: seq<byte> -> string, k: string)
    requires k in todo && k in images && Readable(images[k], files)
    ensures Done(images, todo, files, b64)[k := ImageRecord(images[k].s, b64(files[images[k].s]))] ==
            Done(images, todo - {k}, files, b64)
  {
  }

  /** An entry that cannot be read makes `process_images` raise. */
  lemma ImagesBadEntry(m: map<string, Value>, source: Value, files: Files, b64: seq<byte> -> string, k: string)
    requires source.Map? && "images" in source.entries && source.entries["images"].Map?
    requires k in source.entries["images"].entries && !Readable(source.entries["images"].entries[k], files)
    ensures ImagesSpec(m, source, files, b64).None?
  {
  }

  /** When every entry can be read, `images` holds the record of each. */
  lemma ImagesAllRead(m: map<string, Value>, source: Value, files: Files, b64: seq<byte> -> string)
    requires source.Map? && "images" in source.entries && source.entries["images"].Map?
    requires var images := source.entries["images"].entries;
             forall k :: k in images ==> Readable(images[k], files)
    ensures var images := source.entries["images"].entries;
            ImagesSpec(m, source, files, b64) == Some(m["images" := Map(Done(images, {}, files, b64))])
  {
    DoneBounds(source.entries["images"].entries, files, b64);
  }

  /** The dictionary `process_images` creates for one image. */
  function RecordObject(path: string, encoded: string): (obj: map<string, Slot>)
    ensures forall k :: k in obj ==> obj[k].Leaf?
    ensures Map(map k | k in obj :: obj[k].v) == ImageRecord(path, encoded)
  {
    var obj := map["data" := Leaf(Str(DataUri(path, encoded))), "filename" := Leaf(Str(Basename(path)))];
    assert (map k | k in obj :: obj[k].v).Keys == ImageRecord(path, encoded).entries.Keys;
    obj
  }

  /** `target_data['images'][k] = {...}` with the images dictionary `n`
      reached from the target by the key `images`. */
  lemma AddRecord(h: Objects, target: nat, n: nat, m0: map<string, Value>, done: map<string, Value>, k: string, obj: map<string, Slot>)
    requires Wf(h) && target < |h| && Walk(h, target, ["images"]) == Some(n)
    requires View(h, target) == Map(m0["images" := Map(done)])
    requires forall k' :: k' in obj ==> obj[k'].Leaf?
    ensures var h' := (h + [obj])[n := h[n][k := Ref(|h|)]];
            && Wf(h') && Walk(h', target, ["images"]) == Some(n)
            && View(h', target) == Map(m0["images" := Map(done[k := Map(map k' | k' in obj :: obj[k'].v)])])
  {
    LinkWalk(h, target, ["images"], n, k, obj);
    LinkView(h, target, ["images"], n, k, obj);
    NewView(h, n, k, obj);
    WalkLookup(h, target, ["images"]);
    assert View(h, n) == Map(done);
    assert ["images"][1..] == [];
  }

  /** The store while the image loop runs: `n` is the dictionary that
      `target_data['images']` names, and it holds the records of the keys no
      longer in `todo`. */
  ghost predicate Filling(h: Objects, target: nat, n: nat, m0: map<string, Value>, images: map<string, Value>,
                          todo: set<string>, files: Files, b64: seq<byte> -> string)
  {
    && Wf(h) && target < n < |h|
    && Walk(h, target, ["images"]) == Some(n)
    && View(h, target) == Map(m0["images" := Map(Done(images, todo, files, b64))])
  }

  /** One iteration of the image loop: the record of `k` is stored and `k`
      leaves `todo`. */
  lemma StoreRecord(h: Objects, target: nat, n: nat, m0: map<string, Value>, images: map<string, Value>,
                    todo: set<string>, files: Files, b64: seq<byte> -> string, k: string)
    requires Filling(h, target, n, m0, images, todo, files, b64)
    requires k in todo && k in images && Readable(images[k], files)
    ensures var obj := RecordObject(images[k].s, b64(files[images[k].s]));
            var h' := (h + [obj])[n := h[n][k := Ref(|h|)]];
            Filling(h', target, n, m0, images, todo - {k}, files, b64)
  {
    var path := images[k].s;
    var obj := RecordObject(path, b64(files[path]));
    AddRecord(h, target, n, m0, Done(images, todo, files, b64), k, obj);
    DoneStep(images, todo, files, b64, k);
  }

  /** `target_data['images'] = {}`. */
  lemma AddImages(h: Objects, target: nat)
    requires Wf(h) && target < |h|
    ensures var h' := (h + [map[]])[target := h[target]["images" := Ref(|h|)]];
            && Wf(h') && Walk(h', target, ["images"]) == Some(|h|)
            && View(h', target) == Map(View(h, target).entries["images" := Map(map[])])
  {
    var init: map<string, Slot> := map[];
    assert [] + ["images"] == ["images"];
    LinkWalk(h, target, [], target, "images", init);
    LinkView(h, target, [], target, "images", init);
    NewView(h, target, "images", init);
    assert View((h + [init])[target := h[target]["images" := Ref(|h|)]], |h|).entries == map[];
  }

  /** `process_images(base_dir, source_data, target_data)`: the file at each
      image path is read from `files` and encoded with `b64`. The image keys
      are taken in some order; dictionary order is not modelled. */
  method ProcessImages(heap: Heap, source: Value, target: nat, files: Files, b64: seq<byte> -> string) returns (ok: bool)
    requires heap.Valid() && target < |heap.objs|
    modifies heap
    ensures heap.Valid() && |heap.objs| >= old(|heap.objs|)
    ensures var r := ImagesSpec(old(View(heap.objs, target)).entries, source, files, b64);
            ok == r.Some? && (ok ==> View(heap.objs, target) == Map(r.value))
  {
    if !PyIn("images", source) {
      return true;
    }
    ghost var m0 := View(heap.objs, target).entries;
    var h: Objects := heap.objs;
    var n := |h|;
    AddImages(h, target);
    heap.objs := (h + [map[]])[target := h[target]["images" := Ref(n)]];
    if source.Str? {
      // Indexing a string with a string key raises.
      return false;
    }
    var images := source.entries["images"];
    if images.Str? {
      // A string has no items().
      return false;
    }
    DoneBounds(images.entries, files, b64);
    ok := FillImages(heap, target, n, images.entries, files, b64, m0);
    if ok {
      ImagesAllRead(m0, source, files, b64);
    } else {
      ghost var k :| k in images.entries && !Readable(images.entries[k], files);
      ImagesBadEntry(m0, source, files, b64, k);
    }
  }

  /** The loop of `process_images` over the entries of `images`, filling the
      dictionary `n` that `target_data['images']` names. It stops at the
      first entry that cannot be read. */
  method FillImages(heap: Heap, target: nat, n: nat, images: map<string, Value>, files: Files, b64: seq<byte> -> string,
                    ghost m0: map<string, Value>) returns (ok: bool)
    requires Filling(heap.objs, target, n, m0, images, images.Keys, files, b64)
    modifies heap
    ensures heap.Valid() && |heap.objs| >= old(|heap.objs|)
    ensures ok <==> forall k :: k in images ==> Readable(images[k], files)
    ensures ok ==> Filling(heap.objs, target, n, m0, images, {}, files, b64)
  {
    var todo := images.Keys;
    while todo != {}
      invariant todo <= images.Keys && |heap.objs| >= old(|heap.objs|)
      invariant Filling(heap.objs, target, n, m0, images, todo, files, b64)
      invariant forall k :: k in images && k !in todo ==> Readable(images[k], files)
      decreases |todo|
    {
      var k :| k in todo;
      var path := images[k];
      if path.Map? || path.s !in files {
        // os.path.join raises on a mapping, open on a file that is not there.
        return false;
      }
      AddImage(heap, target, n, images, files, b64, m0, todo, k);
      todo := todo - {k};
    }
    ok := true;
  }

  /** `target_data['images'][k] = {...}` for a readable entry `k`. */
  method AddImage(heap: Heap, target: nat, n: nat, images: map<string, Value>, files: Files, b64: seq<byte> -> string,
                  ghost m0: map<string, Value>, ghost todo: set<string>, k: string)
    requires Filling(heap.objs, target, n, m0, images, todo, files, b64)
    requires k in todo && k in images && Readable(images[k], files)
    modifies heap
    ensures |heap.objs| > old(|heap.objs|)
    ensures Filling(heap.objs, target, n, m0, images, todo - {k}, files, b64)
  {
    var path := images[k].s;
    var obj := RecordObject(path, b64(files[path]));
    var h: Objects := heap.objs;
    StoreRecord(h, target, n, m0, images, todo, files, b64, k);
    heap.objs := (h + [obj])[n := h[n][k := Ref(|h|)]];
  }
}
