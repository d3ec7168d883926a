/** What `process_fonts` and `process_images` do to the output document,
    stated on values. Reading an image file becomes a lookup in `files`
    (the bytes of each readable relative path) and Base64 encoding the
    function `b64`. */
module Assets {
  import opened Doc
  import opened PyStr
  import opened Colors

  newtype byte = x: int | 0 <= x < 256

  /** The file contents the converter can read, by image path. */
  type Files = map<string, seq<byte>>

  /** `process_fonts(source, target)` on a target with entries `m`. */
  function FontsSpec(m: map<string, Value>, source: Value): (r: Option<map<string, Value>>)
  {
    if !PyIn("fonts", source) then Some(m)
    else if source.Str? then None
    else Some(m["custom_fonts" := source.entries["fonts"]])
  }

  /** The `data` field of an image record: a data URI whose media subtype is
      the path's extension. */
  function DataUri(path: string, encoded: string): (r: string) {
    "data:image/" + Extension(path) + ";base64," + encoded
  }

  /** The record `process_images` builds for one image. */
  function ImageRecord(path: string, encoded: string): (r: Value) {
    Map(map["data" := Str(DataUri(path, encoded)), "filename" := Str(Basename(path))])
  }

  /** An image entry that can be read: a string path naming a readable file.
      Anything else makes `os.path.join` or `open` raise. */
  predicate Readable(v: Value, files: Files) {
    v.Str? && v.s in files
  }

  /** The `images` mapping built from the source's image entries, all
      readable. */
  function Records(images: map<string, Value>, files: Files, b64: seq<byte> -> string): (r: map<string, Value>)
    requires forall k :: k in images ==> images[k].Str? && images[k].s in files
  {
    map k | k in images :: ImageRecord(images[k].s, b64(files[images[k].s]))
  }

  /** `process_images(base_dir, source, target)` on a target with entries `m`.
      It raises when the source is a string that contains `images` (indexing
      it), when `images` is a string (it has no `.items()`), or when one of
      the entries cannot be read. */
  function ImagesSpec(m: map<string, Value>, source: Value, files: Files, b64: seq<byte> -> string): (r: Option<map<string, Value>>)
  {
    if !PyIn("images", source) then Some(m)
    else if source.Str? then None
    else
      var images := source.entries["images"];
      if images.Str? then None
      else if exists k :: k in images.entries && !Readable(images.entries[k], files) then None
      else Some(m["images" := Map(Records(images.entries, files, b64))])
  }

  /** `custom_fonts` is set, to the source's `fonts` value exactly, when the
      source mapping has a `fonts` key; nothing else of the target changes. */
  lemma FontsCopy(m: map<string, Value>, source: map<string, Value>)
    ensures FontsSpec(m, Map(source)).Some?
    ensures var r := FontsSpec(m, Map(source)).value;
            && ("custom_fonts" in r <==> "fonts" in source || "custom_fonts" in m)
            && ("fonts" in source ==> r["custom_fonts"] == source["fonts"])
            && ("fonts" !in source ==> r == m)
            && forall k :: k != "custom_fonts" ==> (k in r <==> k in m) && (k in m ==> r[k] == m[k])
  {
  }

  /** On a string source `process_fonts` raises exactly when `fonts` occurs
      in it, and otherwise changes nothing. */
  lemma FontsOnString(m: map<string, Value>, s: string)
    ensures FontsSpec(m, Str(s)).None? <==> IsSubstring("fonts", s)
    ensures FontsSpec(m, Str(s)).Some? ==> FontsSpec(m, Str(s)).value == m
  {
  }

  /** `process_images` succeeds exactly when, if the source has `images`, it
      is a mapping whose every entry is a readable path. */
  lemma ImagesSucceedIff(m: map<string, Value>, source: map<string, Value>, files: Files, b64: seq<byte> -> string)
    ensures ImagesSpec(m, Map(source), files, b64).Some? <==>
            "images" !in source ||
            (source["images"].Map? && forall k :: k in source["images"].entries ==> Readable(source["images"].entries[k], files))
  {
  }

  /** A source without `images` adds no `images` key and changes nothing. */
  lemma ImagesAbsent(m: map<string, Value>, source: map<string, Value>, files: Files, b64: seq<byte> -> string)
    requires "images" !in source
    ensures ImagesSpec(m, Map(source), files, b64) == Some(m)
  {
  }

  /** An image record: `data` is `data:image/` followed by the text after the
      last dot of the path (the whole path when it has none), `;base64,` and
      the encoded file; `filename` is the text after the last slash. */
  lemma RecordFields(path: string, encoded: string)
    ensures ImageRecord(path, encoded).entries.Keys == {"data", "filename"}
    ensures exists ext :: AfterLast(path, '.', ext) &&
              ImageRecord(path, encoded).entries["data"] == Str("data:image/" + ext + ";base64," + encoded)
    ensures exists base :: AfterLast(path, '/', base) &&
              ImageRecord(path, encoded).entries["filename"] == Str(base)
  {
    RecordData(path, encoded);
    RecordFilename(path, encoded);
  }

  lemma RecordData(path: string, encoded: string)
    ensures exists ext :: AfterLast(path, '.', ext) &&
              ImageRecord(path, encoded).entries["data"] == Str("data:image/" + ext + ";base64," + encoded)
  {
    var ext := Extension(path);
    ExtensionAfterLastDot(path);
    assert ImageRecord(path, encoded).entries["data"] == Str("data:image/" + ext + ";base64," + encoded);
  }

  lemma RecordFilename(path: string, encoded: string)
    ensures exists base :: AfterLast(path, '/', base) &&
              ImageRecord(path, encoded).entries["filename"] == Str(base)
  {
    var base := Basename(path);
    BasenameAfterLastSlash(path);
    assert ImageRecord(path, encoded).entries["filename"] == Str(base);
  }

  /** After a successful `process_images` on a source with `images`,
      `images` of the target holds exactly the source's image keys, each
      with the record of its path and file. No other key of the target
      changes. */
  lemma ImagesRecords(m: map<string, Value>, source: map<string, Value>, files: Files, b64: seq<byte> -> string)
    requires "images" in source && ImagesSpec(m, Map(source), files, b64).Some?
    ensures source["images"].Map?
    ensures var r := ImagesSpec(m, Map(source), files, b64).value;
            var images := source["images"].entries;
            && "images" in r && r["images"].Map?
            && r["images"].entries.Keys == images.Keys
            && (forall k :: k in images ==>
                  Readable(images[k], files) && r["images"].entries[k] == ImageRecord(images[k].s, b64(files[images[k].s])))
            && forall k :: k != "images" ==> (k in r <==> k in m) && (k in m ==> r[k] == m[k])
  {
  }
}
