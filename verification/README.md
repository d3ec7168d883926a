# Theme converter model

This project models the logic of `main.py`, a one-shot converter. It reads a
YAML theme description (`theme.conf.yaml`) and prints a JSON theme document.
The printed document starts as a copy of the template `DEFAULT_VALUES` and is
then changed in three steps:

- `process_colors` writes every colour the theme sets to the place that
  `COLOR_MAPPINGS` names under `custom_theme.colors`, using `deep_set`;
- `process_fonts` copies `fonts` to `custom_fonts`;
- `process_images` turns each entry of `images` into a record holding a
  `data:` URI with the Base64 of the file, and the file's base name.

The model has two levels.

- **Values.** `Doc.Value` is a parsed document node: a string or a string-keyed
  mapping.
  - Each step is a function from the target's entries to `Option`, where `None`
    is the exception Python raises. The functions are `Doc.Put` for
    `deep_set`, `Colors.ColorsSpec`, `Assets.FontsSpec` and
    `Assets.ImagesSpec`.
  - `Pipeline.Converted` runs the three steps in turn.
  - The properties are lemmas about these functions.
- **Objects.** Python dictionaries are mutable objects with an identity.
  - `Store.Heap` holds them as a sequence of dictionaries, indexed by
    identity. An entry is a plain value (`Leaf`) or a reference to another
    dictionary (`Ref`).
  - `Store.View` is the document a dictionary stands for.
  - The methods `Convert.DeepSet`, `Convert.ProcessColors`,
    `Convert.ProcessFonts` and `Convert.ProcessImages` update the heap in place
    with the loops of the source. Each is proved to produce exactly the view its
    value-level function describes, and to keep the heap a forest of trees.
  - `Pipeline.Run` puts them together as `main` does.

Python's `in` is modelled as it behaves:
- key membership on a mapping;
- a substring test on a string (`Colors.PyIn`).

A theme whose `colors` or `images` is a string therefore raises only where
Python would.

The file system and Base64 are parameters:
- `files` maps each readable image path to its bytes;
- `b64` is the encoder.

## Model

| member | source | states |
|---|---|---|
| Doc.PutSucceedsIff | main.py:114-117 | `deep_set` succeeds exactly when the key list is non-empty and no proper prefix of it reaches a string |
| Doc.PutGet | main.py:114-117 | after `deep_set(d, keys, v)` with non-empty keys, following `keys` from `d` reaches exactly `v` |
| Doc.PutOther | main.py:114-117 | every path incomparable with `keys` (sibling entries at every level, other branches) looks up the same after `deep_set` |
| Doc.PutPrefix | main.py:115-116 | every proper prefix of `keys` leads to a mapping after `deep_set`: existing intermediate mappings are reused, missing ones created |
| Doc.PutCommute | main.py:114-117 | two `deep_set` calls on incomparable key lists give the same result in either order, including when one raises |
| Convert.DeepSet | main.py:114-117 | the in-place walk with `setdefault` and the final assignment succeed exactly when `Put` does, and leave the dictionary viewing as `Put`'s result; the heap stays a forest |
| Tables.TargetsSplit | main.py:10-25 | each target path of `COLOR_MAPPINGS` splits at its one dot into a group and a slot, so `deep_set` gets four keys |
| Tables.TableApart | main.py:10-25 | the 14 target paths are pairwise incomparable, so no write of `process_colors` touches another's place |
| PyStr.JoinSplit | main.py:122 | joining the pieces of `str.split` with the separator gives back the string |
| PyStr.SplitJoin | main.py:122 | splitting a join of separator-free pieces gives back the pieces |
| Colors.ColorsOrderIrrelevant | main.py:119-122 | running the colour loop over any permutation of `COLOR_MAPPINGS` gives the same result or the same failure |
| Colors.ColorsWriteMapped | main.py:120-122 | for every mapped key present in `source.colors`, the output holds the source value verbatim at the key's target path; the default record is replaced, not merged |
| Colors.ColorsKeepUnset | main.py:121 | a mapped key absent from `source.colors` leaves its target path as it was |
| Colors.ColorsKeepUntargeted | main.py:119-122 | a path overlapping no target path keeps its value |
| Colors.ColorsIgnoreUnmapped | main.py:120-121 | two sources whose `colors` agree on the keys of the table give the same result, so unmapped keys never reach the output |
| Colors.ColorsSucceedIff | main.py:120-122 | on a target where no target path is blocked by a string, `process_colors` succeeds exactly when the source is a mapping with `colors` that is a mapping, or a string containing none of the mapped keys |
| Colors.DefaultsOpen | main.py:27-112 | on the template, no prefix of a target path is a string, so every colour write reaches its slot |
| Colors.DefaultsKept | main.py:60-111 | whatever the source, `text.header`, `text.accent` and `text.footer` under `custom_theme.colors`, and the `text.catalog` block, keep their template values |
| Convert.ProcessColors | main.py:119-122 | the loop over `COLOR_MAPPINGS` calling `DeepSet` succeeds exactly when `ColorsSpec` does, and leaves the target viewing as its result |
| Convert.ProcessTable | main.py:119-122 | the same loop over any table: its result is that of the table's writes in order, and a missing `colors` raises only when the table is non-empty |
| Assets.FontsCopy | main.py:124-126 | on a mapping source, `custom_fonts` is present exactly when `fonts` is (or was already there), and equals `source.fonts`; no other key changes |
| Assets.FontsOnString | main.py:124-126 | on a string source, `process_fonts` raises exactly when `fonts` occurs in it, and otherwise changes nothing |
| Convert.ProcessFonts | main.py:124-126 | the in-place assignment leaves the target viewing as `FontsSpec` describes |
| PyStr.ExtensionAfterLastDot | main.py:135 | `p.split('.')[-1]` is the text after the last dot of the whole path, or the whole path when it has no dot |
| PyStr.BasenameAfterLastSlash | main.py:136 | `os.path.basename(p)` is the text after the last slash, and equals `p.split('/')[-1]` |
| Assets.RecordFields | main.py:134-137 | an image record has exactly `data` and `filename`; `data` is `data:image/` + text after the last dot + `;base64,` + the encoding, and `filename` is the text after the last slash |
| Assets.ImagesSucceedIff | main.py:128-137 | `process_images` on a mapping source succeeds exactly when `images` is absent, or is a mapping whose every entry is a readable path |
| Assets.ImagesAbsent | main.py:129 | a source without `images` leaves the target unchanged (on the template this means no `images` key, see `Pipeline.ConvertOutput`) |
| Assets.ImagesRecords | main.py:129-137 | after success, `images` has exactly the source's image keys, each with the record of its path and file bytes; no other key changes |
| Convert.ProcessImages | main.py:128-137 | the loop over the image entries succeeds exactly when `ImagesSpec` does and leaves the target viewing as its result |
| Convert.FillImages | main.py:131-137 | the loop over the image entries runs to the end exactly when every entry is readable, and then the new `images` dictionary views as the records of all entries |
| Convert.AddImage | main.py:134-137 | storing one readable entry's record adds that key's record to `images` and changes nothing else the target views |
| Pipeline.ProcessAll | main.py:147-149 | the three steps in turn on one dictionary succeed exactly when `Steps` does, stop at the first that raises, and leave the dictionary viewing as the result |
| Pipeline.FontsAfterColors | main.py:119-126 | once `process_colors` has succeeded the theme is a mapping with `colors`, so the following `process_fonts` cannot raise |
| Pipeline.Run | main.py:145-149 | a fresh copy of the template followed by the three steps yields exactly `Converted` |
| Pipeline.ConvertSucceedsIff | main.py:145-149 | a theme mapping converts exactly when it has `colors` (a mapping, or a string without mapped keys) and its `images`, if any, is a mapping of readable paths |
| Pipeline.TemplateColorsSucceedIff | main.py:119-122 | on the template, `process_colors` succeeds exactly when the theme is a mapping with `colors` that is a mapping or a string without mapped keys |
| Pipeline.AssetsSucceedIff | main.py:124-137 | on a theme mapping, `process_fonts` never raises and the following `process_images` raises exactly when `images` is a string or holds an unreadable entry |
| Pipeline.ConvertOutput | main.py:145-149 | the output has `custom_fonts` exactly when the theme has `fonts` and `images` exactly when it has `images`; `text` is the template's; `custom_theme` is as `process_colors` left it |
| Pipeline.ColorsKeepTop | main.py:119-122 | `process_colors` changes no top-level key other than `custom_theme` |

## Left out

- Reading `theme.conf.yaml`, `yaml.safe_load`, `json.dumps` and the command line (`main.py:139-143`, `main.py:151`). These are I/O and library calls. The parsed theme is the `source` input and the printed document is the output of `Pipeline.Run`.
- YAML lists, numbers, booleans and null. `Doc.Value` holds only strings and mappings.
- `os.path.join(base_dir, image_path)` and opening the file (`main.py:132`). `files` is keyed by the relative path, and a path missing from it stands for the `open` that raises.
- `base64.b64encode(...).decode('utf-8')` (`main.py:133`). It is the parameter `b64`.
- PyStr.Basename: `os.path.basename` is modelled as on POSIX (text after the last `/`). On Windows it also splits at `\` and after a drive colon, so `img\logo.png` would give `logo.png` there and the whole string here.
- The shallow copy at `main.py:145`. `DEFAULT_VALUES.copy()` shares the template's nested dictionaries, so `deep_set` mutates the global template itself. Within one run this cannot be observed. The model copies the template's nested values as immutable `Leaf` values, so aliasing between the output and the template is not modelled.
- Convert.DeepSet: where a key leads to a mapping held as a `Leaf` (a template or source node), the model first makes a new dictionary with the same entries and writes into that. Python writes into the existing dictionary. The printed document is the same; the identity of the dictionary is not.
- Dictionary iteration order. `Convert.ProcessImages` takes the image keys in an arbitrary order. `Colors.ColorsOrderIrrelevant` shows that the order of `COLOR_MAPPINGS` does not matter. The key order of the printed JSON is not modelled.
- The state after an exception. When a method returns `false`, nothing is promised about the heap beyond its well-formedness. Python leaves the writes made before the exception in place, but nothing is printed.
- `Colors.ColorsSucceedIff` is stated for targets in which no target path is blocked by a string (`Colors.Open`), which is the case for the template (`Colors.DefaultsOpen`). On other targets, success also depends on where the strings lie.

Behaviour of the code that the model keeps:

- The output keys are snake_case (`custom_theme`, `custom_fonts`).
- A colour value replaces the whole `{value, description}` record at its slot, so the template's keys are not all kept at depth.
- The copy of the template is shallow, not deep.
