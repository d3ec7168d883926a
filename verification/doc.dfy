/** Document values as the converter sees them, and the nested-dictionary
    update that `deep_set` performs, stated on values. */
module Doc {

  datatype Option<+T> = None | Some(value: T)

  /** A node of the parsed theme file or of the emitted JSON: a string, or a
      mapping from string keys to nodes. */
  datatype Value = Str(s: string) | Map(entries: map<string, Value>)

  /** The node reached by following `path` from `v`; None when a key is
      missing or a string stands in the way. */
  function Lookup(v: Value, path: seq<string>): (r: Option<Value>)
    decreases |path|
  {
    if path == [] then Some(v)
    else match v
      case Str(_) => None
      case Map(m) => if path[0] in m then Lookup(m[path[0]], path[1..]) else None
  }

  predicate IsText(o: Option<Value>) { o.Some? && o.value.Str? }

  predicate IsMap(o: Option<Value>) { o.Some? && o.value.Map? }

  /** Neither path is a prefix of the other: writes at `p` and `q` touch
      disjoint parts of a document. */
  predicate Incomparable(p: seq<string>, q: seq<string>) {
    !(p <= q) && !(q <= p)
  }

  /** `deep_set(d, keys, x)` on a mapping `m`: every key but the last is
      resolved with `setdefault(key, {})`, the last one is assigned. None is
      the exception Python raises: an empty key list (`keys[-1]`), or a string
      met where a mapping is needed. */
  function Put(m: map<string, Value>, keys: seq<string>, x: Value): (r: Option<map<string, Value>>)
    decreases |keys|
  {
    if keys == [] then None
    else if |keys| == 1 then Some(m[keys[0] := x])
    else
      var child := if keys[0] in m then m[keys[0]] else Map(map[]);
      match child
      case Str(_) => None
      case Map(c) =>
        match Put(c, keys[1..], x)
        case None => None
        case Some(c') => Some(m[keys[0] := Map(c')])
  }

  /** A `Put` after an earlier one that may have failed. */
  function Then(o: Option<map<string, Value>>, keys: seq<string>, x: Value): (r: Option<map<string, Value>>)
  {
    if o.None? then None else Put(o.value, keys, x)
  }

  /** Replace the node at an existing `path` of `v` by `w`. */
  function SetAt(v: Value, path: seq<string>, w: Value): (r: Value)
    decreases |path|
  {
    if path == [] then w
    else match v
      case Str(_) => v
      case Map(m) => if path[0] in m then Map(m[path[0] := SetAt(m[path[0]], path[1..], w)]) else v
  }

  /** Put the result of a `Put` on the mapping found at `path` back into `v`. */
  function Graft(v: Value, path: seq<string>, o: Option<map<string, Value>>): (r: Option<Value>)
  {
    if o.None? then None else Some(SetAt(v, path, Map(o.value)))
  }

  /** Looking up a concatenated path is looking up its two halves in turn. */
  lemma {:induction false} LookupAppend(v: Value, p: seq<string>, q: seq<string>)
    ensures Lookup(v, p + q) == if Lookup(v, p).Some? then Lookup(Lookup(v, p).value, q) else None
    decreases |p|
  {
    if p != [] {
      assert (p + q)[0] == p[0] && (p + q)[1..] == p[1..] + q;
      if v.Map? && p[0] in v.entries {
        LookupAppend(v.entries[p[0]], p[1..], q);
        assert Lookup(v, p + q) == Lookup(v.entries[p[0]], p[1..] + q);
      } else {
        assert Lookup(v, p + q) == None;
      }
    } else {
      assert p + q == q;
    }
  }

  /** `deep_set` raises exactly when the key list is empty or one of the
      proper prefixes of the path names a string. */
  lemma {:induction false} PutSucceedsIff(m: map<string, Value>, keys: seq<string>, x: Value)
    ensures Put(m, keys, x).Some? <==>
            keys != [] && forall j :: 0 < j < |keys| ==> !IsText(Lookup(Map(m), keys[..j]))
    decreases |keys|
  {
    if |keys| >= 2 {
      var k := keys[0];
      forall j | 1 <= j < |keys|
        ensures Lookup(Map(m), keys[..j]) == if k in m then Lookup(m[k], keys[1..][..j - 1]) else None
      {
        assert keys[..j][0] == k && keys[..j][1..] == keys[1..][..j - 1];
      }
      var child := if k in m then m[k] else Map(map[]);
      if child.Map? {
        PutSucceedsIff(child.entries, keys[1..], x);
        forall j | 0 < j < |keys| - 1
          ensures Lookup(Map(child.entries), keys[1..][..j]) ==
                  if k in m then Lookup(m[k], keys[1..][..j]) else None
        {
          assert keys[1..][..j] != [];
        }
        if Put(m, keys, x).Some? {
          forall j | 0 < j < |keys| ensures !IsText(Lookup(Map(m), keys[..j])) {
            if j > 1 {
              assert !IsText(Lookup(Map(child.entries), keys[1..][..j - 1]));
            }
          }
        } else {
          var j' :| 0 < j' < |keys[1..]| && IsText(Lookup(Map(child.entries), keys[1..][..j']));
          assert IsText(Lookup(Map(m), keys[..j' + 1]));
        }
      } else {
        assert IsText(Lookup(Map(m), keys[..1]));
      }
    }
  }

  /** After a successful `deep_set`, following the keys reaches exactly the
      value written. */
  lemma {:induction false} PutGet(m: map<string, Value>, keys: seq<string>, x: Value)
    requires Put(m, keys, x).Some?
    ensures Lookup(Map(Put(m, keys, x).value), keys) == Some(x)
    decreases |keys|
  {
    if |keys| >= 2 {
      var child := if keys[0] in m then m[keys[0]] else Map(map[]);
      PutGet(child.entries, keys[1..], x);
    }
  }

  /** A successful `deep_set` leaves every path unrelated to its key path as
      it was: siblings at every level, and everything off the path. */
  lemma {:induction false} PutOther(m: map<string, Value>, keys: seq<string>, x: Value, p: seq<string>)
    requires Put(m, keys, x).Some? && Incomparable(keys, p)
    ensures Lookup(Map(Put(m, keys, x).value), p) == Lookup(Map(m), p)
    decreases |keys|
  {
    var r := Put(m, keys, x).value;
    var k := keys[0];
    assert p != [];
    if p[0] == k {
      assert keys == [k] + keys[1..] && p == [k] + p[1..];
      assert |keys| >= 2;
      var child := if k in m then m[k] else Map(map[]);
      assert Incomparable(keys[1..], p[1..]);
      PutOther(child.entries, keys[1..], x, p[1..]);
      assert p[1..] != [];
    }
  }

  /** At every proper prefix of the key path a successful `deep_set` leaves a
      mapping: the one that was there, reused with its other entries intact and
      one key (the next one on the path) ensured, or a new one holding only
      that key where nothing was. */
  lemma {:induction false} PutPrefix(m: map<string, Value>, keys: seq<string>, x: Value, p: seq<string>)
    requires Put(m, keys, x).Some? && p < keys
    ensures IsMap(Lookup(Map(Put(m, keys, x).value), p))
    ensures !IsText(Lookup(Map(m), p))
    ensures var before := if IsMap(Lookup(Map(m), p)) then Lookup(Map(m), p).value.entries else map[];
            var after := Lookup(Map(Put(m, keys, x).value), p).value.entries;
            && after.Keys == before.Keys + {keys[|p|]}
            && forall k' :: k' in before && k' != keys[|p|] ==> after[k'] == before[k']
    decreases |p|
  {
    if p != [] {
      var k := keys[0];
      assert p == [k] + p[1..] && keys == [k] + keys[1..];
      var child := if k in m then m[k] else Map(map[]);
      PutPrefix(child.entries, keys[1..], x, p[1..]);
      assert keys[1..][|p[1..]|] == keys[|p|];
    }
  }

  /** A `deep_set` only looks at the entry its first key names: on any other
      mapping that agrees on that entry it does the same thing. */
  lemma PutLocal(m: map<string, Value>, m2: map<string, Value>, keys: seq<string>, x: Value)
    requires keys != []
    requires keys[0] in m <==> keys[0] in m2
    requires keys[0] in m ==> m[keys[0]] == m2[keys[0]]
    ensures Put(m, keys, x).Some? ==> Put(m, keys, x).value.Keys == m.Keys + {keys[0]}
    ensures Put(m2, keys, x) ==
            if Put(m, keys, x).None? then None else Some(m2[keys[0] := Put(m, keys, x).value[keys[0]]])
  {
  }

  /** Unfolds `Put` one level for a path of at least two keys. */
  lemma PutStep(m: map<string, Value>, k: string, rest: seq<string>, x: Value)
    requires rest != []
    ensures Put(m, [k] + rest, x) ==
            var child := if k in m then m[k] else Map(map[]);
            if child.Str? then None
            else var o := Put(child.entries, rest, x);
                 if o.None? then None else Some(m[k := Map(o.value)])
  {
    assert ([k] + rest)[0] == k && ([k] + rest)[1..] == rest;
  }

  /** Two writes at incomparable paths commute, failures included; this is
      why the order in which the colour table is walked does not matter. */
  lemma {:induction false} PutCommute(m: map<string, Value>, p: seq<string>, x: Value, q: seq<string>, y: Value)
    requires Incomparable(p, q)
    ensures Then(Put(m, p, x), q, y) == Then(Put(m, q, y), p, x)
    decreases |p|
  {
    assert p != [] && q != [];
    if p[0] != q[0] {
      PutCommuteApart(m, p, x, q, y);
    } else {
      var k := p[0];
      assert p == [k] + p[1..] && q == [k] + q[1..];
      assert Incomparable(p[1..], q[1..]);
      var child := if k in m then m[k] else Map(map[]);
      if child.Map? {
        PutCommute(child.entries, p[1..], x, q[1..], y);
      }
      PutCommuteHead(m, k, p[1..], x, q[1..], y);
    }
  }

  /** Two writes below the same key commute when they commute below it. */
  lemma PutCommuteHead(m: map<string, Value>, k: string, p: seq<string>, x: Value, q: seq<string>, y: Value)
    requires p != [] && q != []
    requires var child := if k in m then m[k] else Map(map[]);
             child.Map? ==> Then(Put(child.entries, p, x), q, y) == Then(Put(child.entries, q, y), p, x)
    ensures Then(Put(m, [k] + p, x), [k] + q, y) == Then(Put(m, [k] + q, y), [k] + p, x)
  {
    var child := if k in m then m[k] else Map(map[]);
    PutStep(m, k, p, x);
    PutStep(m, k, q, y);
    if child.Map? {
      var c := child.entries;
      var px, qy := Put(c, p, x), Put(c, q, y);
      if px.Some? {
        PutStep(m[k := Map(px.value)], k, q, y);
        assert m[k := Map(px.value)][k] == Map(px.value);
      }
      if qy.Some? {
        PutStep(m[k := Map(qy.value)], k, p, x);
        assert m[k := Map(qy.value)][k] == Map(qy.value);
      }
      var lhs, rhs := Then(px, q, y), Then(qy, p, x);
      if lhs.Some? {
        assert m[k := Map(px.value)][k := Map(lhs.value)] == m[k := Map(lhs.value)];
        assert m[k := Map(qy.value)][k := Map(rhs.value)] == m[k := Map(rhs.value)];
      }
    }
  }

  lemma PutCommuteApart(m: map<string, Value>, p: seq<string>, x: Value, q: seq<string>, y: Value)
    requires p != [] && q != [] && p[0] != q[0]
    ensures Then(Put(m, p, x), q, y) == Then(Put(m, q, y), p, x)
  {
    var k := p[0];
    var px := Put(m, p, x);
    var qy := Put(m, q, y);
    PutLocal(m, m, p, x);
    PutLocal(m, m, q, y);
    if px.Some? {
      PutLocal(m, px.value, q, y);
    }
    if qy.Some? {
      PutLocal(m, qy.value, p, x);
    }
    if px.Some? && qy.Some? {
      var a, b := px.value[k], qy.value[q[0]];
      assert Put(px.value, q, y).value == m[k := a][q[0] := b];
      assert Put(qy.value, p, x).value == m[q[0] := b][k := a];
      assert m[k := a][q[0] := b] == m[q[0] := b][k := a];
    }
  }

  lemma {:induction false} SetAtLookup(v: Value, p: seq<string>, w: Value)
    requires Lookup(v, p).Some?
    ensures Lookup(SetAt(v, p, w), p) == Some(w)
    decreases |p|
  {
    if p != [] {
      SetAtLookup(v.entries[p[0]], p[1..], w);
    }
  }

  lemma {:induction false} SetAtSelf(v: Value, p: seq<string>)
    requires Lookup(v, p).Some?
    ensures SetAt(v, p, Lookup(v, p).value) == v
    decreases |p|
  {
    if p != [] {
      SetAtSelf(v.entries[p[0]], p[1..]);
    }
  }

  lemma {:induction false} SetAtTwice(v: Value, p: seq<string>, w1: Value, w2: Value)
    requires Lookup(v, p).Some?
    ensures SetAt(SetAt(v, p, w1), p, w2) == SetAt(v, p, w2)
    decreases |p|
  {
    if p != [] {
      SetAtTwice(v.entries[p[0]], p[1..], w1, w2);
    }
  }

  lemma {:induction false} SetAtSnoc(v: Value, p: seq<string>, k: string, w: Value)
    requires IsMap(Lookup(v, p)) && k in Lookup(v, p).value.entries
    ensures SetAt(v, p + [k], w) == SetAt(v, p, Map(Lookup(v, p).value.entries[k := w]))
    decreases |p|
  {
    if p == [] {
      assert p + [k] == [k];
    } else {
      assert (p + [k])[0] == p[0] && (p + [k])[1..] == p[1..] + [k];
      SetAtSnoc(v.entries[p[0]], p[1..], k, w);
    }
  }

  /** One step of `deep_set`'s descent through a mapping that is already
      there. */
  lemma GraftDescend(v: Value, p: seq<string>, k: string, rest: seq<string>, x: Value)
    requires IsMap(Lookup(v, p))
    requires k in Lookup(v, p).value.entries && Lookup(v, p).value.entries[k].Map?
    requires rest != []
    ensures Graft(v, p, Put(Lookup(v, p).value.entries, [k] + rest, x)) ==
            Graft(v, p + [k], Put(Lookup(v, p).value.entries[k].entries, rest, x))
  {
    var e := Lookup(v, p).value.entries;
    assert ([k] + rest)[0] == k && ([k] + rest)[1..] == rest;
    var o := Put(e[k].entries, rest, x);
    if o.Some? {
      SetAtSnoc(v, p, k, Map(o.value));
    }
  }

  /** One step of `deep_set`'s descent where `setdefault` creates the
      missing mapping. */
  lemma GraftCreate(v: Value, p: seq<string>, k: string, rest: seq<string>, x: Value)
    requires IsMap(Lookup(v, p)) && k !in Lookup(v, p).value.entries
    requires rest != []
    ensures var e := Lookup(v, p).value.entries;
            Graft(v, p, Put(e, [k] + rest, x)) ==
            Graft(SetAt(v, p, Map(e[k := Map(map[])])), p + [k], Put(map[], rest, x))
  {
    var e := Lookup(v, p).value.entries;
    var e' := e[k := Map(map[])];
    assert ([k] + rest)[0] == k && ([k] + rest)[1..] == rest;
    var o := Put(map[], rest, x);
    if o.Some? {
      var v' := SetAt(v, p, Map(e'));
      SetAtLookup(v, p, Map(e'));
      SetAtSnoc(v', p, k, Map(o.value));
      SetAtTwice(v, p, Map(e'), Map(e'[k := Map(o.value)]));
      assert e'[k := Map(o.value)] == e[k := Map(o.value)];
    }
  }

  /** One step of `deep_set`'s descent, `setdefault(k, {})`: the mapping at
      `k`, or a new empty one, is what the rest of the keys go into. */
  lemma GraftSetDefault(v: Value, p: seq<string>, k: string, rest: seq<string>, x: Value)
    requires IsMap(Lookup(v, p)) && rest != []
    requires var e := Lookup(v, p).value.entries; k in e ==> e[k].Map?
    ensures var e := Lookup(v, p).value.entries;
            var w := if k in e then e[k] else Map(map[]);
            Graft(v, p, Put(e, [k] + rest, x)) == Graft(SetAt(v, p, Map(e[k := w])), p + [k], Put(w.entries, rest, x))
  {
    var e := Lookup(v, p).value.entries;
    if k in e {
      assert e[k := e[k]] == e;
      SetAtSelf(v, p);
      GraftDescend(v, p, k, rest, x);
    } else {
      GraftCreate(v, p, k, rest, x);
    }
  }
}
