/** Python dictionaries as objects with an identity: the store that the
    converter mutates in place, and the document each object stands for. */
module Store {
  import opened Doc

  /** What a dictionary entry holds: a value taken as it is (a string, or a
      node of the source document, which the converter never mutates), or a
      reference to a dictionary object of the store. */
  datatype Slot = Leaf(v: Value) | Ref(id: nat)

  /** The dictionary objects, indexed by identity. */
  type Objects = seq<map<string, Slot>>

  /** Every reference points to an object created later, so following
      references always ends. */
  predicate Ordered(h: Objects) {
    forall i, k :: 0 <= i < |h| && k in h[i] && h[i][k].Ref? ==> i < h[i][k].id < |h|
  }

  /** No dictionary object is held by two entries: the objects form trees. */
  predicate UniqueParent(h: Objects) {
    forall i, k, j, k2 ::
      0 <= i < |h| && 0 <= j < |h| && k in h[i] && k2 in h[j] && h[i][k].Ref? && h[j][k2] == h[i][k]
      ==> i == j && k == k2
  }

  predicate Wf(h: Objects) {
    Ordered(h) && UniqueParent(h)
  }

  /** Every reference in `m` names an object of `h`. */
  predicate RefsIn(h: Objects, m: map<string, Slot>) {
    forall k :: k in m && m[k].Ref? ==> m[k].id < |h|
  }

  /** The document that object `i` stands for, as `json.dumps` would print it. */
  function View(h: Objects, i: nat): (r: Value)
    requires Ordered(h) && i < |h|
    decreases |h| - i
  {
    Map(map k | k in h[i] :: if h[i][k].Ref? then View(h, h[i][k].id) else h[i][k].v)
  }

  /** The entries of a dictionary whose references are resolved in `h`. */
  function SlotsView(h: Objects, m: map<string, Slot>): (r: map<string, Value>)
    requires Ordered(h) && RefsIn(h, m)
  {
    map k | k in m :: if m[k].Ref? then View(h, m[k].id) else m[k].v
  }

  /** The object reached from object `a` by following the references that the
      keys of `p` name; a walk never comes back to where it started. */
  function Walk(h: Objects, a: nat, p: seq<string>): (r: Option<nat>)
    requires Ordered(h) && a < |h|
    ensures r.Some? ==> a <= r.value < |h|
    ensures r.Some? && p != [] ==> a < r.value
    decreases |p|
  {
    if p == [] then Some(a)
    else if p[0] in h[a] && h[a][p[0]].Ref? then Walk(h, h[a][p[0]].id, p[1..])
    else None
  }

  lemma ViewIsSlotsView(h: Objects, i: nat)
    requires Ordered(h) && i < |h|
    ensures RefsIn(h, h[i]) && View(h, i) == Map(SlotsView(h, h[i]))
  {
  }

  lemma WalkCons(h: Objects, a: nat, k: string, q: seq<string>)
    requires Ordered(h) && a < |h| && k in h[a] && h[a][k].Ref?
    ensures Walk(h, a, [k] + q) == Walk(h, h[a][k].id, q)
  {
    assert ([k] + q)[0] == k && ([k] + q)[1..] == q;
  }

  /** The last step of a walk. */
  lemma {:induction false} WalkSnoc(h: Objects, a: nat, p: seq<string>, k: string)
    requires Ordered(h) && a < |h|
    ensures Walk(h, a, p + [k]) ==
            var w := Walk(h, a, p);
            if w.Some? && k in h[w.value] && h[w.value][k].Ref? then Some(h[w.value][k].id) else None
    decreases |p|
  {
    if p == [] {
      assert p + [k] == [k];
    } else {
      assert (p + [k])[0] == p[0] && (p + [k])[1..] == p[1..] + [k];
      if p[0] in h[a] && h[a][p[0]].Ref? {
        WalkSnoc(h, h[a][p[0]].id, p[1..], k);
      }
    }
  }

  /** In a store of trees, an object is reached from `a` along one path only. */
  lemma {:induction false} WalkInjective(h: Objects, a: nat, p: seq<string>, q: seq<string>)
    requires Wf(h) && a < |h|
    requires Walk(h, a, p).Some? && Walk(h, a, p) == Walk(h, a, q)
    ensures p == q
    decreases |p| + |q|
  {
    if p != [] && q != [] {
      var p', k1 := p[..|p| - 1], p[|p| - 1];
      var q', k2 := q[..|q| - 1], q[|q| - 1];
      assert p == p' + [k1] && q == q' + [k2];
      WalkSnoc(h, a, p', k1);
      WalkSnoc(h, a, q', k2);
      var y1, y2 := Walk(h, a, p').value, Walk(h, a, q').value;
      assert h[y1][k1] == h[y2][k2];
      WalkInjective(h, a, p', q');
    }
  }

  /** Following references in the store is looking up the path in the view. */
  lemma {:induction false} WalkLookup(h: Objects, a: nat, p: seq<string>)
    requires Ordered(h) && a < |h| && Walk(h, a, p).Some?
    ensures Lookup(View(h, a), p) == Some(View(h, Walk(h, a, p).value))
    decreases |p|
  {
    if p != [] {
      WalkLookup(h, h[a][p[0]].id, p[1..]);
    }
  }

  /** Creating an object changes the view of no existing object. */
  lemma {:induction false} AppendFrame(h: Objects, m: map<string, Slot>, i: nat)
    requires Ordered(h) && Ordered(h + [m]) && i < |h|
    ensures View(h + [m], i) == View(h, i)
    decreases |h| - i
  {
    var h' := h + [m];
    assert h'[i] == h[i];
    forall k | k in h[i] && h[i][k].Ref?
      ensures View(h', h[i][k].id) == View(h, h[i][k].id)
    {
      AppendFrame(h, m, h[i][k].id);
    }
  }

  /** Changing object `d` leaves the view of every object that cannot reach
      `d` as it was. */
  lemma {:induction false} FrameUnreached(h: Objects, d: nat, m: map<string, Slot>, i: nat)
    requires Ordered(h) && d < |h| && Ordered(h[d := m]) && i < |h|
    requires forall q :: Walk(h, i, q) != Some(d)
    ensures View(h[d := m], i) == View(h, i)
    decreases |h| - i
  {
    var h' := h[d := m];
    assert Walk(h, i, []) == Some(i);
    assert h'[i] == h[i];
    forall k | k in h[i] && h[i][k].Ref?
      ensures View(h', h[i][k].id) == View(h, h[i][k].id)
    {
      var c := h[i][k].id;
      forall q ensures Walk(h, c, q) != Some(d) {
        WalkCons(h, i, k, q);
      }
      FrameUnreached(h, d, m, c);
    }
  }

  /** The new view of a changed object, in terms of the views of its entries
      before the change. */
  lemma NodeView(h: Objects, d: nat, m: map<string, Slot>)
    requires Ordered(h) && d < |h| && Ordered(h[d := m])
    ensures RefsIn(h, m) && View(h[d := m], d) == Map(SlotsView(h, m))
  {
    var h' := h[d := m];
    assert h'[d] == m;
    forall k | k in m && m[k].Ref?
      ensures View(h', m[k].id) == View(h, m[k].id)
    {
      FrameUnreached(h, d, m, m[k].id);
    }
  }

  /** Changing the object at the end of path `p` from `a` changes the view of
      `a` at that path and nowhere else. */
  lemma {:induction false} UpdateNode(h: Objects, a: nat, p: seq<string>, d: nat, m: map<string, Slot>)
    requires Wf(h) && a < |h| && Walk(h, a, p) == Some(d) && Ordered(h[d := m])
    ensures RefsIn(h, m)
    ensures View(h[d := m], a) == SetAt(View(h, a), p, Map(SlotsView(h, m)))
    decreases |p|
  {
    var h' := h[d := m];
    NodeView(h, d, m);
    if p != [] {
      var k := p[0];
      var c := h[a][k].id;
      UpdateNode(h, c, p[1..], d, m);
      assert h'[a] == h[a];
      forall k' | k' in h[a] && k' != k && h[a][k'].Ref?
        ensures View(h', h[a][k'].id) == View(h, h[a][k'].id)
      {
        var c' := h[a][k'].id;
        forall q ensures Walk(h, c', q) != Some(d) {
          WalkCons(h, a, k', q);
          if Walk(h, c', q) == Some(d) {
            assert ([k'] + q)[0] == k';
            WalkInjective(h, a, [k'] + q, p);
          }
        }
        FrameUnreached(h, d, m, c');
      }
      assert View(h', a) == SetAt(View(h, a), p, Map(SlotsView(h, m)));
    }
  }

  /** A dictionary created without references keeps the store well formed. */
  lemma AppendWf(h: Objects, m: map<string, Slot>)
    requires Wf(h) && forall k :: k in m ==> m[k].Leaf?
    ensures Wf(h + [m])
  {
  }

  /** Pointing an entry at an object that nothing references yet keeps the
      store well formed. */
  lemma LinkWf(h: Objects, d: nat, k: string, n: nat)
    requires Wf(h) && d < n < |h|
    requires forall i, k' :: 0 <= i < |h| && k' in h[i] ==> h[i][k'] != Ref(n)
    ensures Wf(h[d := h[d][k := Ref(n)]])
  {
  }

  /** Storing a plain value keeps the store well formed. */
  lemma StoreWf(h: Objects, d: nat, k: string, x: Value)
    requires Wf(h) && d < |h|
    ensures Wf(h[d := h[d][k := Leaf(x)]])
  {
  }

  /** Creating an object changes no walk between existing objects. */
  lemma {:induction false} WalkAppend(h: Objects, m: map<string, Slot>, a: nat, p: seq<string>)
    requires Ordered(h) && Ordered(h + [m]) && a < |h|
    ensures Walk(h + [m], a, p) == Walk(h, a, p)
    decreases |p|
  {
    assert (h + [m])[a] == h[a];
    if p != [] && p[0] in h[a] && h[a][p[0]].Ref? {
      WalkAppend(h, m, h[a][p[0]].id, p[1..]);
    }
  }

  /** Changing the object a walk ends at does not change the walk. */
  lemma {:induction false} WalkUpdate(h: Objects, d: nat, m: map<string, Slot>, a: nat, p: seq<string>)
    requires Ordered(h) && d < |h| && Ordered(h[d := m]) && a < |h|
    requires Walk(h, a, p) == Some(d)
    ensures Walk(h[d := m], a, p) == Some(d)
    decreases |p|
  {
    if p != [] {
      assert h[d := m][a] == h[a];
      WalkUpdate(h, d, m, h[a][p[0]].id, p[1..]);
    }
  }

  /** `dct[k] = x` on the object at the end of path `p` from `a`. */
  lemma StoreLeaf(h: Objects, a: nat, p: seq<string>, d: nat, k: string, x: Value)
    requires Wf(h) && a < |h| && Walk(h, a, p) == Some(d)
    ensures var h' := h[d := h[d][k := Leaf(x)]];
            && Wf(h')
            && View(h', a) == SetAt(View(h, a), p, Map(View(h, d).entries[k := x]))
  {
    var m := h[d][k := Leaf(x)];
    StoreWf(h, d, k, x);
    UpdateNode(h, a, p, d, m);
    SlotsViewStore(h, d, k, x);
  }

  /** The entries of an object after one of them is set to a plain value. */
  lemma SlotsViewStore(h: Objects, d: nat, k: string, x: Value)
    requires Ordered(h) && d < |h|
    ensures RefsIn(h, h[d][k := Leaf(x)])
    ensures SlotsView(h, h[d][k := Leaf(x)]) == View(h, d).entries[k := x]
  {
    ViewIsSlotsView(h, d);
  }

  /** Creating a dictionary of plain values and pointing an entry of an
      existing object at it keeps the store well formed. */
  lemma LinkNewWf(h: Objects, d: nat, k: string, init: map<string, Slot>)
    requires Wf(h) && d < |h|
    requires forall k' :: k' in init ==> init[k'].Leaf?
    ensures Wf(h + [init]) && Wf((h + [init])[d := h[d][k := Ref(|h|)]])
  {
    var n := |h|;
    var h1 := h + [init];
    AppendWf(h, init);
    assert h1[d] == h[d];
    forall i, k' | 0 <= i < |h1| && k' in h1[i] ensures h1[i][k'] != Ref(n) {
      if i < n {
        assert h1[i] == h[i];
      }
    }
    LinkWf(h1, d, k, n);
  }

  /** The new dictionary's view is its plain values. */
  lemma NewView(h: Objects, d: nat, k: string, init: map<string, Slot>)
    requires Wf(h) && d < |h|
    requires forall k' :: k' in init ==> init[k'].Leaf?
    ensures Wf((h + [init])[d := h[d][k := Ref(|h|)]])
    ensures View((h + [init])[d := h[d][k := Ref(|h|)]], |h|) == Map(map k' | k' in init :: init[k'].v)
  {
    LinkNewWf(h, d, k, init);
    assert ((h + [init])[d := h[d][k := Ref(|h|)]])[|h|] == init;
  }

  /** After `dct[k] = {...}` on the object at the end of path `p` from `a`,
      the new object is reached by `p + [k]`. */
  lemma LinkWalk(h: Objects, a: nat, p: seq<string>, d: nat, k: string, init: map<string, Slot>)
    requires Wf(h) && a < |h| && Walk(h, a, p) == Some(d)
    requires forall k' :: k' in init ==> init[k'].Leaf?
    ensures Wf((h + [init])[d := h[d][k := Ref(|h|)]])
    ensures Walk((h + [init])[d := h[d][k := Ref(|h|)]], a, p) == Some(d)
    ensures Walk((h + [init])[d := h[d][k := Ref(|h|)]], a, p + [k]) == Some(|h|)
  {
    var n := |h|;
    var h1 := h + [init];
    LinkNewWf(h, d, k, init);
    var m := h1[d][k := Ref(n)];
    var h' := h1[d := m];
    WalkAppend(h, init, a, p);
    WalkUpdate(h1, d, m, a, p);
    WalkSnoc(h', a, p, k);
  }

  /** Creating an object keeps the views of, and the walks between, the
      existing objects. */
  lemma AppendKeeps(h: Objects, a: nat, p: seq<string>, d: nat, init: map<string, Slot>)
    requires Wf(h) && a < |h| && Walk(h, a, p) == Some(d)
    requires forall k' :: k' in init ==> init[k'].Leaf?
    ensures Wf(h + [init])
    ensures View(h + [init], a) == View(h, a) && View(h + [init], d) == View(h, d)
    ensures Walk(h + [init], a, p) == Some(d)
  {
    AppendWf(h, init);
    AppendFrame(h, init, a);
    AppendFrame(h, init, d);
    WalkAppend(h, init, a, p);
  }

  /** The entries of an object after one of them is pointed at object `n`. */
  lemma SlotsViewLink(h: Objects, d: nat, k: string, n: nat)
    requires Ordered(h) && d < n < |h|
    ensures RefsIn(h, h[d][k := Ref(n)])
    ensures SlotsView(h, h[d][k := Ref(n)]) == View(h, d).entries[k := View(h, n)]
  {
    ViewIsSlotsView(h, d);
  }

  /** `dct[k] = {...}` on the object at the end of path `p` from `a` changes
      the view of `a` at `p` only. */
  lemma LinkView(h: Objects, a: nat, p: seq<string>, d: nat, k: string, init: map<string, Slot>)
    requires Wf(h) && a < |h| && Walk(h, a, p) == Some(d)
    requires forall k' :: k' in init ==> init[k'].Leaf?
    ensures Wf((h + [init])[d := h[d][k := Ref(|h|)]])
    ensures var h' := (h + [init])[d := h[d][k := Ref(|h|)]];
            View(h', a) == SetAt(View(h, a), p, Map(View(h, d).entries[k := View(h', |h|)]))
  {
    var n := |h|;
    var h1 := h + [init];
    LinkNewWf(h, d, k, init);
    AppendKeeps(h, a, p, d, init);
    assert h1[d] == h[d];
    var m := h1[d][k := Ref(n)];
    UpdateNode(h1, a, p, d, m);
    SlotsViewLink(h1, d, k, n);
    NewView(h, d, k, init);
    assert View(h1, n) == View(h1[d := m], n) by {
      assert h1[n] == h1[d := m][n];
    }
  }

  /** The objects of the running program; `objs` grows when a dictionary is
      created and is updated where one is mutated. */
  class Heap {
    var objs: Objects

    constructor(init: Objects)
      requires Wf(init)
      ensures Valid() && objs == init
    {
      objs := init;
    }

    ghost predicate Valid()
      reads this
    {
      Wf(objs)
    }
  }
}
