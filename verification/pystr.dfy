/** The string operations the converter applies to the colour table's target
    paths and to image paths: `str.split` with a one-character separator, and
    `os.path.basename` on POSIX. */
module PyStr {

  /** `s.split(c)`: the pieces between occurrences of `c`, empty pieces
      included. There is one piece exactly when `c` does not occur. */
  function Split(s: string, c: char): (r: seq<string>)
    ensures |r| >= 1
    ensures |r| == 1 <==> c !in s
    decreases |s|
  {
    if s == [] then [""]
    else
      var rest := Split(s[1..], c);
      assert c in s <==> s[0] == c || c in s[1..] by {
        assert s == [s[0]] + s[1..];
      }
      if s[0] == c then [""] + rest else [[s[0]] + rest[0]] + rest[1..]
  }

  /** `c.join(pieces)`. */
  function Join(pieces: seq<string>, c: char): (r: string)
    decreases |pieces|
  {
    if pieces == [] then ""
    else if |pieces| == 1 then pieces[0]
    else pieces[0] + [c] + Join(pieces[1..], c)
  }

  /** No piece of a split contains the separator. */
  predicate Free(pieces: seq<string>, c: char) {
    forall i :: 0 <= i < |pieces| ==> c !in pieces[i]
  }

  lemma JoinConsChar(x: char, pieces: seq<string>, c: char)
    requires |pieces| >= 1
    ensures Join([[x] + pieces[0]] + pieces[1..], c) == [x] + Join(pieces, c)
  {
    var q := [[x] + pieces[0]] + pieces[1..];
    if |pieces| > 1 {
      assert q[1..] == pieces[1..];
      assert Join(q, c) == q[0] + [c] + Join(q[1..], c);
    }
  }

  lemma JoinConsEmpty(pieces: seq<string>, c: char)
    requires |pieces| >= 1
    ensures Join([""] + pieces, c) == [c] + Join(pieces, c)
  {
    assert ([""] + pieces)[1..] == pieces;
  }

  /** Joining the pieces of a split gives back the string. */
  lemma {:induction false} JoinSplit(s: string, c: char)
    ensures Join(Split(s, c), c) == s
    decreases |s|
  {
    if s != [] {
      var rest := Split(s[1..], c);
      JoinSplit(s[1..], c);
      assert s == [s[0]] + s[1..];
      if s[0] == c {
        JoinConsEmpty(rest, c);
      } else {
        JoinConsChar(s[0], rest, c);
      }
    }
  }

  /** No piece of a split contains the separator. */
  lemma {:induction false} SplitFree(s: string, c: char)
    ensures Free(Split(s, c), c)
    decreases |s|
  {
    if s != [] {
      var rest := Split(s[1..], c);
      var r := Split(s, c);
      SplitFree(s[1..], c);
      if s[0] != c {
        assert r == [[s[0]] + rest[0]] + rest[1..];
        forall i | 0 <= i < |r| ensures c !in r[i] {
          if i == 0 {
            assert c !in rest[0];
          } else {
            assert r[i] == rest[i];
          }
        }
      } else {
        assert r == [""] + rest;
        forall i | 0 < i < |r| ensures c !in r[i] {
          assert r[i] == rest[i - 1];
        }
      }
    }
  }

  /** Splitting a join of separator-free pieces gives back the pieces, so the
      two round trips together pin `Split` down. */
  lemma {:induction false} SplitJoin(pieces: seq<string>, c: char)
    requires |pieces| >= 1 && Free(pieces, c)
    ensures Split(Join(pieces, c), c) == pieces
    decreases |pieces|
  {
    if |pieces| == 1 {
      JoinSplit(pieces[0], c);
    } else {
      SplitJoin(pieces[1..], c);
      SplitPrefix(pieces[0], Join(pieces[1..], c), c);
      assert pieces == [pieces[0]] + pieces[1..];
    }
  }

  /** A separator-free prefix followed by the separator becomes the first piece. */
  lemma {:induction false} SplitPrefix(a: string, t: string, c: char)
    requires c !in a
    ensures Split(a + [c] + t, c) == [a] + Split(t, c)
    decreases |a|
  {
    if a == [] {
      assert a + [c] + t == [c] + t;
      assert ([c] + t)[1..] == t;
    } else {
      var s := a + [c] + t;
      assert s[0] == a[0] && s[1..] == a[1..] + [c] + t;
      assert c !in a[1..];
      SplitPrefix(a[1..], t, c);
      assert [a[0]] + a[1..] == a;
    }
  }

  /** `e` is what follows the last `c` in `s`, or the whole of `s` when `c`
      does not occur in it. */
  predicate AfterLast(s: string, c: char, e: string) {
    && |e| <= |s| && s[|s| - |e|..] == e
    && c !in e
    && (|e| < |s| ==> s[|s| - |e| - 1] == c)
  }

  /** At most one string is what follows the last separator. */
  lemma AfterLastUnique(s: string, c: char, e1: string, e2: string)
    requires AfterLast(s, c, e1) && AfterLast(s, c, e2)
    ensures e1 == e2
  {
  }

  /** The last piece of `s.split(c)` is what follows the last `c`. */
  lemma LastPiece(s: string, c: char)
    ensures var r := Split(s, c); AfterLast(s, c, r[|r| - 1])
  {
    var r := Split(s, c);
    JoinSplit(s, c);
    SplitFree(s, c);
    if |r| > 1 {
      JoinLast(r, c);
    }
  }

  lemma {:induction false} JoinLast(pieces: seq<string>, c: char)
    requires |pieces| >= 2
    ensures Join(pieces, c) == Join(pieces[..|pieces| - 1], c) + [c] + pieces[|pieces| - 1]
    decreases |pieces|
  {
    if |pieces| > 2 {
      JoinLast(pieces[1..], c);
      assert pieces[1..][..|pieces| - 2] == pieces[..|pieces| - 1][1..];
    }
  }

  /** `s.rfind(c)`: the index of the last `c`, or -1. */
  function RFind(s: string, c: char): (r: int)
    ensures -1 <= r < |s|
    ensures r >= 0 ==> s[r] == c
    ensures forall j :: r < j < |s| ==> s[j] != c
    decreases |s|
  {
    if s == [] then -1
    else if s[|s| - 1] == c then |s| - 1
    else RFind(s[..|s| - 1], c)
  }

  /** `os.path.basename(p)` on POSIX: the text after the last slash. */
  function Basename(p: string): (r: string) {
    p[RFind(p, '/') + 1..]
  }

  /** `p.split('.')[-1]`, the text `process_images` puts after `image/`. */
  function Extension(p: string): (r: string) {
    var parts := Split(p, '.');
    parts[|parts| - 1]
  }

  /** The extension is what follows the last dot of the whole path, or the
      whole path when it has no dot. */
  lemma ExtensionAfterLastDot(p: string)
    ensures AfterLast(p, '.', Extension(p))
    ensures '.' !in p ==> Extension(p) == p
  {
    LastPiece(p, '.');
  }

  /** The base name is what follows the last slash, and it is the last piece
      of `p.split('/')`. */
  lemma BasenameAfterLastSlash(p: string)
    ensures AfterLast(p, '/', Basename(p))
    ensures var r := Split(p, '/'); Basename(p) == r[|r| - 1]
  {
    var b := Basename(p);
    var i := RFind(p, '/');
    assert p[|p| - |b|..] == b;
    LastPiece(p, '/');
    var r := Split(p, '/');
    AfterLastUnique(p, '/', b, r[|r| - 1]);
  }
}
