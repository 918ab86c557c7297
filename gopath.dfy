// The slash-separated path helpers of Go's path package that the tar
// FileInfo view uses for its base names: Base and Clean.
module GoPath {
  import opened GoTypes

  const DotDot: Bytes := [Dot, Dot]

  /** strings.LastIndexByte(s, b): the last position of b in s, or -1. */
  function LastIndexByte(s: Bytes, b: uint8): (r: int)
    ensures -1 <= r < |s|
    ensures r == -1 <==> b !in s
    ensures r >= 0 ==> s[r] == b && b !in s[r + 1..]
  {
    if s == [] then -1
    else if s[|s| - 1] == b then |s| - 1
    else
      var r := LastIndexByte(s[..|s| - 1], b);
      assert r >= 0 ==> s[r + 1..] == s[..|s| - 1][r + 1..] + [s[|s| - 1]];
      r
  }

  /** path.Base: the last element of the path after trailing slashes are
      removed; "." for the empty path and "/" for a path of slashes only. */
  function Base(p: Bytes): Bytes
  {
    if p == [] then [Dot]
    else
      var t := TrimRight(p, Slash);
      var i := LastIndexByte(t, Slash);
      var last := if i >= 0 then t[i + 1..] else t;
      if last == [] then [Slash] else last
  }

  /** A base name is never empty; it holds a slash only when it is "/", and
      it is "/" exactly for a nonempty path of slashes only. */
  lemma BaseShape(p: Bytes)
    ensures Base(p) != []
    ensures Slash in Base(p) ==> Base(p) == [Slash]
    ensures Base(p) == [Slash] <==> p != [] && forall i :: 0 <= i < |p| ==> p[i] == Slash
  {
    if p != [] {
      TrimSlashes(p);
      BaseOfTrimmed(p);
    }
  }

  lemma BaseOfTrimmed(p: Bytes)
    requires p != []
    ensures TrimRight(p, Slash) == [] ==> Base(p) == [Slash]
    ensures TrimRight(p, Slash) != [] ==> Base(p) != [] && Slash !in Base(p)
  {
    var t := TrimRight(p, Slash);
    if t != [] {
      LastElement(t);
    }
  }

  /** Trimming the trailing slashes leaves nothing exactly for a path of
      slashes only. */
  lemma TrimSlashes(p: Bytes)
    ensures TrimRight(p, Slash) == [] <==> forall i :: 0 <= i < |p| ==> p[i] == Slash
  {
    var t := TrimRight(p, Slash);
    if t != [] {
      assert p[|t| - 1] == t[|t| - 1] != Slash;
    }
  }

  /** After the last slash of a path that does not end in one there is a
      nonempty element without slashes. */
  lemma LastElement(t: Bytes)
    requires t != [] && t[|t| - 1] != Slash
    ensures var i := LastIndexByte(t, Slash);
      var last := if i >= 0 then t[i + 1..] else t;
      last != [] && Slash !in last
  {
  }

  /** The base name of a path ending in an element without slashes is that
      element, whatever precedes it. */
  lemma BaseOfLastElement(a: Bytes, b: Bytes)
    requires b != [] && Slash !in b
    ensures Base(a + [Slash] + b) == b
    ensures Base(b) == b
  {
    var p := a + [Slash] + b;
    assert p[|p| - 1] == b[|b| - 1];
    assert TrimRight(p, Slash) == p;
    var i := LastIndexByte(p, Slash);
    assert p[|a|] == Slash;
    assert i == |a|;
    assert p[|a| + 1..] == b;
    assert TrimRight(b, Slash) == b;
  }

  /** A single plain element with a trailing slash cleans to the element,
      and both have the element as their base name. */
  lemma CleanTrailingSlash(d: Bytes)
    requires d != [] && d != [Dot] && d != DotDot && Slash !in d
    ensures Clean(d + [Slash]) == d
    ensures Base(d + [Slash]) == d && Base(d) == d
  {
    var p := d + [Slash];
    SplitTrailingSlash(d);
    ResolvePlain(d);
    assert p[0] == d[0] != Slash;
    assert Join([d]) == d;
    BaseTrailingSlash(d);
  }

  lemma SplitTrailingSlash(d: Bytes)
    requires Slash !in d
    ensures Split(d + [Slash]) == [d, []]
  {
    var p := d + [Slash];
    assert p[|d|] == Slash && p[..|d|] == d && p[|d| + 1..] == [];
    assert LastIndexByte(p, Slash) == |d|;
  }

  lemma ResolvePlain(d: Bytes)
    requires d != [] && d != [Dot] && d != DotDot && Slash !in d
    ensures Resolve([d, []], false) == [d]
  {
    ResolveCanonical([d], false);
    assert [d, []][..1] == [d];
  }

  lemma BaseTrailingSlash(d: Bytes)
    requires d != [] && Slash !in d
    ensures Base(d + [Slash]) == d && Base(d) == d
  {
    var p := d + [Slash];
    assert p[..|p| - 1] == d;
    assert TrimRight(p, Slash) == d;
    BaseOfLastElement([], d);
  }

  /** The elements of a path: the byte strings between its slashes. */
  function Split(p: Bytes): (r: seq<Bytes>)
    ensures |r| >= 1
    ensures forall i :: 0 <= i < |r| ==> Slash !in r[i]
    decreases |p|
  {
    if Slash !in p then [p]
    else
      var i := LastIndexByte(p, Slash);
      Split(p[..i]) + [p[i + 1..]]
  }

  /** The elements joined with single slashes; the inverse of Split. */
  function Join(es: seq<Bytes>): (r: Bytes)
  {
    if |es| == 0 then []
    else if |es| == 1 then es[0]
    else Join(es[..|es| - 1]) + [Slash] + es[|es| - 1]
  }

  /** Splitting a joined list of slash-free elements gives the list back. */
  lemma {:induction false} SplitJoin(es: seq<Bytes>)
    requires |es| >= 1 && forall i :: 0 <= i < |es| ==> Slash !in es[i]
    ensures Split(Join(es)) == es
    decreases |es|
  {
    if |es| > 1 {
      var front := es[..|es| - 1];
      var last := es[|es| - 1];
      assert Join(es) == Join(front) + [Slash] + last;
      SplitLast(Join(front), last);
      SplitJoin(front);
    }
  }

  /** Split takes the element after the last slash off the end. */
  lemma SplitLast(a: Bytes, last: Bytes)
    requires Slash !in last
    ensures Split(a + [Slash] + last) == Split(a) + [last]
  {
    var p := a + [Slash] + last;
    assert p[|a|] == Slash;
    assert p[|a| + 1..] == last;
    LastSlashAt(a, last);
    assert p[..|a|] == a;
  }

  lemma LastSlashAt(a: Bytes, last: Bytes)
    requires Slash !in last
    ensures LastIndexByte(a + [Slash] + last, Slash) == |a|
  {
    var p := a + [Slash] + last;
    assert p[|a|] == Slash;
  }

  /** A list of elements as Clean leaves it: no empty, "." or slashed
      element, and ".." only in a leading run, and not at all in a rooted
      path. */
  predicate Canonical(es: seq<Bytes>, rooted: bool)
  {
    && (forall i :: 0 <= i < |es| ==> es[i] != [] && es[i] != [Dot] && Slash !in es[i])
    && (forall i, j :: 0 <= i < j < |es| && es[j] == DotDot ==> es[i] == DotDot)
    && (rooted ==> forall i :: 0 <= i < |es| ==> es[i] != DotDot)
  }

  /** One element of Clean's pass: skip empty and "." elements; let ".."
      remove the element before it, vanish at the root, or stay. */
  function Step(st: seq<Bytes>, e: Bytes, rooted: bool): (r: seq<Bytes>)
    requires Slash !in e && Canonical(st, rooted)
    ensures Canonical(r, rooted)
  {
    if e == [] || e == [Dot] then st
    else if e == DotDot then
      if |st| > 0 && st[|st| - 1] != DotDot then st[..|st| - 1]
      else if rooted then st
      else
        assert forall i :: 0 <= i < |st| ==> st[i] == DotDot by {
          if |st| > 0 {
            assert st[|st| - 1] == DotDot;
          }
        }
        st + [e]
    else st + [e]
  }

  /** The elements left after processing es from left to right. */
  function Resolve(es: seq<Bytes>, rooted: bool): (r: seq<Bytes>)
    requires forall i :: 0 <= i < |es| ==> Slash !in es[i]
    ensures Canonical(r, rooted)
    decreases |es|
  {
    if es == [] then []
    else Step(Resolve(es[..|es| - 1], rooted), es[|es| - 1], rooted)
  }

  /** path.Clean: the shortest path naming the same file by purely lexical
      processing; "." for an empty result. */
  function Clean(p: Bytes): (r: Bytes)
    ensures r != []
  {
    if p == [] then [Dot]
    else
      var rooted := p[0] == Slash;
      var body := Join(Resolve(Split(p), rooted));
      var r := if rooted then [Slash] + body else body;
      if r == [] then [Dot] else r
  }

  /** Processing a canonical list changes nothing. */
  lemma {:induction false} ResolveCanonical(es: seq<Bytes>, rooted: bool)
    requires Canonical(es, rooted)
    ensures Resolve(es, rooted) == es
    decreases |es|
  {
    if es != [] {
      var front := es[..|es| - 1];
      assert Canonical(front, rooted);
      ResolveCanonical(front, rooted);
      var e := es[|es| - 1];
      if e == DotDot {
        assert forall i :: 0 <= i < |front| ==> front[i] == DotDot;
      }
      assert front + [e] == es;
    }
  }

  /** Processing an empty element first changes nothing: a rooted path
      splits into "" and then its elements. */
  lemma {:induction false} ResolveLeadingEmpty(es: seq<Bytes>, rooted: bool)
    requires forall i :: 0 <= i < |es| ==> Slash !in es[i]
    ensures Resolve([[]] + es, rooted) == Resolve(es, rooted)
    decreases |es|
  {
    var les: seq<Bytes> := [[]] + es;
    if es == [] {
      assert les[..0] == [];
    } else {
      var n := |es|;
      var front := es[..n - 1];
      assert les[..n] == [[]] + front;
      assert les[n] == es[n - 1];
      ResolveLeadingEmpty(front, rooted);
      assert Resolve(les, rooted) == Step(Resolve([[]] + front, rooted), es[n - 1], rooted);
    }
  }

  /** Clean is idempotent: a cleaned path is already clean. */
  lemma CleanIdempotent(p: Bytes)
    ensures Clean(Clean(p)) == Clean(p)
  {
    if p != [] {
      var rooted := p[0] == Slash;
      var st := Resolve(Split(p), rooted);
      var body := Join(st);
      if st == [] {
        if rooted {
          assert Clean(p) == [Slash];
          assert Split([Slash]) == [[], []] by {
            assert LastIndexByte([Slash], Slash) == 0;
          }
          assert Resolve([[], []], true) == [];
        } else {
          assert Clean(p) == [Dot];
          assert Split([Dot]) == [[Dot]];
          assert Resolve([[Dot]], false) == [];
        }
      } else {
        SplitJoin(st);
        ResolveCanonical(st, rooted);
        JoinNonEmpty(st);
        if rooted {
          CleanRooted(st);
        } else {
          assert Clean(p) == body;
          assert body[0] != Slash by { JoinFirst(st); }
        }
      }
    }
  }

  lemma CleanRooted(st: seq<Bytes>)
    requires st != [] && Canonical(st, true)
    ensures Clean([Slash] + Join(st)) == [Slash] + Join(st)
  {
    var body := Join(st);
    var q := [Slash] + body;
    SplitJoin([[]] + st);
    JoinCons(st);
    assert Join([[]] + st) == q;
    ResolveLeadingEmpty(st, true);
    ResolveCanonical(st, true);
  }

  /** Joining nonempty elements gives a nonempty path. */
  lemma {:induction false} JoinNonEmpty(es: seq<Bytes>)
    requires es != [] && es[0] != []
    ensures Join(es) != []
    decreases |es|
  {
    if |es| > 1 {
      JoinNonEmpty(es[..|es| - 1]);
    }
  }

  /** A joined path starts with the first byte of its first element. */
  lemma {:induction false} JoinFirst(es: seq<Bytes>)
    requires es != [] && es[0] != []
    ensures Join(es) != [] && Join(es)[0] == es[0][0]
    decreases |es|
  {
    if |es| > 1 {
      JoinFirst(es[..|es| - 1]);
    }
  }

  /** Putting an empty element in front of a list puts a slash in front of
      its join. */
  lemma {:induction false} JoinCons(es: seq<Bytes>)
    requires es != []
    ensures Join([[]] + es) == [Slash] + Join(es)
    decreases |es|
  {
    if |es| > 1 {
      var front := es[..|es| - 1];
      assert ([[]] + es)[..|es|] == [[]] + front;
      JoinCons(front);
    }
  }
}
