/**
 * Go's `path.Clean` and two-argument `path.Join`, on rooted paths (the only
 * kind the generator composes: the context path always starts with `/`).
 * Cleaning is lexical: repeated `/` collapse, `.` segments vanish, `..`
 * removes the segment before it and is dropped at the root, and no `/` is
 * left at the end except for the root itself.
 */
module Paths {
  import opened Strings

  predicate IsRooted(p: string) { |p| > 0 && p[0] == '/' }

  /** A segment that a clean path may hold between two slashes. */
  predicate IsSegment(seg: string)
  {
    seg != "" && seg != "." && seg != ".." && '/' !in seg
  }

  /**
   * A clean rooted path: the root itself, or `/` followed by segments joined
   * by single slashes, none of them empty, `.` or `..`.
   */
  predicate IsClean(p: string)
  {
    p == "/" || (IsRooted(p) && forall seg :: seg in Split(p[1..], '/') ==> IsSegment(seg))
  }

  /** One lexical step of cleaning: how a segment acts on the segments kept so far. */
  function Step(kept: seq<string>, seg: string): seq<string>
  {
    if seg == "" || seg == "." then kept
    else if seg == ".." then (if kept == [] then [] else kept[..|kept| - 1])
    else kept + [seg]
  }

  /** The segments kept after reading `segs` from left to right. */
  function Resolve(kept: seq<string>, segs: seq<string>): seq<string>
    decreases |segs|
  {
    if segs == [] then kept else Resolve(Step(kept, segs[0]), segs[1..])
  }

  /** `path.Clean` on a rooted path. */
  function Clean(p: string): (r: string)
    requires IsRooted(p)
    ensures IsClean(r)
  {
    var segs := Split(p[1..], '/');
    var kept := Resolve([], segs);
    SplitPiecesLack(p[1..], '/');
    ResolveKeepsSegments([], segs);
    JoinedIsClean(kept);
    "/" + JoinWith(kept, '/')
  }

  /** Proper segments joined under the root form a clean path. */
  lemma JoinedIsClean(kept: seq<string>)
    requires forall k :: 0 <= k < |kept| ==> IsSegment(kept[k])
    ensures IsClean("/" + JoinWith(kept, '/'))
  {
    if kept != [] {
      SplitJoin(kept, '/');
      assert ("/" + JoinWith(kept, '/'))[1..] == JoinWith(kept, '/');
      forall seg | seg in kept ensures IsSegment(seg) {
        var k :| 0 <= k < |kept| && kept[k] == seg;
      }
    }
  }

  /** `path.Join(base, p)` for a rooted `base`: the two joined by `/`, then cleaned. */
  function Join(base: string, p: string): (r: string)
    requires IsRooted(base)
    ensures IsClean(r)
  {
    Clean(base + "/" + p)
  }

  /** Cleaning keeps only proper segments, given pieces without slashes. */
  lemma {:induction false} ResolveKeepsSegments(kept: seq<string>, segs: seq<string>)
    requires forall k :: 0 <= k < |kept| ==> IsSegment(kept[k])
    requires forall k :: 0 <= k < |segs| ==> '/' !in segs[k]
    ensures forall k :: 0 <= k < |Resolve(kept, segs)| ==> IsSegment(Resolve(kept, segs)[k])
    decreases |segs|
  {
    if segs != [] {
      ResolveKeepsSegments(Step(kept, segs[0]), segs[1..]);
    }
  }

  /** Reading segments in two batches is reading them all at once. */
  lemma {:induction false} ResolveAppend(kept: seq<string>, xs: seq<string>, ys: seq<string>)
    ensures Resolve(kept, xs + ys) == Resolve(Resolve(kept, xs), ys)
    decreases |xs|
  {
    if xs != [] {
      assert (xs + ys)[0] == xs[0];
      assert (xs + ys)[1..] == xs[1..] + ys;
      ResolveAppend(Step(kept, xs[0]), xs[1..], ys);
    } else {
      assert xs + ys == ys;
    }
  }

  /** Proper segments are all kept, in order. */
  lemma {:induction false} ResolveSegments(kept: seq<string>, segs: seq<string>)
    requires forall k :: 0 <= k < |segs| ==> IsSegment(segs[k])
    ensures Resolve(kept, segs) == kept + segs
    decreases |segs|
  {
    if segs != [] {
      ResolveSegments(kept + [segs[0]], segs[1..]);
      assert kept + [segs[0]] + segs[1..] == kept + segs;
    }
  }

  /** The segments of a clean path, as Clean reads them, are kept unchanged. */
  lemma CleanSegments(q: string)
    requires IsClean(q)
    ensures Resolve([], Split(q[1..], '/')) == (if q == "/" then [] else Split(q[1..], '/'))
  {
    if q == "/" {
      assert q[1..] == "";
    } else {
      var segs := Split(q[1..], '/');
      forall k | 0 <= k < |segs| ensures IsSegment(segs[k]) {
        assert segs[k] in segs;
      }
      ResolveSegments([], segs);
    }
  }

  /** Cleaning is idempotent: a clean path is its own cleaning. */
  lemma CleanFixesClean(q: string)
    requires IsClean(q)
    ensures Clean(q) == q
  {
    CleanSegments(q);
    if q != "/" {
      JoinSplit(q[1..], '/');
      assert q == "/" + q[1..];
    }
  }

  /** Cleaning twice is cleaning once. */
  lemma CleanIdempotent(p: string)
    requires IsRooted(p)
    ensures Clean(Clean(p)) == Clean(p)
  {
    CleanFixesClean(Clean(p));
  }

  /** The segments of `base + "/" + p` are those of `base` followed by those of `p`. */
  lemma JoinSegments(base: string, p: string)
    requires IsRooted(base)
    ensures Resolve([], Split((base + "/" + p)[1..], '/'))
         == Resolve(Resolve([], Split(base[1..], '/')), Split(p, '/'))
  {
    assert (base + "/" + p)[1..] == base[1..] + ['/'] + p;
    SplitAppend(base[1..], p, '/');
    ResolveAppend([], Split(base[1..], '/'), Split(p, '/'));
  }

  /** A rooted path splits into an empty piece, then the pieces after the root. */
  lemma SplitRooted(q: string)
    requires IsRooted(q)
    ensures Split(q, '/') == [""] + Split(q[1..], '/')
  {
    assert q == [] + ['/'] + q[1..];
    SplitAppend([], q[1..], '/');
  }

  /** The segments Clean keeps for `base + "/" + q`, when both are clean. */
  lemma JoinCleanSegments(base: string, q: string)
    requires IsClean(base) && IsClean(q) && q != "/"
    ensures Resolve([], Split((base + "/" + q)[1..], '/'))
         == (if base == "/" then [] else Split(base[1..], '/')) + Split(q[1..], '/')
  {
    JoinSegments(base, q);
    CleanSegments(base);
    var b := Resolve([], Split(base[1..], '/'));
    var qs := Split(q[1..], '/');
    SplitRooted(q);
    assert Resolve(b, [""] + qs) == Resolve(b, qs) by {
      assert ([""] + qs)[0] == "" && ([""] + qs)[1..] == qs;
    }
    forall k | 0 <= k < |qs| ensures IsSegment(qs[k]) { assert qs[k] in qs; }
    ResolveSegments(b, qs);
  }

  /**
   * Joining a clean base with a clean rooted path appends it: `/api/users`
   * with `/all` gives `/api/users/all`, and the root base gives the path itself.
   */
  lemma JoinClean(base: string, q: string)
    requires IsClean(base) && IsClean(q) && q != "/"
    ensures Join(base, q) == (if base == "/" then q else base + q)
  {
    var joined := base + "/" + q;
    var all := Resolve([], Split(joined[1..], '/'));
    assert Join(base, q) == "/" + JoinWith(all, '/');
    JoinCleanSegments(base, q);
    if base != "/" {
      assert all == Split(base[1..], '/') + Split(q[1..], '/');
      JoinPieces(base, q);
    } else {
      assert all == Split(q[1..], '/');
      JoinSplit(q[1..], '/');
      assert "/" + q[1..] == q;
    }
  }

  /** The pieces of two rooted paths, joined under the root, spell the two paths one after the other. */
  lemma JoinPieces(base: string, q: string)
    requires IsRooted(base) && IsRooted(q)
    ensures "/" + JoinWith(Split(base[1..], '/') + Split(q[1..], '/'), '/') == base + q
  {
    var b := Split(base[1..], '/');
    var qs := Split(q[1..], '/');
    var jb := JoinWith(b, '/');
    var jq := JoinWith(qs, '/');
    assert jb == base[1..] by { JoinSplit(base[1..], '/'); }
    assert jq == q[1..] by { JoinSplit(q[1..], '/'); }
    assert JoinWith(b + qs, '/') == jb + ['/'] + jq by { JoinAppend(b, qs, '/'); }
    RootedConcat(base, q);
  }

  /** Two rooted paths, glued by one slash after the first root, spell the two paths one after the other. */
  lemma RootedConcat(base: string, q: string)
    requires IsRooted(base) && IsRooted(q)
    ensures "/" + (base[1..] + ['/'] + q[1..]) == base + q
  {
    assert base == "/" + base[1..];
    assert q == "/" + q[1..];
  }

  /**
   * Joining a clean base with the root path, or with nothing, gives the base
   * back: a route declared as `path="/"` sits exactly at its controller's base.
   */
  lemma JoinRoot(base: string)
    requires IsClean(base)
    ensures Join(base, "/") == base
    ensures Join(base, "") == base
  {
    var b := Resolve([], Split(base[1..], '/'));
    CleanSegments(base);
    CleanFixesClean(base);
    JoinSegments(base, "/");
    JoinSegments(base, "");
    assert "/" == "" + ['/'] + "";
    SplitAppend("", "", '/');
    assert Split("/", '/') == ["", ""];
    assert Split("", '/') == [""];
    assert Resolve(b, ["", ""]) == b;
    assert Resolve(b, [""]) == b;
  }

  /** Rooted paths keep their root when normalised, and the root is clean. */
  lemma RootIsClean()
    ensures IsClean("/") && Clean("/") == "/"
  {
    CleanFixesClean("/");
  }
}
