/** For which trees of dependencies the walk of ups/ao_elflib.c comes to every library: exactly when, in the order by
  * depth and then from left to right, every library is found from the one before it.
  */
module WalkComplete {

  import opened Wrappers
  import opened LibraryWalk

  // ---------------------------------------------------------------- the order is total

  /** The first number in which two ways down differ. */
  ghost predicate Differ(p: Path, q: Path, k: nat) {
    |p| == |q| && k < |p| && p[..k] == q[..k] && p[k] != q[k]
  }

  lemma DifferOnce(p: Path, q: Path, i: nat, j: nat)
    requires Differ(p, q, i) && Differ(p, q, j)
    ensures i == j
  {
    assert forall k :: 0 <= k < j ==> p[k] == p[..j][k] && q[k] == q[..j][k];
    assert forall k :: 0 <= k < i ==> p[k] == p[..i][k] && q[k] == q[..i][k];
  }

  lemma {:induction false} FirstDifference(p: Path, q: Path) returns (k: nat)
    requires |p| == |q| && p != q
    ensures Differ(p, q, k)
    decreases |p|
  {
    if p[0] != q[0] {
      k := 0;
    } else {
      assert p == [p[0]] + p[1..] && q == [q[0]] + q[1..];
      var j := FirstDifference(p[1..], q[1..]);
      assert p[..j + 1] == [p[0]] + p[1..][..j] && q[..j + 1] == [q[0]] + q[1..][..j];
      k := j + 1;
    }
  }

  lemma LeftTotal(p: Path, q: Path)
    requires |p| == |q| && p != q
    ensures Left(p, q) || Left(q, p)
  {
    var k := FirstDifference(p, q);
    if p[k] < q[k] { IsLeft(p, q, k); } else { IsLeft(q, p, k); }
  }

  lemma NotBoth(p: Path, q: Path)
    requires Left(p, q)
    ensures !Left(q, p) && p != q
  {
    if Left(q, p) {
      LeftTransitive(p, q, p);
      NotLater(p);
    }
  }

  /** Where `p` is left of `q` is where they first differ. */
  lemma LeftAt(p: Path, q: Path, k: nat)
    requires Left(p, q) && Differ(p, q, k)
    ensures p[k] < q[k]
  {
    var j :| 0 <= j < |p| && p[..j] == q[..j] && p[j] < q[j];
    DifferOnce(p, q, j, k);
  }

  /** A finite set of ways down of one length has a leftmost one. */
  lemma {:induction false} Least(s: set<Path>, d: nat) returns (p: Path)
    requires s != {} && forall q :: q in s ==> |q| == d
    ensures p in s && forall q :: q in s ==> q == p || Left(p, q)
    decreases |s|
  {
    var x :| x in s;
    if s == {x} {
      p := x;
    } else {
      assert s == {x} + (s - {x});
      var y := Least(s - {x}, d);
      LeftTotal(x, y);
      if Left(x, y) {
        forall q | q in s && q != x ensures Left(x, q) { if q != y { LeftTransitive(x, y, q); } }
        p := x;
      } else {
        p := y;
      }
    }
  }

  // ---------------------------------------------------------------- what the tree must look like

  /** `v` comes next after `u` at their depth. */
  ghost predicate Consecutive(f: seq<Library>, u: Path, v: Path) {
    && Has(f, u) && Has(f, v) && Left(u, v)
    && forall q :: Has(f, q) && Left(u, q) ==> q == v || Left(v, q)
  }

  /** `z` is the last of its depth. */
  ghost predicate Rightmost(f: seq<Library>, z: Path) {
    Has(f, z) && forall q :: Has(f, q) ==> !Left(z, q)
  }

  /** Neighbours of one depth are under neighbouring siblings. */
  ghost predicate NoGaps(f: seq<Library>) {
    forall u, v, k: nat :: Consecutive(f, u, v) && Differ(u, v, k) ==> v[k] == u[k] + 1
  }

  /** The first of a depth is under the parent of the last of the depth above, or under that one itself at the top. */
  ghost predicate UnderLast(z: Path, w: Path)
    requires 0 < |z| < |w|
  {
    if |z| == 1 then w[..1] == z else w[..|z| - 1] == z[..|z| - 1]
  }

  ghost predicate DepthsJoin(f: seq<Library>) {
    forall z, w :: Rightmost(f, z) && Leftmost(f, w) && |w| == |z| + 1 ==> UnderLast(z, w)
  }

  // ---------------------------------------------------------------- one step

  /** A step that stays at its depth goes to the next sibling of an ancestor, or of the library itself. */
  lemma {:induction false} AroundNext(f: seq<Library>, cur: Path, n: nat) returns (k: nat)
    requires n < |cur| && Around(f, cur[..n], |cur| - n - 1).Some?
    ensures var r := Around(f, cur[..n], |cur| - n - 1).value;
            k < n && |r| == |cur| && r[..k] == cur[..k] && r[k] == cur[k] + 1
    decreases n
  {
    k := 0;
    if n > 0 {
      AroundLeft(f, cur, n);
      if Under(f, cur[..n], |cur| - n - 1).Some? {
        k := n - 1;
        var s := Sibling(cur[..n]);
        FirstBelowIs(At(f, s), |cur| - n - 1);
        var q := FirstBelow(At(f, s), |cur| - n - 1).value;
        assert (s + q)[..k] == cur[..k];
      } else {
        assert Parent(cur[..n]) == cur[..n - 1];
        k := AroundNext(f, cur, n - 1);
      }
    }
  }

  /** Nothing lies below the gap before `v`, so that the loop goes up until it finds `v`. */
  lemma {:induction false} AroundFinds(f: seq<Library>, u: Path, v: Path, k: nat, n: nat)
    requires Consecutive(f, u, v) && Differ(u, v, k) && v[k] == u[k] + 1 && k < n < |u|
    ensures Around(f, u[..n], |u| - n - 1) == Some(v)
    decreases n
  {
    var level := |u| - n - 1;
    if n == k + 1 {
      UnderFinds(f, u, v, k);
    } else {
      if Under(f, u[..n], level).Some? {
        UnderLeft(f, u, n);
        BeforeNext(f, u, v, k, n);
      }
      assert Parent(u[..n]) == u[..n - 1];
      AroundFinds(f, u, v, k, n - 1);
    }
  }

  lemma SiblingOf(u: Path, v: Path, k: nat)
    requires Differ(u, v, k) && v[k] == u[k] + 1
    ensures Sibling(u[..k + 1]) == v[..k + 1] && v == v[..k + 1] + v[k + 1..]
  {
    assert u[..k + 1][..k] == u[..k] && v[..k + 1] == v[..k] + [v[k]];
  }

  lemma UnderFinds(f: seq<Library>, u: Path, v: Path, k: nat)
    requires Consecutive(f, u, v) && Differ(u, v, k) && v[k] == u[k] + 1 && k + 1 < |u|
    ensures Under(f, u[..k + 1], |u| - k - 2) == Some(v)
  {
    var s, t, level := v[..k + 1], v[k + 1..], |u| - k - 2;
    SiblingOf(u, v, k);
    HasAbove(f, v, k + 1);
    HasBelow(f, s, t);
    FirstBelowIs(At(f, s), level);
    var q := FirstBelow(At(f, s), level).value;
    UnderLeft(f, u, k + 1);
    if q != t {
      LeftPrefixed(s, q, t);
      NotBoth(s + q, v);
    }
  }

  lemma LeftPrefixed(s: Path, p: Path, q: Path)
    requires Left(p, q)
    ensures Left(s + p, s + q)
  {
    var k :| 0 <= k < |p| && p[..k] == q[..k] && p[k] < q[k];
    assert (s + p)[..|s| + k] == s + p[..k] && (s + q)[..|s| + k] == s + q[..k];
    IsLeft(s + p, s + q, |s| + k);
  }

  /** What is found below the gap would stand between `u` and `v`. */
  lemma BeforeNext(f: seq<Library>, u: Path, v: Path, k: nat, n: nat)
    requires Consecutive(f, u, v) && Differ(u, v, k) && k + 1 < n < |u|
    ensures Under(f, u[..n], |u| - n - 1).None?
  {
    var level := |u| - n - 1;
    if Under(f, u[..n], level).Some? {
      UnderLeft(f, u, n);
      var s := Sibling(u[..n]);
      FirstBelowIs(At(f, s), level);
      var r := Under(f, u[..n], level).value;
      assert r[..k] == u[..k] && r[k] == u[k];
      LeftAt(u, v, k);
      IsLeft(r, v, k);
      NotBoth(r, v);
    }
  }

  /** Of two neighbours of one depth the second is found from the first exactly when it is under the next sibling. */
  lemma StepAcross(f: seq<Library>, u: Path, v: Path, k: nat)
    requires Consecutive(f, u, v) && Differ(u, v, k)
    ensures NextLd(f, u) == Some(v) <==> v[k] == u[k] + 1
  {
    if v[k] == u[k] + 1 {
      FoundAcross(f, u, v, k);
    } else if NextLd(f, u) == Some(v) {
      AcrossIsNext(f, u, v, k);
    }
  }

  lemma FoundAcross(f: seq<Library>, u: Path, v: Path, k: nat)
    requires Consecutive(f, u, v) && Differ(u, v, k) && v[k] == u[k] + 1
    ensures NextLd(f, u) == Some(v)
  {
    var n := |u| - 1;
    if k == n {
      assert u[..k + 1] == u && v[..k + 1] == v;
      SiblingOf(u, v, k);
    } else {
      NoSibling(f, u, v, k);
      AroundFinds(f, u, v, k, n);
    }
  }

  lemma NoSibling(f: seq<Library>, u: Path, v: Path, k: nat)
    requires Consecutive(f, u, v) && Differ(u, v, k) && k < |u| - 1
    ensures !Has(f, Sibling(u))
  {
    if Has(f, Sibling(u)) {
      var s := Sibling(u);
      IsLeft(u, s, |u| - 1);
      assert s[..k] == u[..k] && s[k] == u[k];
      LeftAt(u, v, k);
      IsLeft(s, v, k);
      NotBoth(s, v);
    }
  }

  lemma AcrossIsNext(f: seq<Library>, u: Path, v: Path, k: nat)
    requires Has(f, u) && NextLd(f, u) == Some(v) && Differ(u, v, k)
    ensures v[k] == u[k] + 1
  {
    var n := |u| - 1;
    if Has(f, Sibling(u)) {
      assert Differ(u, v, n);
      DifferOnce(u, v, k, n);
    } else if n > 0 {
      if Around(f, Parent(u), 0).Some? {
        var j := AroundNext(f, u, n);
        DifferOnce(u, v, k, j);
      } else {
        HasAbove(f, u, n);
        FirstBelowIs(At(f, Parent(u)), 1);
      }
    }
  }

  /** From the last of a depth the walk goes on below its parent, or at the top below itself. */
  lemma StepDown(f: seq<Library>, z: Path, w: Path)
    requires Rightmost(f, z) && Leftmost(f, w) && |w| == |z| + 1
    ensures NextLd(f, z) == Some(w) <==> UnderLast(z, w)
  {
    NothingAcross(f, z);
    if |z| == 1 { StepDownTop(f, z, w); } else { StepDownBelow(f, z, w); }
  }

  lemma NothingAcross(f: seq<Library>, z: Path)
    requires Rightmost(f, z)
    ensures !Has(f, Sibling(z)) && (|z| > 1 ==> Around(f, Parent(z), 0).None?)
  {
    var n := |z| - 1;
    if Has(f, Sibling(z)) { IsLeft(z, Sibling(z), n); }
    if n > 0 && Around(f, Parent(z), 0).Some? { AroundLeft(f, z, n); }
  }

  /** The leftmost of a depth begins the part of the depth that is below `p`. */
  lemma LeftmostBelow(f: seq<Library>, w: Path, p: Path, r: Path)
    requires Leftmost(f, w) && Has(f, p) && |w| == |p| + |r| && w[..|p|] == p && Leftmost(At(f, p).deps, r)
    ensures w == p + r
  {
    var t := w[|p|..];
    assert w == p + t;
    HasBelow(f, p, t);
    HasBelow(f, p, r);
    if t != r {
      LeftPrefixed(p, r, t);
      NotBoth(p + r, w);
    }
  }

  lemma StepDownTop(f: seq<Library>, z: Path, w: Path)
    requires Rightmost(f, z) && Leftmost(f, w) && |w| == |z| + 1 && |z| == 1 && !Has(f, Sibling(z))
    ensures NextLd(f, z) == Some(w) <==> UnderLast(z, w)
  {
    if UnderLast(z, w) {
      assert w == w[..1] + w[1..];
      HasBelow(f, z, w[1..]);
      FirstBelowIs(At(f, z), 0);
      LeftmostBelow(f, w, z, [0]);
    }
  }

  lemma StepDownBelow(f: seq<Library>, z: Path, w: Path)
    requires Rightmost(f, z) && Leftmost(f, w) && |w| == |z| + 1 && |z| > 1
    requires !Has(f, Sibling(z)) && Around(f, Parent(z), 0).None?
    ensures NextLd(f, z) == Some(w) <==> UnderLast(z, w)
  {
    var p := Parent(z);
    HasAbove(f, z, |z| - 1);
    FirstBelowIs(At(f, p), 1);
    if UnderLast(z, w) {
      assert w[..|p|] == p;
      assert w == w[..|p|] + w[|p|..];
      HasBelow(f, p, w[|p|..]);
      LeftmostBelow(f, w, p, FirstBelow(At(f, p), 1).value);
    }
  }

  // ---------------------------------------------------------------- every step

  /** The step from `u` misses nothing: it ends the walk only at the end, and skips no library. */
  ghost predicate Immediate(f: seq<Library>, u: Path)
    requires Has(f, u)
  {
    forall q :: Has(f, q) && Later(u, q) ==>
      NextLd(f, u).Some? && (q == NextLd(f, u).value || Later(NextLd(f, u).value, q))
  }

  /** The library after `u` at its depth, if `u` is not the last. */
  lemma NextAtDepth(f: seq<Library>, u: Path, q: Path) returns (v: Path)
    requires Has(f, u) && Has(f, q) && Left(u, q)
    ensures Consecutive(f, u, v)
  {
    var s := set p | p in All(f) && Left(u, p);
    assert q in s;
    v := Least(s, |u|);
  }

  lemma FirstAtDepth(f: seq<Library>, q: Path) returns (w: Path)
    requires Has(f, q)
    ensures Leftmost(f, w) && |w| == |q|
  {
    var s := set p | p in All(f) && |p| == |q|;
    assert q in s;
    w := Least(s, |q|);
  }

  lemma ShapeMakesImmediate(f: seq<Library>, u: Path)
    requires NoGaps(f) && DepthsJoin(f) && Has(f, u)
    ensures Immediate(f, u)
  {
    forall q | Has(f, q) && Later(u, q)
      ensures NextLd(f, u).Some? && (q == NextLd(f, u).value || Later(NextLd(f, u).value, q))
    {
      if x :| Has(f, x) && Left(u, x) {
        var v := NextAtDepth(f, u, x);
        NotBoth(u, v);
        var k := FirstDifference(u, v);
        StepAcross(f, u, v, k);
      } else {
        HasAbove(f, q, |u| + 1);
        var w := FirstAtDepth(f, q[..|u| + 1]);
        StepDown(f, u, w);
      }
    }
  }

  lemma ImmediateIs(f: seq<Library>, u: Path, v: Path)
    requires Has(f, u) && Immediate(f, u) && Has(f, v) && Later(u, v)
    requires forall q :: Has(f, q) && Later(u, q) ==> q == v || Later(v, q)
    ensures NextLd(f, u) == Some(v)
  {
    NextIsLater(f, u);
    var x := NextLd(f, u).value;
    if x != v {
      LaterTransitive(x, v, x);
      NotLater(x);
    }
  }

  lemma ImmediateMakesShape(f: seq<Library>)
    requires forall u :: Has(f, u) ==> Immediate(f, u)
    ensures NoGaps(f) && DepthsJoin(f)
  {
    forall u, v, k: nat | Consecutive(f, u, v) && Differ(u, v, k) ensures v[k] == u[k] + 1 {
      ImmediateIs(f, u, v);
      StepAcross(f, u, v, k);
    }
    forall z, w | Rightmost(f, z) && Leftmost(f, w) && |w| == |z| + 1 ensures UnderLast(z, w) {
      ImmediateIs(f, z, w);
      StepDown(f, z, w);
    }
  }

  // ---------------------------------------------------------------- the whole walk

  /** Repeating `next` from `p` comes to `q` after `n` steps. */
  ghost predicate ComesTo<T(!new)>(next: T -> Option<T>, p: T, q: T, n: nat)
    decreases n
  {
    if n == 0 then p == q else next(p).Some? && ComesTo(next, next(p).value, q, n - 1)
  }

  /** Every step goes forward in an order. */
  ghost predicate Forwards<T(!new)>(next: T -> Option<T>, later: (T, T) -> bool) {
    && (forall p :: !later(p, p))
    && (forall p, q, r :: later(p, q) && later(q, r) ==> later(p, r))
    && (forall p :: next(p).Some? ==> later(p, next(p).value))
  }

  lemma {:induction false} ComesToLater<T(!new)>(next: T -> Option<T>, later: (T, T) -> bool, p: T, q: T, n: nat)
    requires Forwards(next, later) && ComesTo(next, p, q, n)
    ensures n > 0 ==> later(p, q)
    decreases n
  {
    if n > 0 { ComesToLater(next, later, next(p).value, q, n - 1); }
  }

  /** A walk that comes to `u` and to a later `q` comes to `q` from `u`. */
  lemma {:induction false} ComesOn<T(!new)>(next: T -> Option<T>, later: (T, T) -> bool, p: T, u: T, q: T, n: nat,
                                             m: nat)
    requires Forwards(next, later) && ComesTo(next, p, u, n) && ComesTo(next, p, q, m) && later(u, q)
    ensures n < m && ComesTo(next, u, q, m - n)
    decreases n
  {
    if n > 0 {
      ComesToLater(next, later, p, u, n);
      if m > 0 { ComesOn(next, later, next(p).value, u, q, n - 1, m - 1); }
    }
  }

  /** The step of the walk, from any way down. */
  function Next(f: seq<Library>): Path -> Option<Path> {
    p => if Has(f, p) then NextLd(f, p) else None
  }

  ghost function LaterBy(): (Path, Path) -> bool { (p, q) => Later(p, q) }

  lemma WalkForwards(f: seq<Library>)
    ensures Forwards(Next(f), LaterBy())
  {
    var next, later := Next(f), LaterBy();
    forall p ensures !later(p, p) { NotLater(p); }
    forall p, q, r | later(p, q) && later(q, r) ensures later(p, r) { LaterTransitive(p, q, r); }
    forall p | next(p).Some? ensures later(p, next(p).value) { NextIsLater(f, p); }
  }

  /** The walk from the first library comes to all. */
  ghost predicate Complete(f: seq<Library>) {
    forall q :: Has(f, q) ==> exists n: nat :: ComesTo(Next(f), [0], q, n)
  }

  /** The step from a library that is not the last. */
  lemma ImmediateStep(f: seq<Library>, p: Path, q: Path) returns (x: Path)
    requires Has(f, p) && Immediate(f, p) && Has(f, q) && Later(p, q)
    ensures Next(f)(p) == Some(x) && Has(f, x) && (x == q || Later(x, q)) && |Ahead(f, x)| < |Ahead(f, p)|
  {
    x := NextLd(f, p).value;
    AheadShrinks(f, p);
  }

  /** Steps that never pass `q` and come ever closer to the end come to it. */
  lemma {:induction false} ClosingIn<T(!new)>(next: T -> Option<T>, size: T -> nat, before: T -> bool, p: T,
                                               q: T) returns (n: nat)
    requires forall x :: before(x) ==>
               next(x).Some? && (next(x).value == q || before(next(x).value)) && size(next(x).value) < size(x)
    requires p == q || before(p)
    ensures ComesTo(next, p, q, n)
    decreases size(p)
  {
    if p == q {
      n := 0;
    } else {
      var m := ClosingIn(next, size, before, next(p).value, q);
      n := m + 1;
    }
  }

  lemma ImmediateComesTo(f: seq<Library>, p: Path, q: Path) returns (n: nat)
    requires (forall u :: Has(f, u) ==> Immediate(f, u)) && Has(f, p) && Has(f, q) && (p == q || Later(p, q))
    ensures ComesTo(Next(f), p, q, n)
  {
    var size: Path -> nat := x => |Ahead(f, x)|;
    var before: Path -> bool := x => Has(f, x) && Later(x, q);
    forall x | before(x)
      ensures Next(f)(x).Some? && (Next(f)(x).value == q || before(Next(f)(x).value))
              && size(Next(f)(x).value) < size(x)
    {
      var y := ImmediateStep(f, x, q);
    }
    n := ClosingIn(Next(f), size, before, p, q);
  }

  lemma CompleteMakesImmediate(f: seq<Library>, u: Path)
    requires Complete(f) && Has(f, u)
    ensures Immediate(f, u)
  {
    forall q | Has(f, q) && Later(u, q)
      ensures NextLd(f, u).Some? && (q == NextLd(f, u).value || Later(NextLd(f, u).value, q))
    {
      CompleteStep(f, u, q);
    }
  }

  lemma CompleteStep(f: seq<Library>, u: Path, q: Path)
    requires Complete(f) && Has(f, u) && Has(f, q) && Later(u, q)
    ensures Next(f)(u).Some? && (q == Next(f)(u).value || Later(Next(f)(u).value, q))
  {
    var next, later := Next(f), LaterBy();
    WalkForwards(f);
    var n: nat :| ComesTo(next, [0], u, n);
    var m: nat :| ComesTo(next, [0], q, m);
    ComesOn(next, later, [0], u, q, n, m);
    ComesToLater(next, later, next(u).value, q, m - n - 1);
  }

  lemma FirstOfAll(f: seq<Library>, q: Path)
    requires Has(f, q)
    ensures q == [0] || Later([0], q)
  {
    if |q| == 1 && q != [0] {
      assert q == [q[0]];
      IsLeft([0], q, 0);
    }
  }

  /** The walk from the first library comes to every library if and only if neighbours of one depth are under
    * neighbouring siblings, and every depth begins where the walk goes on from the end of the depth above.
    */
  lemma CompleteIff(f: seq<Library>)
    requires f != []
    ensures Complete(f) <==> NoGaps(f) && DepthsJoin(f)
  {
    if Complete(f) {
      forall u | Has(f, u) ensures Immediate(f, u) { CompleteMakesImmediate(f, u); }
      ImmediateMakesShape(f);
    }
    if NoGaps(f) && DepthsJoin(f) {
      forall u | Has(f, u) ensures Immediate(f, u) { ShapeMakesImmediate(f, u); }
      forall q | Has(f, q) ensures exists n: nat :: ComesTo(Next(f), [0], q, n) {
        FirstOfAll(f, q);
        var n := ImmediateComesTo(f, [0], q);
      }
    }
  }
}
