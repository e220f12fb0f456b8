/** The walk over the tree of library dependencies without a stack (ups/ao_elflib.c). A library is named by the
  * numbers of its ancestors and itself in their lists of dependencies.
  */
module LibraryWalk {
  import opened Wrappers

  datatype Library = Library(deps: seq<Library>)

  type Path = seq<nat>

  predicate Has(f: seq<Library>, p: Path) {
    |p| > 0 && p[0] < |f| && (|p| == 1 || Has(f[p[0]].deps, p[1..]))
  }

  function At(f: seq<Library>, p: Path): (l: Library)
    requires Has(f, p)
    decreases |p|
  {
    if |p| == 1 then f[p[0]] else At(f[p[0]].deps, p[1..])
  }

  lemma {:induction false} HasBelow(f: seq<Library>, p: Path, q: Path)
    requires Has(f, p) && q != []
    ensures Has(f, p + q) <==> Has(At(f, p).deps, q)
    ensures Has(f, p + q) ==> At(f, p + q) == At(At(f, p).deps, q)
    decreases |p|
  {
    assert (p + q)[1..] == p[1..] + q;
    if |p| > 1 { HasBelow(f[p[0]].deps, p[1..], q); } else { assert p[1..] + q == q; }
  }

  lemma {:induction false} HasAbove(f: seq<Library>, p: Path, n: nat)
    requires Has(f, p) && 0 < n <= |p|
    ensures Has(f, p[..n])
    decreases |p|
  {
    if n > 1 {
      HasAbove(f[p[0]].deps, p[1..], n - 1);
      assert p[..n][1..] == p[1..][..n - 1];
    }
  }

  // ---------------------------------------------------------------- the order of the walk

  /** `p` is left of `q` at the same depth. */
  ghost predicate Left(p: Path, q: Path) {
    |p| == |q| && exists k :: 0 <= k < |p| && p[..k] == q[..k] && p[k] < q[k]
  }

  ghost predicate Later(p: Path, q: Path) { |p| < |q| || Left(p, q) }

  lemma IsLeft(p: Path, q: Path, k: nat)
    requires |p| == |q| && k < |p| && p[..k] == q[..k] && p[k] < q[k]
    ensures Left(p, q)
  {
  }

  lemma LeftTransitive(p: Path, q: Path, r: Path)
    requires Left(p, q) && Left(q, r)
    ensures Left(p, r)
  {
    var i :| 0 <= i < |p| && p[..i] == q[..i] && p[i] < q[i];
    var j :| 0 <= j < |q| && q[..j] == r[..j] && q[j] < r[j];
    var k := if i < j then i else j;
    assert p[..k] == p[..i][..k] && q[..k] == q[..i][..k] && q[..k] == q[..j][..k] && r[..k] == r[..j][..k];
    if i < j { assert q[i] == q[..j][i] && r[i] == r[..j][i]; }
    if j < i { assert p[j] == p[..i][j] && q[j] == q[..i][j]; }
    IsLeft(p, r, k);
  }

  lemma LaterTransitive(p: Path, q: Path, r: Path)
    requires Later(p, q) && Later(q, r)
    ensures Later(p, r)
  {
    if |p| == |q| == |r| { LeftTransitive(p, q, r); }
  }

  // ---------------------------------------------------------------- the first descendant

  /** `find_first_descendent`, as a way down from the library. */
  function FirstBelow(l: Library, level: nat): Option<Path>
    decreases l, level, |l.deps| + 1
  {
    if level == 0 then (if l.deps != [] then Some([0]) else None) else FirstAmong(l, 0, level)
  }

  /** The same among its dependencies from number `i` on. */
  function FirstAmong(l: Library, i: nat, level: nat): Option<Path>
    requires i <= |l.deps| && level > 0
    decreases l, level, |l.deps| - i
  {
    if i == |l.deps| then None
    else
      var r := FirstBelow(l.deps[i], level - 1);
      if r.Some? then Some([i] + r.value) else FirstAmong(l, i + 1, level)
  }

  /** `p` is the leftmost way down to its depth. */
  ghost predicate Leftmost(f: seq<Library>, p: Path) {
    Has(f, p) && forall q :: Has(f, q) && |q| == |p| ==> q == p || Left(p, q)
  }

  /** The result is the leftmost descendant at the level, and there is none only if there is none at all. */
  lemma {:induction false} FirstBelowIs(l: Library, level: nat)
    ensures FirstBelow(l, level).Some? ==>
              |FirstBelow(l, level).value| == level + 1 && Leftmost(l.deps, FirstBelow(l, level).value)
    ensures FirstBelow(l, level).None? ==> forall q :: Has(l.deps, q) ==> |q| != level + 1
    decreases l, level, |l.deps| + 1
  {
    if level == 0 {
      if l.deps != [] {
        assert Has(l.deps, [0]);
        forall q | Has(l.deps, q) && |q| == 1 && q != [0] ensures Left([0], q) {
          assert q == [q[0]];
          IsLeft([0], q, 0);
        }
      }
    } else {
      FirstAmongIs(l, 0, level);
    }
  }

  lemma {:induction false} FirstAmongIs(l: Library, i: nat, level: nat)
    requires i <= |l.deps| && level > 0
    ensures FirstAmong(l, i, level).Some? ==>
              var p := FirstAmong(l, i, level).value;
              && |p| == level + 1 && Has(l.deps, p) && p[0] >= i
              && forall q :: Has(l.deps, q) && |q| == level + 1 && q[0] >= i ==> q == p || Left(p, q)
    ensures FirstAmong(l, i, level).None? ==> forall q :: Has(l.deps, q) && q[0] >= i ==> |q| != level + 1
    decreases l, level, |l.deps| - i
  {
    if i < |l.deps| {
      FirstBelowIs(l.deps[i], level - 1);
      var r := FirstBelow(l.deps[i], level - 1);
      if r.Some? {
        var p := [i] + r.value;
        assert p[1..] == r.value;
        forall q | Has(l.deps, q) && |q| == level + 1 && q[0] >= i ensures q == p || Left(p, q) {
          LeftmostUnder(l.deps, i, r.value, q);
        }
      } else {
        FirstAmongIs(l, i + 1, level);
      }
    }
  }

  lemma LeftmostUnder(f: seq<Library>, i: nat, r: Path, q: Path)
    requires i < |f| && Leftmost(f[i].deps, r) && Has(f, q) && |q| == |r| + 1 && q[0] >= i
    ensures q == [i] + r || Left([i] + r, q)
  {
    var p := [i] + r;
    if q[0] > i {
      IsLeft(p, q, 0);
    } else {
      assert q == [i] + q[1..];
      if q[1..] != r {
        var k :| 0 <= k < |r| && r[..k] == q[1..][..k] && r[k] < q[1..][k];
        assert p[..k + 1] == [i] + r[..k] && q[..k + 1] == [i] + q[1..][..k];
        IsLeft(p, q, k + 1);
      }
    }
  }

  // ---------------------------------------------------------------- the next library

  function Sibling(p: Path): Path
    requires p != []
  {
    p[..|p| - 1] + [p[|p| - 1] + 1]
  }

  function Parent(p: Path): Path
    requires p != []
  {
    p[..|p| - 1]
  }

  /** `find_first_descendent` of the library after `ld`, if there is one. */
  function Under(f: seq<Library>, ld: Path, level: nat): Option<Path>
    requires ld != []
  {
    if Has(f, Sibling(ld)) && FirstBelow(At(f, Sibling(ld)), level).Some?
    then Some(Sibling(ld) + FirstBelow(At(f, Sibling(ld)), level).value)
    else None
  }

  /** The loop of `next_ld` up the ancestors. */
  function Around(f: seq<Library>, ld: Path, level: nat): Option<Path>
    decreases |ld|
  {
    if ld == [] then None
    else if Under(f, ld, level).Some? then Under(f, ld, level)
    else Around(f, Parent(ld), level + 1)
  }

  /** `next_ld`. */
  function NextLd(f: seq<Library>, cur: Path): Option<Path>
    requires Has(f, cur)
  {
    if Has(f, Sibling(cur)) then Some(Sibling(cur))
    else if |cur| == 1 then (if At(f, cur).deps != [] then Some(cur + [0]) else None)
    else if Around(f, Parent(cur), 0).Some? then Around(f, Parent(cur), 0)
    else
      HasAbove(f, cur, |cur| - 1);
      var r := FirstBelow(At(f, Parent(cur)), 1);
      if r.Some? then Some(Parent(cur) + r.value) else None
  }

  lemma UnderLeft(f: seq<Library>, cur: Path, n: nat)
    requires 0 < n < |cur| && Under(f, cur[..n], |cur| - n - 1).Some?
    ensures Has(f, Under(f, cur[..n], |cur| - n - 1).value) && Left(cur, Under(f, cur[..n], |cur| - n - 1).value)
  {
    var ld, level := cur[..n], |cur| - n - 1;
    var s := Sibling(ld);
    FirstBelowIs(At(f, s), level);
    var q := FirstBelow(At(f, s), level).value;
    HasBelow(f, s, q);
    assert cur[..n - 1] == (s + q)[..n - 1];
    IsLeft(cur, s + q, n - 1);
  }

  lemma {:induction false} AroundLeft(f: seq<Library>, cur: Path, n: nat)
    requires n < |cur| && Around(f, cur[..n], |cur| - n - 1).Some?
    ensures Has(f, Around(f, cur[..n], |cur| - n - 1).value) && Left(cur, Around(f, cur[..n], |cur| - n - 1).value)
    decreases n
  {
    if n > 0 {
      if Under(f, cur[..n], |cur| - n - 1).Some? {
        UnderLeft(f, cur, n);
      } else {
        assert Parent(cur[..n]) == cur[..n - 1];
        AroundLeft(f, cur, n - 1);
      }
    }
  }

  /** Every step goes strictly forward in the order by depth and then from left to right. */
  lemma NextIsLater(f: seq<Library>, cur: Path)
    requires Has(f, cur) && NextLd(f, cur).Some?
    ensures Has(f, NextLd(f, cur).value) && Later(cur, NextLd(f, cur).value)
    ensures |NextLd(f, cur).value| <= |cur| + 1
  {
    var n := |cur| - 1;
    if Has(f, Sibling(cur)) {
      IsLeft(cur, Sibling(cur), n);
    } else if |cur| == 1 {
      HasBelow(f, cur, [0]);
    } else if Around(f, Parent(cur), 0).Some? {
      AroundLeft(f, cur, n);
    } else {
      HasAbove(f, cur, n);
      FirstBelowIs(At(f, Parent(cur)), 1);
      HasBelow(f, Parent(cur), FirstBelow(At(f, Parent(cur)), 1).value);
    }
  }

  /** The walk ends only at a library without a following sibling and without dependencies. */
  lemma EndHasNothingBelow(f: seq<Library>, cur: Path, i: nat)
    requires Has(f, cur) && NextLd(f, cur).None?
    ensures !Has(f, Sibling(cur)) && !Has(f, cur + [i])
  {
    HasBelow(f, cur, [i]);
    if |cur| > 1 {
      var n := |cur| - 1;
      HasAbove(f, cur, n);
      FirstBelowIs(At(f, Parent(cur)), 1);
      assert cur + [i] == Parent(cur) + [cur[n], i];
      HasBelow(f, Parent(cur), [cur[n], i]);
    }
  }

  // ---------------------------------------------------------------- whole walks

  /** All libraries. */
  ghost function All(f: seq<Library>): (s: set<Path>)
    ensures forall p :: p in s <==> Has(f, p)
    decreases f
  {
    if f == [] then {}
    else
      var n := |f| - 1;
      var last := f[n];
      var before, below := All(f[..n]), All(last.deps);
      AllSplit(f, before, below);
      before + {[n]} + Prefixed(n, below)
  }

  ghost function Prefixed(n: nat, below: set<Path>): (s: set<Path>)
    ensures forall p :: p in s <==> p != [] && p[0] == n && p[1..] in below
  {
    var s := set p | p in below :: [n] + p;
    assert forall p :: p in s ==> p[1..] in below by {
      forall p | p in s ensures p[1..] in below {
        var q :| q in below && p == [n] + q;
        assert p[1..] == q;
      }
    }
    assert forall p: Path :: p != [] && p[0] == n ==> p == [n] + p[1..];
    s
  }

  lemma HasSplit(f: seq<Library>, p: Path)
    requires f != []
    ensures var n := |f| - 1;
            Has(f, p) <==> Has(f[..n], p) || p == [n] || (p != [] && p[0] == n && Has(f[n].deps, p[1..]))
  {
    var n := |f| - 1;
    if p != [] && p[0] < n { assert f[..n][p[0]] == f[p[0]]; }
    if p != [] && p[0] == n { assert p == [n] + p[1..]; }
  }

  lemma AllSplit(f: seq<Library>, before: set<Path>, below: set<Path>)
    requires f != [] && forall p :: p in below <==> Has(f[|f| - 1].deps, p)
    requires forall p :: p in before <==> Has(f[..|f| - 1], p)
    ensures var n: nat := |f| - 1;
            forall p :: p in before + {[n]} + Prefixed(n, below) <==> Has(f, p)
  {
    var n: nat := |f| - 1;
    forall p ensures p in before + {[n]} + Prefixed(n, below) <==> Has(f, p) {
      HasSplit(f, p);
    }
  }

  /** What the walk can still come to. */
  ghost function Ahead(f: seq<Library>, cur: Path): set<Path> {
    set p | p in All(f) && Later(cur, p)
  }

  lemma NotLater(p: Path)
    ensures !Later(p, p)
  {
  }

  /** Every step leaves less to come to. */
  lemma AheadShrinks(f: seq<Library>, cur: Path)
    requires Has(f, cur) && NextLd(f, cur).Some?
    ensures Has(f, NextLd(f, cur).value) && Ahead(f, NextLd(f, cur).value) < Ahead(f, cur)
    ensures |Ahead(f, NextLd(f, cur).value)| < |Ahead(f, cur)|
  {
    NextIsLater(f, cur);
    var r := NextLd(f, cur).value;
    NotLater(r);
    forall p | p in Ahead(f, r) ensures p in Ahead(f, cur) { LaterTransitive(cur, r, p); }
    assert r in Ahead(f, cur) && r !in Ahead(f, r);
    Smaller(Ahead(f, r), Ahead(f, cur), r);
  }

  lemma Smaller(s: set<Path>, t: set<Path>, x: Path)
    requires s <= t && x in t && x !in s
    ensures |s| < |t|
  {
    SubsetSize(s, t - {x});
  }

  lemma {:induction false} SubsetSize(s: set<Path>, t: set<Path>)
    requires s <= t
    ensures |s| <= |t|
  {
    if s != {} {
      var x :| x in s;
      SubsetSize(s - {x}, t - {x});
    }
  }

  /** `find_first_descendent`, with its loop over the dependencies. */
  method FindFirstDescendent(l: Library, level: nat) returns (r: Option<Path>)
    ensures r == FirstBelow(l, level)
    decreases l, level
  {
    if level == 0 { return if l.deps != [] then Some([0]) else None; }
    var i := 0;
    while i < |l.deps|
      invariant 0 <= i <= |l.deps| && FirstAmong(l, i, level) == FirstAmong(l, 0, level)
    {
      var res := FindFirstDescendent(l.deps[i], level - 1);
      if res.Some? { return Some([i] + res.value); }
      i := i + 1;
    }
    r := None;
  }

  /** `next_ld`, with its loop up the ancestors. */
  method NextLibrary(f: seq<Library>, cur: Path) returns (r: Option<Path>)
    requires Has(f, cur)
    ensures r == NextLd(f, cur)
  {
    if Has(f, Sibling(cur)) { return Some(Sibling(cur)); }
    if |cur| == 1 { return if At(f, cur).deps != [] then Some(cur + [0]) else None; }
    var ld, level := Parent(cur), 0;
    while ld != []
      invariant Around(f, ld, level) == Around(f, Parent(cur), 0)
      decreases |ld|
    {
      if Has(f, Sibling(ld)) {
        var res := FindFirstDescendent(At(f, Sibling(ld)), level);
        if res.Some? { return Some(Sibling(ld) + res.value); }
      }
      level := level + 1;
      ld := Parent(ld);
    }
    HasAbove(f, cur, |cur| - 1);
    r := FindFirstDescendent(At(f, Parent(cur)), 1);
    if r.Some? { r := Some(Parent(cur) + r.value); }
  }

  ghost predicate Forward(seen: seq<Path>) {
    forall i, j :: 0 <= i < j < |seen| ==> Later(seen[i], seen[j])
  }

  /** The loop of `elf_next_symtab` over the libraries after `start`: it ends, and comes to no library twice. */
  method Walk(f: seq<Library>, start: Path) returns (seen: seq<Path>)
    requires Has(f, start)
    ensures seen != [] && seen[0] == start && Has(f, seen[|seen| - 1]) && NextLd(f, seen[|seen| - 1]) == None
    ensures Forward(seen) && forall i, j :: 0 <= i < j < |seen| ==> seen[i] != seen[j]
  {
    var cur := start;
    seen := [start];
    var next := NextLibrary(f, cur);
    while next.Some?
      invariant seen != [] && seen[0] == start && seen[|seen| - 1] == cur && Has(f, cur) && next == NextLd(f, cur)
      invariant Forward(seen)
      decreases |Ahead(f, cur)|
    {
      NextIsLater(f, cur);
      AheadShrinks(f, cur);
      ForwardNext(seen, next.value);
      cur := next.value;
      seen := seen + [cur];
      next := NextLibrary(f, cur);
    }
    forall i, j | 0 <= i < j < |seen| ensures seen[i] != seen[j] { NotLater(seen[i]); }
  }

  lemma ForwardNext(seen: seq<Path>, p: Path)
    requires Forward(seen) && seen != [] && Later(seen[|seen| - 1], p)
    ensures Forward(seen + [p])
  {
    var t := seen + [p];
    forall i, j | 0 <= i < j < |t| ensures Later(t[i], t[j]) {
      if j == |seen| && i < |seen| - 1 { LaterTransitive(seen[i], seen[|seen| - 1], p); }
    }
  }

  // ---------------------------------------------------------------- what the walk misses

  const LEAF: Library := Library([])

  /** A program with three libraries, of which the first and the third depend on one each. */
  const PROGRAM: seq<Library> := [Library([Library([LEAF]), LEAF, Library([LEAF])])]

  /** The libraries of the program. */
  lemma ProgramHas(i: nat, j: nat)
    ensures Has(PROGRAM, [i]) <==> i == 0
    ensures Has(PROGRAM, [0, i]) <==> i < 3
    ensures Has(PROGRAM, [0, i, j]) <==> (i == 0 || i == 2) && j == 0
    ensures i < 3 ==> At(PROGRAM, [0, i]) == PROGRAM[0].deps[i]
  {
    var top := PROGRAM[0].deps;
    assert [0, i][1..] == [i] && [0, i, j][1..] == [i, j] && [i, j][1..] == [j];
    assert Has(PROGRAM, [0, i]) <==> Has(top, [i]);
    assert Has(PROGRAM, [0, i, j]) <==> Has(top, [i, j]);
  }

  /** The walk is not complete: only the next sibling of an ancestor is looked under, so that the dependency of the
    * third library is never come to.
    */
  lemma WalkMisses()
    ensures Has(PROGRAM, [0]) && NextLd(PROGRAM, [0]) == Some([0, 0])
    ensures Has(PROGRAM, [0, 0]) && NextLd(PROGRAM, [0, 0]) == Some([0, 1])
    ensures Has(PROGRAM, [0, 1]) && NextLd(PROGRAM, [0, 1]) == Some([0, 2])
    ensures Has(PROGRAM, [0, 2]) && NextLd(PROGRAM, [0, 2]) == Some([0, 0, 0])
    ensures Has(PROGRAM, [0, 0, 0]) && NextLd(PROGRAM, [0, 0, 0]) == None
    ensures Has(PROGRAM, [0, 2, 0])
  {
    ProgramHas(0, 0);
    ProgramHas(1, 1);
    ProgramHas(2, 0);
    ProgramHas(3, 0);
    ProgramHas(0, 1);
    MissesTop();
    MissesThird();
    MissesEnd();
  }

  lemma MissesTop()
    ensures Has(PROGRAM, [0]) && NextLd(PROGRAM, [0]) == Some([0, 0])
    ensures Has(PROGRAM, [0, 0]) && NextLd(PROGRAM, [0, 0]) == Some([0, 1])
    ensures Has(PROGRAM, [0, 1]) && NextLd(PROGRAM, [0, 1]) == Some([0, 2])
  {
    ProgramHas(0, 0);
    ProgramHas(1, 0);
    ProgramHas(2, 0);
    assert Sibling([0]) == [1] && Sibling([0, 0]) == [0, 1] && Sibling([0, 1]) == [0, 2];
    assert [0] + [0] == [0, 0];
  }

  lemma MissesThird()
    ensures Has(PROGRAM, [0, 2]) && NextLd(PROGRAM, [0, 2]) == Some([0, 0, 0])
  {
    ProgramHas(2, 0);
    ProgramHas(3, 0);
    ProgramHas(1, 0);
    var p: Path := [0, 2];
    assert Sibling(p) == [0, 3] && Parent(p) == [0] && Sibling([0]) == [1] && Parent([0]) == [];
    assert Around(PROGRAM, [], 1) == None;
    assert Under(PROGRAM, [0], 0) == None;
    assert Around(PROGRAM, [0], 0) == None;
    var l := PROGRAM[0];
    assert FirstBelow(l.deps[0], 0) == Some([0]);
    assert FirstAmong(l, 0, 1) == Some([0] + [0]);
    assert [0] + ([0] + [0]) == [0, 0, 0];
  }

  lemma MissesEnd()
    ensures Has(PROGRAM, [0, 0, 0]) && NextLd(PROGRAM, [0, 0, 0]) == None
  {
    ProgramHas(0, 0);
    ProgramHas(0, 1);
    ProgramHas(1, 0);
    var p: Path := [0, 0, 0];
    assert Sibling(p) == [0, 0, 1] && Parent(p) == [0, 0] && Sibling([0, 0]) == [0, 1];
    assert Parent([0, 0]) == [0] && Sibling([0]) == [1] && Parent([0]) == [];
    assert FirstBelow(LEAF, 0) == None;
    assert Under(PROGRAM, [0, 0], 0) == None;
    assert Under(PROGRAM, [0], 1) == None;
    assert Around(PROGRAM, [], 2) == None;
    assert Around(PROGRAM, [0], 1) == None;
    assert Around(PROGRAM, [0, 0], 0) == None;
    var l := PROGRAM[0].deps[0];
    assert FirstAmong(l, 1, 1) == None;
    assert FirstAmong(l, 0, 1) == None;
  }
}
