/** Saving on the linked buttons themselves (med3/rw.c: bmtom, bmsplit, bmsize,
  * clearbreaks): half sequences are bounded by marks set in the buttons.
  */
module Breaks {
  import opened Wrappers
  import opened MenuTree
  import opened SaveLoad
  import opened Buttons

  /** The marked objects among `objs`. */
  ghost function Marks(objs: set<Butst>): set<Butst>
    reads objs`brk
  {
    set x | x in objs && x.brk
  }

  /** With the objects in `ms` marked, the first `n` buttons of `s` are a segment, and nothing
    * under them is marked.
    */
  ghost predicate Segment(s: Shape, n: nat, ms: set<Butst>) {
    1 <= n <= SLen(s) && ms !! Objs(s.u) &&
    if n == 1 then s.obj in ms || s.next.Empty? else s.obj !in ms && Segment(s.next, n - 1, ms)
  }

  lemma {:induction false} WholeSegment(s: Shape, ms: set<Butst>)
    requires s.Cell? && ms !! Objs(s)
    ensures Segment(s, SLen(s), ms)
  {
    if s.next.Cell? { WholeSegment(s.next, ms); }
  }

  /** Only marks inside the shape matter. */
  lemma {:induction false} SegmentLocal(s: Shape, n: nat, ms: set<Butst>, ns: set<Butst>)
    requires Segment(s, n, ms) && ms * Objs(s) == ns * Objs(s)
    ensures Segment(s, n, ns)
  {
    assert ns !! Objs(s.u) by {
      assert forall x | x in Objs(s.u) :: x in Objs(s) && (x in ns <==> x in ns * Objs(s));
    }
    assert s.obj in ms <==> s.obj in ms * Objs(s);
    assert s.obj in ns <==> s.obj in ns * Objs(s);
    if n > 1 {
      assert ms * Objs(s.next) == ms * Objs(s) * Objs(s.next);
      assert ns * Objs(s.next) == ns * Objs(s) * Objs(s.next);
      SegmentLocal(s.next, n - 1, ms, ns);
    }
  }

  lemma {:induction false} DropNext(s: Shape, n: nat)
    requires n < SLen(s)
    ensures SDrop(s, n).Cell? && SDrop(s, n + 1) == SDrop(s, n).next
  {
    if n > 0 { DropNext(s.next, n - 1); }
  }

  /** Marking button `h` divides a segment in two. */
  lemma {:induction false} MarkedHalves(s: Shape, h: nat, n: nat, ms: set<Butst>)
    requires 1 <= h < n && Segment(s, n, ms) && Distinct(s) && SDrop(s, h - 1).Cell?
    ensures var x := SDrop(s, h - 1).obj;
            x in Foot(s, h) && Segment(s, h, ms + {x}) && Segment(SDrop(s, h), n - h, ms + {x})
  {
    var x := SDrop(s, h - 1).obj;
    if h > 1 {
      DropShape(s.next, h - 2);
      MarkedHalves(s.next, h - 1, n - 1, ms);
    } else {
      assert SDrop(s, 1) == s.next;
      SegmentLocal(s.next, n - 1, ms, ms + {x});
    }
  }

  /** `bmsize`. */
  method Bmsize(bm: Butst, ghost s: Shape, ghost n: nat) returns (r: Rect)
    requires Linked(s) && Head(s) == bm && Segment(s, n, Marks(Objs(s)))
    ensures Len(View(s)) == SLen(s) && r == Bounds(View(s), n)
  {
    ViewLen(s);
    var b: Butst := bm;
    ghost var rest: Shape, k: nat, ms := s, n, Marks(Objs(s));
    while b.b != null && !b.brk
      invariant Linked(rest) && Head(rest) == b && Segment(rest, k, ms) && Objs(rest) <= Objs(s)
      invariant Len(View(s)) == SLen(s) && Len(View(rest)) == SLen(rest)
      invariant Drop(View(rest), k - 1) == Drop(View(s), n - 1)
      decreases rest
    {
      assert b in Objs(rest);
      b := b.b;
      ViewLen(rest.next);
      rest, k := rest.next, k - 1;
    }
    assert b in Objs(rest);
    var last := b.v.rect;
    r := Rect(Span(bm.v.rect.h.at, last.h.End() - bm.v.rect.h.at), Span(bm.v.rect.v.at, last.v.End() - bm.v.rect.v.at));
  }

  /** The two loops of `bmsplit`: count the buttons of the segment, then walk to the last
    * one of the first half.
    */
  method CountSegment(bm: Butst, ghost s: Shape, ghost n: nat) returns (count: nat)
    requires Linked(s) && Head(s) == bm && Segment(s, n, Marks(Objs(s)))
    ensures count == n
  {
    count := 1;
    var b: Butst := bm;
    ghost var rest: Shape, k: nat, ms := s, n, Marks(Objs(s));
    while b.b != null && !b.brk
      invariant Linked(rest) && Head(rest) == b && Segment(rest, k, ms) && Objs(rest) <= Objs(s)
      invariant count + k == n + 1
      decreases rest
    {
      assert b in Objs(rest);
      count := count + 1;
      b := b.b;
      rest, k := rest.next, k - 1;
    }
    assert b in Objs(rest);
  }

  method ButtonAt(bm: Butst, half: nat, ghost s: Shape) returns (b: Butst)
    requires Linked(s) && Head(s) == bm && 1 <= half < SLen(s)
    ensures SDrop(s, half - 1).Cell? && b == SDrop(s, half - 1).obj && b.b == Head(SDrop(s, half))
  {
    b := bm;
    ghost var rest := s;
    var i := 1;
    while i < half
      invariant 1 <= i <= half && rest == SDrop(s, i - 1) && Linked(rest) && Head(rest) == b
    {
      DropNext(s, i - 1);
      b := b.b;
      rest := rest.next;
      i := i + 1;
    }
    DropNext(s, half - 1);
  }

  /** `bmsplit` on a segment of at least two buttons: marks the end of the first half and
    * returns the beginning of the second.
    */
  method Bmsplit(bm: Butst, ghost s: Shape, ghost n: nat) returns (second: Butst)
    requires Distinct(s) && Linked(s) && Head(s) == bm && n >= 2 && Segment(s, n, Marks(Objs(s)))
    modifies Foot(s, n / 2)`brk
    ensures second == Head(SDrop(s, n / 2))
    ensures Segment(s, n / 2, Marks(Objs(s)))
    ensures Segment(SDrop(s, n / 2), n - n / 2, Marks(Objs(SDrop(s, n / 2))))
  {
    ghost var ms, s2 := Marks(Objs(s)), SDrop(s, n / 2);
    var count := CountSegment(bm, s, n);
    var b := ButtonAt(bm, count / 2, s);
    second := b.b;
    HalvesLocal(s, n / 2, n, ms);
    b.brk := true;
    assert Marks(Objs(s)) == ms + {b};
    assert Marks(Objs(s2)) == (ms + {b}) * Objs(s2);
  }

  /** The two segments that a mark makes, each with the marks of its own shape. */
  lemma HalvesLocal(s: Shape, h: nat, n: nat, ms: set<Butst>)
    requires 1 <= h < n && Segment(s, n, ms) && Distinct(s) && SDrop(s, h - 1).Cell?
    ensures var x, s2 := SDrop(s, h - 1).obj, SDrop(s, h);
            && x in Foot(s, h) && x in Objs(s) && Objs(s2) <= Objs(s) && s2.Cell?
            && Segment(s, h, ms + {x}) && Segment(s2, n - h, (ms + {x}) * Objs(s2))
  {
    var x, s2 := SDrop(s, h - 1).obj, SDrop(s, h);
    DropShape(s, h);
    MarkedHalves(s, h, n, ms);
    FootIn(s, h);
    SegmentLocal(s2, n - h, ms + {x}, (ms + {x}) * Objs(s2));
  }

  // ---------------------------------------------------------------- bmtom

  /** `bmtom`: the node for the segment of `n` buttons from `bm` on. */
  method Bmtom(bm: Butst, fg: bool, ghost s: Shape, ghost n: nat) returns (l: Lib)
    requires Distinct(s) && Linked(s) && BackLinked(s, bm.a) && Head(s) == bm && Segment(s, n, Marks(Objs(s)))
    requires n >= 2 ==> bm.a != null
    modifies Foot(s, n)`brk
    ensures Len(View(s)) == SLen(s) && l == Save(View(s), n, fg, bm.a == null)
    decreases SSize(s), n, 1
  {
    Allocated(s);
    ViewLen(s);
    if bm.b == null || bm.brk {
      assert n == 1;
      l := SaveSingle(bm, fg, s, n);
    } else {
      var r := Bmsize(bm, s, n);
      l := SplitNode(bm, r, fg, None, bm.v.rv, Style(bm.v.style.font, false, !fg, false, false), false, s, n);
    }
  }

  /** The part of `bmtom` for a single button. */
  method SaveSingle(bm: Butst, fg: bool, ghost s: Shape, ghost n: nat) returns (l: Lib)
    requires Distinct(s) && Linked(s) && BackLinked(s, bm.a) && Head(s) == bm && n == 1 && Segment(s, n, Marks(Objs(s)))
    modifies Foot(s, n)`brk
    ensures Len(View(s)) == SLen(s) && l == Save(View(s), n, fg, bm.a == null)
    decreases SSize(s), n, 0
  {
    Allocated(s);
    SingleReady(s, n, bm.a);
    var r := Bmsize(bm, s, n);
    var v, root := bm.v, bm.a == null;
    var fg' := if !v.clear || (v.free && root) then !v.style.bgline else fg;
    var cap := if v.clear then None else Some(v.caption);
    ghost var m := View(s);
    l := SaveInner(bm.u, v, r, fg', cap, s.u);
    assert View(s) == m;
    SaveOneIs(m, fg, root, l);
  }

  /** What is under a single button is unmarked and linked. */
  lemma SingleReady(s: Shape, n: nat, a: Butst?)
    requires s.Cell? && Distinct(s) && Linked(s) && BackLinked(s, a) && n == 1 && Segment(s, n, Marks(Objs(s)))
    ensures Distinct(s.u) && Linked(s.u) && BackLinked(s.u, s.obj) && Marks(Objs(s.u)) !! Objs(s.u)
    ensures Objs(s.u) <= Foot(s, n) && Len(View(s)) == SLen(s) && Len(View(s.u)) == SLen(s.u)
    ensures Bounds(View(s), n) == s.obj.v.rect
  {
    ViewLen(s);
    ViewLen(s.u);
    assert Drop(View(s), 0) == View(s);
  }

  /** The three forms of a saved single button. */
  lemma SaveOneIs(m: Menu, fg: bool, root: bool, l: Lib)
    requires m.Node?
    requires var b, u, fg' := m.b, m.u, ColourUnder(m.b, fg, root);
             var cap := if b.clear then None else Some(b.caption);
             && (u.Nil? ==> l == Lib(b.rect, false, false, 0, cap, b.rv, SavedStyle(b, false, fg'), false, b.free,
                                     NoLib, NoLib))
             && (Len(u) == 1 ==> l == Lib(b.rect, false, false, 0, cap, b.rv, SavedStyle(b, true, fg'), true, b.free,
                                          Save(u, 1, fg', false), NoLib))
             && (Len(u) >= 2 ==> l == SaveSplit(u, Len(u), b.rect, fg', cap, b.rv, SavedStyle(b, false, fg'), b.free))
    ensures l == Save(m, 1, fg, root)
  {
    if m.u.Node? { assert m.u.next.Nil? <==> Len(m.u) == 1; }
  }

  /** The node of a button `v` with the submenu that begins at `u`, if it has one. */
  method SaveInner(u: Butst?, v: Button, r: Rect, fg: bool, cap: Option<string>, ghost s: Shape) returns (l: Lib)
    requires Distinct(s) && Linked(s) && Head(s) == u && Marks(Objs(s)) !! Objs(s)
    requires u != null ==> u.a != null && BackLinked(s, u.a)
    modifies Objs(s)`brk
    ensures Len(View(s)) == SLen(s)
    ensures SLen(s) == 0 ==>
              l == Lib(r, false, false, 0, cap, v.rv, SavedStyle(v, false, fg), false, v.free, NoLib, NoLib)
    ensures SLen(s) == 1 ==>
              l == Lib(r, false, false, 0, cap, v.rv, SavedStyle(v, true, fg), true, v.free,
                       Save(View(s), 1, fg, false), NoLib)
    ensures SLen(s) >= 2 ==> l == SaveSplit(View(s), SLen(s), r, fg, cap, v.rv, SavedStyle(v, false, fg), v.free)
    decreases SSize(s), SLen(s), 2
  {
    Allocated(s);
    ViewLen(s);
    if u == null {
      l := Lib(r, false, false, 0, cap, v.rv, SavedStyle(v, false, fg), false, v.free, NoLib, NoLib);
      return;
    }
    WholeSegment(s, Marks(Objs(s)));
    FootIn(s, SLen(s));
    if u.b == null {
      var sub := Bmtom(u, fg, s, 1);
      l := Lib(r, false, false, 0, cap, v.rv, SavedStyle(v, true, fg), true, v.free, sub, NoLib);
    } else {
      l := SplitNode(u, r, fg, cap, v.rv, SavedStyle(v, false, fg), v.free, s, SLen(s));
    }
  }

  lemma {:induction false} DropBack(s: Shape, n: nat, a: Butst?)
    requires 1 <= n < SLen(s) && BackLinked(s, a) && Distinct(s)
    ensures SDrop(s, n).Cell? && SDrop(s, n).obj.a != null && BackLinked(SDrop(s, n), SDrop(s, n).obj.a)
    decreases n
  {
    if n > 1 { DropBack(s.next, n - 1, s.obj); } else { DropNext(s, 1); assert SDrop(s, 1) == s.next; }
  }

  /** The part of `bmtom` that divides a segment. */
  method SplitNode(bu: Butst, r: Rect, fg: bool, cap: Option<string>, rv: nat, style: Style, free: bool,
                   ghost s: Shape, ghost n: nat)
    returns (l: Lib)
    requires Distinct(s) && Linked(s) && BackLinked(s, bu.a) && Head(s) == bu && bu.a != null
    requires n >= 2 && Segment(s, n, Marks(Objs(s)))
    modifies Foot(s, n)`brk
    ensures Len(View(s)) == SLen(s) && l == SaveSplit(View(s), n, r, fg, cap, rv, style, free)
    decreases SSize(s), n, 0, 1
  {
    Allocated(s);
    ViewLen(s);
    var half, tl, br := SaveHalves(bu, fg, s, n);
    if bu.v.hor {
      l := Lib(r, true, false, r.h.at + half.h.len, cap, rv, style, false, free, tl, br);
    } else {
      l := Lib(r, false, true, r.v.at + half.v.len, cap, rv, style, false, free, tl, br);
    }
  }

  method SaveHalves(bu: Butst, fg: bool, ghost s: Shape, ghost n: nat) returns (half: Rect, tl: Lib, br: Lib)
    requires Distinct(s) && Linked(s) && BackLinked(s, bu.a) && Head(s) == bu && bu.a != null
    requires n >= 2 && Segment(s, n, Marks(Objs(s)))
    modifies Foot(s, n)`brk
    ensures Len(View(s)) == SLen(s) && half == Bounds(View(s), n / 2)
    ensures tl == Save(View(s), n / 2, fg, false) && br == Save(Drop(View(s), n / 2), n - n / 2, fg, false)
    decreases SSize(s), n, 0, 0
  {
    ghost var s2 := SDrop(s, n / 2);
    Allocated(s);
    FootDrop(s, n / 2, n);
    var second;
    second, half := Halve(bu, s, n, s2);
    tl, br := SaveBoth(bu, second, fg, s, n / 2, s2, n - n / 2);
    ViewDrop(s, n / 2);
  }

  method Halve(bu: Butst, ghost s: Shape, ghost n: nat, ghost s2: Shape) returns (second: Butst, half: Rect)
    requires Distinct(s) && Linked(s) && BackLinked(s, bu.a) && Head(s) == bu
    requires n >= 2 && Segment(s, n, Marks(Objs(s))) && s2 == SDrop(s, n / 2)
    modifies Foot(s, n / 2)`brk
    ensures Linked(s) && BackLinked(s, bu.a) && Segment(s, n / 2, Marks(Objs(s)))
    ensures Distinct(s2) && Linked(s2) && Head(s2) == second && second.a != null && BackLinked(s2, second.a)
    ensures Segment(s2, n - n / 2, Marks(Objs(s2))) && SSize(s2) < SSize(s) && Foot(s2, n - n / 2) <= Objs(s2)
    ensures Len(View(s)) == SLen(s) && half == Bounds(View(s), n / 2)
  {
    Allocated(s);
    DropShape(s, n / 2);
    DropBack(s, n / 2, bu.a);
    FootIn(s2, n - n / 2);
    second := Bmsplit(bu, s, n);
    half := Bmsize(bu, s, n / 2);
  }

  /** Save two segments that have no object in common. */
  method SaveBoth(b1: Butst, b2: Butst, fg: bool, ghost s1: Shape, ghost n1: nat, ghost s2: Shape, ghost n2: nat)
    returns (l1: Lib, l2: Lib)
    requires Distinct(s1) && Linked(s1) && BackLinked(s1, b1.a) && Head(s1) == b1 && b1.a != null
    requires Distinct(s2) && Linked(s2) && BackLinked(s2, b2.a) && Head(s2) == b2 && b2.a != null
    requires Segment(s1, n1, Marks(Objs(s1))) && Segment(s2, n2, Marks(Objs(s2)))
    requires Foot(s1, n1) !! Objs(s2) && Foot(s2, n2) <= Objs(s2) && SSize(s2) < SSize(s1)
    modifies Foot(s1, n1)`brk, Foot(s2, n2)`brk
    ensures Len(View(s1)) == SLen(s1) && l1 == Save(View(s1), n1, fg, false)
    ensures Len(View(s2)) == SLen(s2) && l2 == Save(View(s2), n2, fg, false)
    decreases SSize(s1), n1, 2, 0
  {
    Allocated(s1);
    Allocated(s2);
    l1 := Bmtom(b1, fg, s1, n1);
    l2 := Bmtom(b2, fg, s2, n2);
  }

  // ---------------------------------------------------------------- clearbreaks

  method Clearbreaks(bm: Butst?, ghost s: Shape)
    requires Linked(s) && Head(s) == bm
    modifies Objs(s)`brk
    ensures forall x | x in Objs(s) :: !x.brk
    decreases s
  {
    if bm == null { return; }
    Allocated(s);
    Clearbreaks(bm.u, s.u);
    Clearbreaks(bm.b, s.next);
    bm.brk := false;
  }

  /** The conversion in `bmwrite`: the saved menu is that of the tree of values, and the
    * buttons are left as they were found, without any mark.
    */
  method SaveMenu(bm: Butst, ghost s: Shape) returns (l: Lib)
    requires Distinct(s) && Linked(s) && BackLinked(s, null) && Head(s) == bm && SLen(s) == 1
    requires forall x | x in Objs(s) :: !x.brk
    modifies Objs(s)`brk
    ensures Len(View(s)) == 1 && l == Save(View(s), 1, true, true)
    ensures forall x | x in Objs(s) :: !x.brk
  {
    Allocated(s);
    WholeSegment(s, Marks(Objs(s)));
    FootIn(s, 1);
    l := Bmtom(bm, true, s, 1);
    Clearbreaks(bm, s);
  }
}
