/** The commands that take room from one button and give it to another: cut, paste, moving
  * an edge and equal spacing (med3/bmenu.c, med3/bmstack.c, med3/box.c).
  */
module Resizes {
  import opened MenuTree
  import opened Scaling
  import opened Edits

  // ---------------------------------------------------------------- one button

  predicate GrowSafe(m: Menu, ax: Axis) { m.Node? && ScaleSafe(m.u, ax, m.b.On(ax).len) }

  /** The first button of `m` becomes `len` long without moving. */
  function Resize(m: Menu, ax: Axis, len: int, o: Area): (r: Menu)
    requires GrowSafe(m, ax)
    ensures r.Node?
  {
    var s := m.b.On(ax);
    Node(m.b.WithSpan(ax, Span(s.at, len)), Scale(m.u, ax, len, s.len, o), m.next)
  }

  /** The first button of `m` is moved to `at` and then becomes `len` long. */
  function Relocate(m: Menu, ax: Axis, at: int, len: int, o: Area): (r: Menu)
    requires GrowSafe(m, ax)
    ensures r.Node?
  {
    var s := m.b.On(ax);
    MoveOnKeepsSafe(m.u, ax, s.len, at - s.at, o);
    Node(m.b.WithSpan(ax, Span(at, len)), Scale(MoveOn(m.u, ax, at - s.at, o), ax, len, s.len, o), m.next)
  }

  lemma ResizeKeepsContents(m: Menu, ax: Axis, len: int, o: Area)
    requires GrowSafe(m, ax) && Good(m.b.rect, o) && Valid(m.u, Under(m.b.rect), o) && len >= 0
    ensures Good(Resize(m, ax, len, o).b.rect, o)
    ensures Valid(Resize(m, ax, len, o).u, Under(Resize(m, ax, len, o).b.rect), o)
  {
    var s := m.b.On(ax);
    if s.len > 0 {
      ScaleValid(m.u, m.b.rect, ax, len, s.len, o);
      DivExact(len, s.len);
    }
  }

  lemma RelocateKeepsContents(m: Menu, ax: Axis, at: int, len: int, o: Area)
    requires GrowSafe(m, ax) && Good(m.b.rect, o) && Valid(m.u, Under(m.b.rect), o)
    requires Good(m.b.rect.With(ax, Span(at, len)), o)
    ensures Valid(Relocate(m, ax, at, len, o).u, Under(Relocate(m, ax, at, len, o).b.rect), o)
  {
    ScaleStepValid(m.u, m.b.rect, ax, at, len, o);
  }

  // ---------------------------------------------------------------- cut

  /** The neighbour that takes over the room of button `k`: the next one for the first
    * button of a sequence, the previous one for any other.
    */
  predicate CutSafe(m: Menu, k: nat)
    requires k < Len(m) && Len(m) >= 2
  {
    assert Len(m.next) > 0;
    if k == 0 then GrowSafe(m.next, AxisOf(m.b))
    else if k == 1 then GrowSafe(m, AxisOf(m.next.b))
    else CutSafe(m.next, k - 1)
  }

  /** Remove button `k` from a sequence of at least two. */
  function CutRun(m: Menu, k: nat, o: Area): Menu
    requires k < Len(m) && Len(m) >= 2 && CutSafe(m, k)
  {
    assert Len(m.next) > 0;
    if k == 0 then
      var ax := AxisOf(m.b);
      WithFirst(Relocate(m.next, ax, m.b.On(ax).at, m.b.On(ax).len + m.next.b.On(ax).len, o), true)
    else if k == 1 then
      var ax := AxisOf(m.next.b);
      Resize(m, ax, m.next.b.On(ax).len + m.b.On(ax).len, o).(next := m.next.next)
    else
      m.(next := CutRun(m.next, k - 1, o))
  }

  lemma {:induction false} CutRunLen(m: Menu, k: nat, o: Area)
    requires k < Len(m) && Len(m) >= 2 && CutSafe(m, k)
    ensures Len(CutRun(m, k, o)) == Len(m) - 1
    decreases k
  {
    assert Len(m.next) > 0;
    if k > 1 { CutRunLen(m.next, k - 1, o); }
  }

  /** The room of two neighbours, taken by one of them. */
  lemma TwoRooms(r1: Rect, r2: Rect, ax: Axis, r: Rect)
    requires Fits(r1, ax, r) && Fits(r2, ax, Beyond(r1, ax, r))
    ensures var both := r1.With(ax, Span(r1.On(ax).at, r1.On(ax).len + r2.On(ax).len));
            && Fits(both, ax, r) && Beyond(both, ax, r) == Beyond(r2, ax, Beyond(r1, ax, r))
            && r2.With(ax, both.On(ax)) == both
  {
  }

  lemma CutFirstValid(m: Menu, ax: Axis, r: Rect, o: Area)
    requires Valid(m, Rest(ax, r), o) && Len(m) >= 2 && CutSafe(m, 0) && m.next.Node?
    ensures Valid(WithFirst(CutRun(m, 0, o), false), Rest(ax, r), o)
  {
    var n := m.next;
    MemberAxis(m.b, ax);
    TwoRooms(m.b.rect, n.b.rect, ax, r);
    RelocateKeepsContents(n, ax, m.b.On(ax).at, m.b.On(ax).len + n.b.On(ax).len, o);
    ValidRestIntro(WithFirst(CutRun(m, 0, o), false), ax, r, o);
  }

  lemma CutSecondValid(m: Menu, ax: Axis, r: Rect, o: Area)
    requires Valid(m, Rest(ax, r), o) && Len(m) >= 2 && CutSafe(m, 1) && m.next.Node?
    ensures Valid(WithFirst(CutRun(m, 1, o), false), Rest(ax, r), o)
  {
    var n := m.next;
    MemberAxis(n.b, ax);
    TwoRooms(m.b.rect, n.b.rect, ax, r);
    ResizeKeepsContents(m, ax, m.b.On(ax).len + n.b.On(ax).len, o);
    ValidRestIntro(WithFirst(CutRun(m, 1, o), false), ax, r, o);
  }

  lemma {:induction false} CutRunValid(m: Menu, k: nat, ax: Axis, r: Rect, o: Area)
    requires Valid(m, Rest(ax, r), o) && k < Len(m) && Len(m) >= 2 && CutSafe(m, k)
    ensures Valid(WithFirst(CutRun(m, k, o), false), Rest(ax, r), o)
  {
    assert Len(m.next) > 0;
    if k == 0 {
      CutFirstValid(m, ax, r, o);
    } else if k == 1 {
      CutSecondValid(m, ax, r, o);
    } else {
      CutRunValid(m.next, k - 1, ax, Beyond(m.b.rect, ax, r), o);
      CutLaterFirst(m.next, k - 1, o);
      ValidRestIntro(CutRun(m, k, o), ax, r, o);
    }
  }

  lemma CutLaterFirst(m: Menu, k: nat, o: Area)
    requires 1 <= k < Len(m) && CutSafe(m, k)
    ensures CutRun(m, k, o).b.first == m.b.first && CutRun(m, k, o).Node?
  {
  }

  /** Button `k` of a sequence with its submenu, as it is pushed on the cut stack. */
  function Piece(m: Menu, k: nat): Menu
    requires k < Len(m)
  {
    assert Len(Drop(m, k)) > 0;
    Drop(m, k).(next := Nil)
  }

  predicate ValidPiece(c: Menu, o: Area) {
    c.Node? && c.next.Nil? && Good(c.b.rect, o) && Valid(c.u, Under(c.b.rect), o)
  }

  predicate CutUnderSafe(s: Menu, k: nat)
    requires s.Node? && k < Len(s.u)
  {
    Len(s.u) >= 2 ==> CutSafe(s.u, k)
  }

  /** `bmcut` on button `k` of the menu under `s`.  A single button simply goes; when one
    * button of a sequence is left over, its owner takes over its contents.
    */
  function CutUnder(s: Menu, k: nat, o: Area): Menu
    requires s.Node? && k < Len(s.u) && CutUnderSafe(s, k)
  {
    if s.u.next.Nil? then s.(u := Nil)
    else
      var r := CutRun(s.u, k, o);
      if r.next.Node? then s.(u := r)
      else
        Node(s.b.(style := r.b.style, rv := r.b.rv, clear := r.b.clear,
                  caption := if r.b.clear then s.b.caption else r.b.caption), r.u, s.next)
  }

  lemma {:induction false} PieceValid(m: Menu, k: nat, p: Place, o: Area)
    requires Valid(m, p, o) && k < Len(m)
    ensures ValidPiece(Piece(m, k), o)
  {
    if k > 0 {
      if m.b.hor || m.b.ver {
        ToRest(m, p, AxisOf(m.b), o);
        PieceValid(m.next, k - 1, Rest(AxisOf(m.b), Beyond(m.b.rect, AxisOf(m.b), Space(p))), o);
      }
    }
  }

  lemma CutSequenceValid(m: Menu, k: nat, ax: Axis, r: Rect, o: Area)
    requires Valid(m, Under(r), o) && k < Len(m) && Len(m) >= 2 && CutSafe(m, k) && ax == AxisOf(m.b)
    ensures Valid(WithFirst(CutRun(m, k, o), false), Rest(ax, r), o) && CutRun(m, k, o).b.first
  {
    assert Len(m.next) > 0;
    ToRest(m, Under(r), ax, o);
    CutRunValid(WithFirst(m, false), k, ax, r, o);
    CutAnyFirst(m, k, o);
  }

  /** Whether the sequence is marked as one does not matter to the cut. */
  lemma CutAnyFirst(m: Menu, k: nat, o: Area)
    requires k < Len(m) && Len(m) >= 2 && CutSafe(m, k)
    ensures Len(WithFirst(m, false)) == Len(m) && CutSafe(WithFirst(m, false), k)
    ensures WithFirst(CutRun(m, k, o), false) == WithFirst(CutRun(WithFirst(m, false), k, o), false)
    ensures k == 0 || m.b.first ==> CutRun(m, k, o).b.first
  {
  }

  /** A sequence that is still one stays under its owner. */
  lemma CutLeavesRun(s: Menu, p: Place, k: nat, o: Area)
    requires Valid(s, p, o) && s.Node? && k < Len(s.u) && Len(s.u) >= 2 && CutSafe(s.u, k)
    requires CutRun(s.u, k, o).next.Node?
    ensures Valid(s.(u := CutRun(s.u, k, o)), p, o)
  {
    var ax, r := AxisOf(s.u.b), CutRun(s.u, k, o);
    CutSequenceValid(s.u, k, ax, s.b.rect, o);
    FromRest(WithFirst(r, false), Under(s.b.rect), ax, o);
    ReplaceUnder(s, p, s.b, r, o);
  }

  /** The last button of a sequence fills the owner, and hands its contents to it. */
  lemma CutLeavesOne(s: Menu, p: Place, k: nat, b: Button, o: Area)
    requires Valid(s, p, o) && s.Node? && k < Len(s.u) && Len(s.u) >= 2 && CutSafe(s.u, k)
    requires CutRun(s.u, k, o).next.Nil?
    requires b == s.b.(style := b.style, rv := b.rv, clear := b.clear, caption := b.caption)
    ensures Valid(Node(b, CutRun(s.u, k, o).u, s.next), p, o)
  {
    var ax, r := AxisOf(s.u.b), CutRun(s.u, k, o);
    CutSequenceValid(s.u, k, ax, s.b.rect, o);
    LoneFills(WithFirst(r, false), ax, s.b.rect, o);
    ReplaceUnder(s, p, b, r.u, o);
  }

  lemma LoneFills(m: Menu, ax: Axis, r: Rect, o: Area)
    requires m.Node? && m.next.Nil? && Valid(m, Rest(ax, r), o)
    ensures m.b.rect == r && Valid(m.u, Under(r), o)
  {
    assert Valid(m.next, Rest(ax, Beyond(m.b.rect, ax, r)), o);
  }

  lemma SequenceUnder(m: Menu, r: Rect, o: Area)
    requires Valid(m, Under(r), o) && m.Node? && m.next.Node?
    ensures Len(m) >= 2 && Member(m.b, AxisOf(m.b))
  {
    assert Len(m.next) > 0;
  }

  /** Cutting keeps the invariant, and the cut button's submenu still tiles it. */
  lemma CutUnderValid(s: Menu, p: Place, k: nat, o: Area)
    requires Valid(s, p, o) && s.Node? && k < Len(s.u) && CutUnderSafe(s, k)
    ensures Valid(CutUnder(s, k, o), p, o) && ValidPiece(Piece(s.u, k), o)
  {
    PieceValid(s.u, k, Under(s.b.rect), o);
    if s.u.next.Nil? {
      ReplaceUnder(s, p, s.b, Nil, o);
    } else {
      SequenceUnder(s.u, s.b.rect, o);
      if CutRun(s.u, k, o).next.Node? {
        CutLeavesRun(s, p, k, o);
      } else {
        CutLeavesOne(s, p, k, CutUnder(s, k, o).b, o);
      }
    }
  }

  /** A button may get other contents as long as its place, flags and submenu agree. */
  lemma ReplaceUnder(s: Menu, p: Place, b: Button, u: Menu, o: Area)
    requires Valid(s, p, o) && s.Node? && Valid(u, Under(s.b.rect), o)
    requires b == s.b.(style := b.style, rv := b.rv, clear := b.clear, caption := b.caption)
    ensures Valid(Node(b, u, s.next), p, o)
  {
  }

  // ---------------------------------------------------------------- paste

  lemma {:induction false} ScaleKeepsSafe(m: Menu, ax: Axis, num: int, den: int, d: int, o: Area)
    requires ScaleSafe(m, ax, den)
    ensures ScaleSafe(Scale(m, ax, num, den, o), ax.Other(), d) == ScaleSafe(m, ax.Other(), d)
    decreases Size(m), 2
  {
    if m.Node? && !m.b.free {
      if m.b.Runs(ax) {
        ScaleRunKeepsSafe(m, ax, m.b.On(ax).at, m.b.On(ax).at, 0, num, den, d, o);
      } else {
        ScaleCrossKeepsSafe(m, ax, num, den, d, o);
      }
    }
  }

  lemma {:induction false} ScaleRunKeepsSafe(m: Menu, ax: Axis, at: int, start: int, sum: int,
                                             num: int, den: int, d: int, o: Area)
    requires den != 0 && RunSafe(m, ax)
    ensures var m' := ScaleRun(m, ax, at, start, sum, num, den, o);
            RunSafe(m', ax.Other()) == RunSafe(m, ax.Other()) &&
            CrossSafe(m', ax.Other(), d) == CrossSafe(m, ax.Other(), d)
    decreases Size(m), 1
  {
    if m.Node? {
      var s := m.b.On(ax);
      var w := NewLen(sum + s.len, at, start, num, den);
      var v := MoveOn(m.u, ax, at - s.at, o);
      MoveOnKeepsSafe(m.u, ax, s.len, at - s.at, o);
      var cross := m.b.On(ax.Other()).len;
      MoveOnKeepsSafeOther(m.u, ax, cross, at - s.at, o);
      MoveOnKeepsSafeOther(m.u, ax, d, at - s.at, o);
      ScaleKeepsSafe(v, ax, w, s.len, cross, o);
      ScaleKeepsSafe(v, ax, w, s.len, d, o);
      ScaleRunKeepsSafe(m.next, ax, at + w, start, sum + s.len, num, den, d, o);
    }
  }

  lemma MoveOnKeepsSafeOther(m: Menu, ax: Axis, den: int, d: int, o: Area)
    ensures ScaleSafe(MoveOn(m, ax, d, o), ax.Other(), den) == ScaleSafe(m, ax.Other(), den)
  {
    if ax.H? { MoveKeepsSafe(m, V, den, d, 0, o); } else { MoveKeepsSafe(m, H, den, 0, d, o); }
  }

  lemma {:induction false} ScaleCrossKeepsSafe(m: Menu, ax: Axis, num: int, den: int, d: int, o: Area)
    requires den != 0 && CrossSafe(m, ax, den)
    ensures var m' := ScaleCross(m, ax, num, den, o);
            RunSafe(m', ax.Other()) == RunSafe(m, ax.Other()) &&
            CrossSafe(m', ax.Other(), d) == CrossSafe(m, ax.Other(), d)
    decreases Size(m), 1
  {
    if m.Node? {
      ScaleKeepsSafe(m.u, ax, num, den, m.b.On(ax.Other()).len, o);
      ScaleKeepsSafe(m.u, ax, num, den, d, o);
      ScaleCrossKeepsSafe(m.next, ax, num, den, d, o);
    }
  }

  predicate PasteSafe(c: Menu) {
    c.Node? && ScaleSafe(c.u, H, c.b.rect.h.len) && ScaleSafe(c.u, V, c.b.rect.v.len)
  }

  /** The submenu of a cut button `c`, fitted into a button with rectangle `r`. */
  function Fitted(c: Menu, r: Rect, o: Area): Menu
    requires PasteSafe(c)
  {
    var from := c.b.rect;
    var u := Move(c.u, r.h.at - from.h.at, r.v.at - from.v.at, o);
    MoveKeepsSafe(c.u, H, from.h.len, r.h.at - from.h.at, r.v.at - from.v.at, o);
    MoveKeepsSafe(c.u, V, from.v.len, r.h.at - from.h.at, r.v.at - from.v.at, o);
    ScaleKeepsSafe(u, H, r.h.len, from.h.len, from.v.len, o);
    Scale(Scale(u, H, r.h.len, from.h.len, o), V, r.v.len, from.v.len, o)
  }

  /** `bmpaste`: the selected button takes over the contents of the cut button `c`. */
  function Paste(s: Menu, c: Menu, o: Area): Menu
    requires s.Node? && PasteSafe(c)
  {
    Node(Inherit(s.b, c.b), Fitted(c, s.b.rect, o), s.next)
  }

  lemma ScaleToValid(u: Menu, r: Rect, ax: Axis, len: int, o: Area)
    requires Valid(u, Under(r), o) && Good(r, o) && ScaleSafe(u, ax, r.On(ax).len) && len >= 0
    ensures Valid(Scale(u, ax, len, r.On(ax).len, o), Under(r.With(ax, Span(r.On(ax).at, len))), o)
  {
    if r.On(ax).len > 0 {
      ScaleValid(u, r, ax, len, r.On(ax).len, o);
      DivExact(len, r.On(ax).len);
    }
  }

  lemma FittedValid(c: Menu, r: Rect, o: Area)
    requires ValidPiece(c, o) && PasteSafe(c) && Good(r, o)
    ensures Valid(Fitted(c, r, o), Under(r), o)
  {
    var from := c.b.rect;
    var dx, dy := r.h.at - from.h.at, r.v.at - from.v.at;
    var u := Move(c.u, dx, dy, o);
    MoveValid(c.u, from, dx, dy, o);
    MoveKeepsSafe(c.u, H, from.h.len, dx, dy, o);
    MoveKeepsSafe(c.u, V, from.v.len, dx, dy, o);
    ScaleKeepsSafe(u, H, r.h.len, from.h.len, from.v.len, o);
    ScaleToValid(u, from.Shift(dx, dy), H, r.h.len, o);
    ScaleToValid(Scale(u, H, r.h.len, from.h.len, o), Rect(r.h, Span(r.v.at, from.v.len)), V, r.v.len, o);
  }

  /** Pasting keeps the invariant, whatever the sizes of the cut and the target button. */
  lemma PasteValid(s: Menu, p: Place, c: Menu, o: Area)
    requires Valid(s, p, o) && s.Node? && ValidPiece(c, o) && PasteSafe(c)
    ensures Valid(Paste(s, c, o), p, o)
  {
    FittedValid(c, s.b.rect, o);
  }

  // ---------------------------------------------------------------- moving an edge

  /** The start of the first button of `m` is moved by `d`; its end stays. */
  function ShiftStart(m: Menu, ax: Axis, d: int, o: Area): (r: Menu)
    requires GrowSafe(m, ax)
    ensures r.Node?
  {
    var s := m.b.On(ax);
    Node(m.b.WithSpan(ax, Span(s.at + d, s.len - d)),
         MoveOn(Scale(m.u, ax, s.len - d, s.len, o), ax, d, o), m.next)
  }

  lemma ShiftStartKeepsContents(m: Menu, ax: Axis, d: int, o: Area)
    requires GrowSafe(m, ax) && Good(m.b.rect, o) && Valid(m.u, Under(m.b.rect), o)
    requires Good(ShiftStart(m, ax, d, o).b.rect, o)
    ensures Valid(ShiftStart(m, ax, d, o).u, Under(ShiftStart(m, ax, d, o).b.rect), o)
  {
    var s := m.b.On(ax);
    ScaleToValid(m.u, m.b.rect, ax, s.len - d, o);
    var v, r := Scale(m.u, ax, s.len - d, s.len, o), m.b.rect.With(ax, Span(s.at, s.len - d));
    if ax.H? { MoveValid(v, r, d, 0, o); } else { MoveValid(v, r, 0, d, o); }
  }

  /** How far the edge between a button of length `a` and the next one, `b`, is moved when
    * it is dragged to `x`.
    */
  function EdgeShift(a: Span, b: Span, x: int): int {
    Clamp(x, b.at - a.len + 3, b.at + b.len - 3) + 1 - b.at
  }

  predicate MoveEdgeSafe(s: Menu, ax: Axis) {
    s.Node? && s.next.Node? && GrowSafe(s, ax) && GrowSafe(s.next, ax)
  }

  /** The edge between the first two buttons of `s` is moved by `d`. */
  function MoveEdgeBy(s: Menu, ax: Axis, d: int, o: Area): Menu
    requires MoveEdgeSafe(s, ax)
  {
    var a := Resize(s, ax, s.b.On(ax).len + d, o);
    Node(a.b, a.u, ShiftStart(s.next, ax, d, o))
  }

  /** `bmmove` on the edge between the first two buttons of `s`. */
  function MoveEdge(s: Menu, ax: Axis, x: int, o: Area): Menu
    requires MoveEdgeSafe(s, ax)
  {
    MoveEdgeBy(s, ax, EdgeShift(s.b.On(ax), s.next.b.On(ax), x), o)
  }

  lemma MoveEdgeByValid(s: Menu, p: Place, ax: Axis, d: int, o: Area)
    requires Valid(s, p, o) && MoveEdgeSafe(s, ax) && Member(s.b, ax)
    requires -s.b.On(ax).len <= d <= s.next.b.On(ax).len
    ensures Valid(MoveEdgeBy(s, ax, d, o), p, o)
  {
    ToRest(s, p, ax, o);
    var n, sp := s.next, Space(p);
    var both := s.b.rect.With(ax, Span(s.b.On(ax).at, s.b.On(ax).len + n.b.On(ax).len));
    assert Valid(n, Rest(ax, Beyond(s.b.rect, ax, sp)), o);
    assert Beyond(both, ax, sp) == Beyond(n.b.rect, ax, Beyond(s.b.rect, ax, sp));
    ResizeKeepsContents(s, ax, s.b.On(ax).len + d, o);
    ShiftStartKeepsContents(n, ax, d, o);
    PairValid(MoveEdgeBy(s, ax, d, o), p, both, ax, s.b.On(ax).len + d, o);
  }

  /** Moving an edge keeps the invariant exactly when the two buttons are together at least
    * two units long.
    */
  lemma MoveEdgeValid(s: Menu, p: Place, ax: Axis, x: int, o: Area)
    requires Valid(s, p, o) && MoveEdgeSafe(s, ax) && Member(s.b, ax)
    ensures Valid(MoveEdge(s, ax, x, o), p, o) <==> s.b.On(ax).len + s.next.b.On(ax).len >= 2
  {
    ToRest(s, p, ax, o);
    assert Good(s.next.b.rect, o);
    EdgeShiftBounds(s.b.On(ax), s.next.b.On(ax), x);
    if s.b.On(ax).len + s.next.b.On(ax).len >= 2 {
      MoveEdgeByValid(s, p, ax, EdgeShift(s.b.On(ax), s.next.b.On(ax), x), o);
    }
  }

  lemma EdgeShiftBounds(a: Span, b: Span, x: int)
    requires a.len >= 0 && b.len >= 0
    ensures a.len + EdgeShift(a, b, x) >= 0 <==> a.len + b.len >= 2
    ensures b.len - EdgeShift(a, b, x) >= 2
  {
  }

  datatype Side = Start | End

  const MOST := 10000

  /** How far a side of an indivisible button is moved when it is dragged to `x`. */
  function SideShift(s: Span, side: Side, x: int, least: int): int {
    match side
    case Start => Clamp(x, least, s.at + s.len - 3) + 1 - s.at
    case End => Clamp(x, s.at + 3, MOST) + 1 - s.at - s.len
  }

  /** `bmmove` on an outer side of an indivisible button. */
  function MoveSide(s: Menu, ax: Axis, side: Side, x: int, o: Area): Menu
    requires GrowSafe(s, ax)
  {
    var d := SideShift(s.b.On(ax), side, x, Origin(o, ax));
    if side.Start? then ShiftStart(s, ax, d, o) else Resize(s, ax, s.b.On(ax).len + d, o)
  }

  /** Moving a side keeps the invariant unless the button is squeezed against the origin of
    * the editing area, or starts beyond the largest position the mouse can give.
    */
  lemma MoveSideValid(s: Menu, p: Place, ax: Axis, side: Side, x: int, o: Area)
    requires Valid(s, p, o) && GrowSafe(s, ax) && s.b.ndiv
    ensures Valid(MoveSide(s, ax, side, x, o), p, o) <==>
            if side.Start? then s.b.On(ax).End() >= Origin(o, ax) + 2 else s.b.On(ax).at <= MOST + 1
  {
    var m := MoveSide(s, ax, side, x, o);
    if Good(m.b.rect, o) {
      if side.Start? {
        ShiftStartKeepsContents(s, ax, SideShift(s.b.On(ax), side, x, Origin(o, ax)), o);
      } else {
        ResizeKeepsContents(s, ax, m.b.On(ax).len, o);
      }
    }
  }

  // ---------------------------------------------------------------- equal spacing

  predicate SpaceSafe(m: Menu, n: nat, ax: Axis)
    requires n <= Len(m)
  {
    n == 0 || (GrowSafe(m, ax) && SpaceSafe(m.next, n - 1, ax))
  }

  /** The loop of `equispace`: button `i` gets the room between two consecutive marks. */
  function SpaceRun(m: Menu, ax: Axis, mark: nat -> int, i: nat, n: nat, o: Area): Menu
    requires i <= n && n - i <= Len(m) && SpaceSafe(m, n - i, ax)
    decreases n - i
  {
    if i == n then m
    else
      var a := Relocate(m, ax, mark(i), mark(i + 1) - mark(i), o);
      Node(a.b, a.u, SpaceRun(m.next, ax, mark, i + 1, n, o))
  }

  function Marks(start: int, total: int, n: nat): nat -> int
    requires n > 0
  {
    i => start + TDiv(total * i, n)
  }

  /** `equispace` on the first `n` buttons of `s`. */
  function Equispace(s: Menu, n: nat, o: Area): Menu
    requires 2 <= n <= Len(s) && SpaceSafe(s, n, AxisOf(s.b))
  {
    var ax := AxisOf(s.b);
    SpaceRun(s, ax, Marks(s.b.On(ax).at, SumLen(s, n, ax), n), 0, n, o)
  }

  ghost predicate Rising(mark: nat -> int) { forall i: nat, j: nat :: i <= j ==> mark(i) <= mark(j) }

  lemma MarksFit(start: int, total: int, n: nat)
    requires n > 0 && total >= 0
    ensures var mark := Marks(start, total, n);
            mark(0) == start && mark(n) == start + total && Rising(mark)
  {
    var mark := Marks(start, total, n);
    forall i: nat, j: nat | i <= j ensures mark(i) <= mark(j) {
      DivMonotone(i, j, total, n);
      assert i * total == total * i && j * total == total * j;
    }
    DivExact(total, n);
    assert total * n == n * total;
  }

  /** One button between two marks, in front of a rest that begins at the second. */
  lemma SpaceStepValid(m: Menu, rest: Menu, ax: Axis, from: int, to: int, r: Rect, o: Area)
    requires m.Node? && Valid(m, Rest(ax, r), o) && GrowSafe(m, ax) && from <= to && Good(r.With(ax, Span(from, 0)), o)
    requires Valid(rest, Rest(ax, Beyond(m.b.rect, ax, r).With(ax, Span(to, r.On(ax).End() - to))), o)
    ensures var a := Relocate(m, ax, from, to - from, o);
            Valid(Node(a.b, a.u, rest), Rest(ax, r.With(ax, Span(from, r.On(ax).End() - from))), o)
  {
    var a := Relocate(m, ax, from, to - from, o);
    RelocateKeepsContents(m, ax, from, to - from, o);
    RunStepValid(m, Node(a.b, a.u, rest), ax, r, from, to - from, r.On(ax).End() - to, o);
  }

  lemma {:induction false} SpaceRunValid(m: Menu, ax: Axis, mark: nat -> int, i: nat, n: nat, r: Rect, o: Area)
    requires i <= n && n - i <= Len(m) && SpaceSafe(m, n - i, ax) && Valid(m, Rest(ax, r), o)
    requires Rising(mark)
    requires Good(r.With(ax, Span(mark(i), 0)), o)
    requires SumLen(m, n - i, ax) == mark(n) - r.On(ax).at
    ensures Valid(SpaceRun(m, ax, mark, i, n, o), Rest(ax, r.With(ax, Span(mark(i), r.On(ax).End() - mark(i)))), o)
    decreases n - i
  {
    if i < n {
      SpaceRunValid(m.next, ax, mark, i + 1, n, Beyond(m.b.rect, ax, r), o);
      SpaceStepValid(m, SpaceRun(m.next, ax, mark, i + 1, n, o), ax, mark(i), mark(i + 1), r, o);
    }
  }

  /** The run of an equal spacing, seen as a rest. */
  lemma SpacedRest(s: Menu, n: nat, ax: Axis, r: Rect, o: Area)
    requires s.Node? && Valid(WithFirst(s, false), Rest(ax, r), o) && 2 <= n <= Len(s) && SpaceSafe(s, n, ax)
    ensures Valid(SpaceRun(WithFirst(s, false), ax, Marks(s.b.On(ax).at, SumLen(s, n, ax), n), 0, n, o), Rest(ax, r), o)
  {
    var m, total := WithFirst(s, false), SumLen(s, n, ax);
    TakeDropValid(m, n, ax, r, o);
    assert SumLen(m, n, ax) == total;
    MarksFit(s.b.On(ax).at, total, n);
    SpaceRunValid(m, ax, Marks(s.b.On(ax).at, total, n), 0, n, r, o);
  }

  /** Equal spacing keeps the invariant: the buttons fill the same room as before. */
  lemma EquispaceValid(s: Menu, p: Place, n: nat, o: Area)
    requires Valid(s, p, o) && 2 <= n <= Len(s) && SpaceSafe(s, n, AxisOf(s.b))
    ensures Valid(Equispace(s, n, o), p, o)
  {
    var ax, m := AxisOf(s.b), WithFirst(s, false);
    assert Len(s.next) > 0;
    ToRest(s, p, ax, o);
    SpacedRest(s, n, ax, Space(p), o);
    var mark := Marks(s.b.On(ax).at, SumLen(s, n, ax), n);
    var e := SpaceRun(m, ax, mark, 0, n, o);
    assert e == WithFirst(Equispace(s, n, o), false);
    assert e.next == SpaceRun(m.next, ax, mark, 1, n, o);
    FromRest(e, p, ax, o);
  }

  // ---------------------------------------------------------------- submenus

  /** `bmndiv` as the two commands that add a submenu use it. */
  function AddSubmenu(s: Menu, r: Rect, free: bool, rv: nat): Menu
    requires s.Node? && s.u.Nil?
  {
    s.(u := Node(Blank(r, rv).(first := true, ndiv := true, free := free), Nil, Nil))
  }

  function FreeSpan(a: int, b: int, least: int): Span {
    var at, len := if a < b then a else b, if a < b then b - a else a - b;
    Span(if at < least then least else at, if len < 10 then 10 else len)
  }

  /** The rectangle `addsubbox` makes of two corners. */
  function FreeRect(x1: int, y1: int, x2: int, y2: int, o: Area): (r: Rect)
    ensures Good(r, o)
  {
    Rect(FreeSpan(x1, x2, o.x), FreeSpan(y1, y2, o.y))
  }

  lemma AddSubmenuValid(s: Menu, p: Place, r: Rect, free: bool, rv: nat, o: Area)
    requires Valid(s, p, o) && s.Node? && s.u.Nil? && Good(r, o)
    ensures Valid(AddSubmenu(s, r, free, rv), p, o)
  {
  }
}
