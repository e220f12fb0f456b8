/** What the buttons of a menu carry: return value, style and caption of every opaque
  * button, counted over the whole tree.  No command loses or invents a label unless its
  * purpose is to do so.
  */
module Labels {
  import opened MenuTree
  import opened Scaling
  import opened Edits
  import opened Resizes
  import opened FirstEdge

  datatype Label = Label(rv: nat, style: Style, caption: string)

  function LabelOf(b: Button): Label { Label(b.rv, b.style, b.caption) }

  function One(l: Label, f: Label -> bool): nat { if f(l) then 1 else 0 }

  /** The number of opaque buttons whose label satisfies `f`. */
  function Count(m: Menu, f: Label -> bool): nat {
    if m.Nil? then 0
    else (if m.b.clear then 0 else One(LabelOf(m.b), f)) + Count(m.u, f) + Count(m.next, f)
  }

  lemma {:induction false} MoveRunCount(m: Menu, dx: int, dy: int, o: Area, f: Label -> bool)
    ensures Count(MoveRun(m, dx, dy, o), f) == Count(m, f)
    decreases m, 0
  {
    if m.Node? {
      MoveCount(m.u, dx, dy, o, f);
      MoveRunCount(m.next, dx, dy, o, f);
    }
  }

  lemma {:induction false} MoveCount(m: Menu, dx: int, dy: int, o: Area, f: Label -> bool)
    ensures Count(Move(m, dx, dy, o), f) == Count(m, f)
    decreases m, 1
  {
    if m.Node? {
      MoveRunCount(m, ClampMove(dx, m.b.rect.h.at, o.x), ClampMove(dy, m.b.rect.v.at, o.y), o, f);
    }
  }

  lemma MoveOnCount(m: Menu, ax: Axis, d: int, o: Area, f: Label -> bool)
    ensures Count(MoveOn(m, ax, d, o), f) == Count(m, f)
  {
    if ax.H? { MoveCount(m, d, 0, o, f); } else { MoveCount(m, 0, d, o, f); }
  }

  lemma {:induction false} ScaleCount(m: Menu, ax: Axis, num: int, den: int, o: Area, f: Label -> bool)
    requires ScaleSafe(m, ax, den)
    ensures Count(Scale(m, ax, num, den, o), f) == Count(m, f)
    decreases Size(m), 1
  {
    if m.Node? && !m.b.free {
      if m.b.Runs(ax) {
        ScaleRunCount(m, ax, m.b.On(ax).at, m.b.On(ax).at, 0, num, den, o, f);
      } else {
        ScaleCrossCount(m, ax, num, den, o, f);
      }
    }
  }

  lemma {:induction false} ScaleRunCount(m: Menu, ax: Axis, at: int, start: int, sum: int, num: int, den: int,
                                         o: Area, f: Label -> bool)
    requires den != 0 && RunSafe(m, ax)
    ensures Count(ScaleRun(m, ax, at, start, sum, num, den, o), f) == Count(m, f)
    decreases Size(m), 0
  {
    if m.Node? {
      var s := m.b.On(ax);
      var w := NewLen(sum + s.len, at, start, num, den);
      MoveOnKeepsSafe(m.u, ax, s.len, at - s.at, o);
      MoveOnCount(m.u, ax, at - s.at, o, f);
      ScaleCount(MoveOn(m.u, ax, at - s.at, o), ax, w, s.len, o, f);
      ScaleRunCount(m.next, ax, at + w, start, sum + s.len, num, den, o, f);
    }
  }

  lemma {:induction false} ScaleCrossCount(m: Menu, ax: Axis, num: int, den: int, o: Area, f: Label -> bool)
    requires den != 0 && CrossSafe(m, ax, den)
    ensures Count(ScaleCross(m, ax, num, den, o), f) == Count(m, f)
    decreases Size(m), 0
  {
    if m.Node? {
      ScaleCount(m.u, ax, num, den, o, f);
      ScaleCrossCount(m.next, ax, num, den, o, f);
    }
  }

  // ---------------------------------------------------------------- commands

  lemma ContentsCount(u: Menu, ax: Axis, len: int, c: int, early: bool, o: Area, f: Label -> bool)
    requires ScaleSafe(u, ax, len)
    ensures Count(LowContents(u, ax, len, c, early, o), f) == if early then 0 else Count(u, f)
    ensures Count(HighContents(u, ax, len, c, early, o), f) == if early then Count(u, f) else 0
  {
    MoveOnKeepsSafe(u, ax, len, c, o);
    MoveOnCount(u, ax, c, o, f);
    ScaleCount(u, ax, c, len, o, f);
    ScaleCount(MoveOn(u, ax, c, o), ax, len - c, len, o, f);
  }

  lemma PairCount(d: Menu, f: Label -> bool)
    requires d.Node? && d.next.Node? && !d.b.clear && !d.next.b.clear
    ensures Count(d, f) == One(LabelOf(d.b), f) + Count(d.u, f) + One(LabelOf(d.next.b), f) +
                           Count(d.next.u, f) + Count(d.next.next, f)
  {
  }

  /** Dividing adds one blank label and keeps all others. */
  lemma DivideCount(s: Menu, ax: Axis, press: int, x: int, rv: nat, o: Area, f: Label -> bool)
    requires s.Node? && ScaleSafe(s.u, ax, s.b.On(ax).len) && !s.b.clear
    ensures Count(Divide(s, ax, press, x, rv, o), f) == Count(s, f) + One(Label(rv, PLAIN, ""), f)
  {
    if GoesUnder(s.b, ax) {
      DivideUnderCount(s, ax, press, x, rv, o, f);
    } else {
      DivideBesideCount(s, ax, press, x, rv, o, f);
    }
  }

  lemma DivideUnderCount(s: Menu, ax: Axis, press: int, x: int, rv: nat, o: Area, f: Label -> bool)
    requires s.Node? && ScaleSafe(s.u, ax, s.b.On(ax).len) && !s.b.clear && GoesUnder(s.b, ax)
    ensures Count(Divide(s, ax, press, x, rv, o), f) == Count(s, f) + One(Label(rv, PLAIN, ""), f)
  {
    var d, len := Divide(s, ax, press, x, rv, o), s.b.On(ax).len;
    ContentsCount(s.u, ax, len, CutAt(s.b.On(ax), x), press < TDiv(len, 2), o, f);
    PairCount(d.u, f);
  }

  lemma DivideBesideCount(s: Menu, ax: Axis, press: int, x: int, rv: nat, o: Area, f: Label -> bool)
    requires s.Node? && ScaleSafe(s.u, ax, s.b.On(ax).len) && !s.b.clear && !GoesUnder(s.b, ax)
    ensures Count(Divide(s, ax, press, x, rv, o), f) == Count(s, f) + One(Label(rv, PLAIN, ""), f)
  {
    var d, len := Divide(s, ax, press, x, rv, o), s.b.On(ax).len;
    ContentsCount(s.u, ax, len, CutAt(s.b.On(ax), x), press < TDiv(len, 2), o, f);
    PairCount(d, f);
  }

  lemma {:induction false} TakeDropCount(m: Menu, n: nat, f: Label -> bool)
    requires n <= Len(m)
    ensures Count(Take(m, n), f) + Count(Drop(m, n), f) == Count(m, f)
  {
    if n > 0 { TakeDropCount(m.next, n - 1, f); }
  }

  lemma {:induction false} AppendCount(m: Menu, n: Menu, f: Label -> bool)
    ensures Count(Append(m, n), f) == Count(m, f) + Count(n, f)
  {
    if m.Node? { AppendCount(m.next, n, f); }
  }

  /** Covering adds one blank label; a refused cover changes nothing. */
  lemma CoverCount(s: Menu, n: nat, rv: nat, f: Label -> bool)
    requires 1 <= n <= Len(s)
    ensures n > 1 ==> Count(Cover(s, n, rv), f) == Count(s, f) + One(Label(rv, PLAIN, ""), f)
    ensures n == 1 && s.b.clear ==> Count(Cover(s, n, rv), f) == Count(s, f) + One(Label(rv, s.b.style, ""), f)
    ensures n == 1 && !s.b.clear ==> Cover(s, n, rv) == s
  {
    if n > 1 {
      TakeDropCount(s, n, f);
    }
  }

  /** Uncovering removes the label of the uncovered button and no other. */
  lemma UncoverCount(s: Menu, f: Label -> bool)
    requires CanUncover(s) && !s.b.clear
    ensures Count(Uncover(s), f) + One(LabelOf(s.b), f) == Count(s, f)
  {
    AppendCount(WithFirst(s.u, s.b.first), s.next, f);
  }

  lemma RelocateCount(m: Menu, ax: Axis, at: int, len: int, o: Area, f: Label -> bool)
    requires GrowSafe(m, ax)
    ensures Count(Relocate(m, ax, at, len, o), f) == Count(m, f)
  {
    var s := m.b.On(ax);
    MoveOnKeepsSafe(m.u, ax, s.len, at - s.at, o);
    MoveOnCount(m.u, ax, at - s.at, o, f);
    ScaleCount(MoveOn(m.u, ax, at - s.at, o), ax, len, s.len, o, f);
  }

  lemma ResizeCount(m: Menu, ax: Axis, len: int, o: Area, f: Label -> bool)
    requires GrowSafe(m, ax)
    ensures Count(Resize(m, ax, len, o), f) == Count(m, f)
  {
    ScaleCount(m.u, ax, len, m.b.On(ax).len, o, f);
  }

  lemma ShiftStartCount(m: Menu, ax: Axis, d: int, o: Area, f: Label -> bool)
    requires GrowSafe(m, ax)
    ensures Count(ShiftStart(m, ax, d, o), f) == Count(m, f)
  {
    var s := m.b.On(ax);
    ScaleCount(m.u, ax, s.len - d, s.len, o, f);
    MoveOnCount(Scale(m.u, ax, s.len - d, s.len, o), ax, d, o, f);
  }

  lemma {:induction false} CutRunCount(m: Menu, k: nat, o: Area, f: Label -> bool)
    requires k < Len(m) && Len(m) >= 2 && CutSafe(m, k)
    ensures Count(CutRun(m, k, o), f) + Count(Piece(m, k), f) == Count(m, f)
  {
    if k == 0 {
      var ax := AxisOf(m.b);
      RelocateCount(m.next, ax, m.b.On(ax).at, m.b.On(ax).len + m.next.b.On(ax).len, o, f);
    } else if k == 1 {
      var ax := AxisOf(m.next.b);
      ResizeCount(m, ax, m.next.b.On(ax).len + m.b.On(ax).len, o, f);
      assert Drop(m, 1) == Drop(m.next, 0) == m.next;
    } else {
      CutRunCount(m.next, k - 1, o, f);
    }
  }

  /** A cut moves exactly the labels of the cut piece out of the menu; when a sequence
    * collapses, the label its opaque owner had is lost as well.
    */
  lemma CutUnderCount(s: Menu, k: nat, o: Area, f: Label -> bool)
    requires s.Node? && k < Len(s.u) && CutUnderSafe(s, k)
    ensures var lost := if Len(s.u) == 2 && !s.b.clear then One(LabelOf(s.b), f) else 0;
            Count(CutUnder(s, k, o), f) + Count(Piece(s.u, k), f) + lost == Count(s, f)
  {
    if s.u.next.Node? {
      assert Len(s.u) == 1 + Len(s.u.next) >= 2;
      CutRunLen(s.u, k, o);
      CutRunCount(s.u, k, o, f);
    }
  }

  lemma FittedCount(c: Menu, r: Rect, o: Area, f: Label -> bool)
    requires PasteSafe(c)
    ensures Count(Fitted(c, r, o), f) == Count(c.u, f)
  {
    var from := c.b.rect;
    var dx, dy := r.h.at - from.h.at, r.v.at - from.v.at;
    var u := Move(c.u, dx, dy, o);
    MoveCount(c.u, dx, dy, o, f);
    MoveKeepsSafe(c.u, H, from.h.len, dx, dy, o);
    MoveKeepsSafe(c.u, V, from.v.len, dx, dy, o);
    ScaleKeepsSafe(u, H, r.h.len, from.h.len, from.v.len, o);
    ScaleCount(u, H, r.h.len, from.h.len, o, f);
    ScaleCount(Scale(u, H, r.h.len, from.h.len, o), V, r.v.len, from.v.len, o, f);
  }

  /** Pasting replaces the labels of the selected button and its submenu by those of the
    * cut piece.
    */
  lemma PasteCount(s: Menu, c: Menu, o: Area, f: Label -> bool)
    requires s.Node? && PasteSafe(c) && !s.b.clear && !c.b.clear && c.next.Nil?
    ensures Count(Paste(s, c, o), f) + One(LabelOf(s.b), f) + Count(s.u, f) == Count(s, f) + Count(c, f)
  {
    FittedCount(c, s.b.rect, o, f);
  }

  lemma MoveEdgeCount(s: Menu, ax: Axis, x: int, o: Area, f: Label -> bool)
    requires MoveEdgeSafe(s, ax)
    ensures Count(MoveEdge(s, ax, x, o), f) == Count(s, f)
  {
    var d := EdgeShift(s.b.On(ax), s.next.b.On(ax), x);
    ResizeCount(s, ax, s.b.On(ax).len + d, o, f);
    ShiftStartCount(s.next, ax, d, o, f);
  }

  lemma MoveFirstEdgeCount(s: Menu, ax: Axis, x: int, o: Area, f: Label -> bool)
    requires FirstEdgeSafe(s, ax, x, o)
    ensures Count(MoveFirstEdge(s, ax, x, o), f) == Count(s, f)
  {
    var d, len := EdgeShift(s.b.On(ax), s.u.b.On(ax), x), s.b.On(ax).len;
    ShiftStartCount(s.u, ax, d, o, f);
    ScaleCount(FirstShifted(s, ax, x, o), ax, len + d, len, o, f);
  }

  lemma MoveSideCount(s: Menu, ax: Axis, side: Side, x: int, o: Area, f: Label -> bool)
    requires GrowSafe(s, ax)
    ensures Count(MoveSide(s, ax, side, x, o), f) == Count(s, f)
  {
    var d := SideShift(s.b.On(ax), side, x, Origin(o, ax));
    if side.Start? { ShiftStartCount(s, ax, d, o, f); } else { ResizeCount(s, ax, s.b.On(ax).len + d, o, f); }
  }

  lemma {:induction false} SpaceRunCount(m: Menu, ax: Axis, mark: nat -> int, i: nat, n: nat, o: Area, f: Label -> bool)
    requires i <= n && n - i <= Len(m) && SpaceSafe(m, n - i, ax)
    ensures Count(SpaceRun(m, ax, mark, i, n, o), f) == Count(m, f)
    decreases n - i
  {
    if i < n {
      RelocateCount(m, ax, mark(i), mark(i + 1) - mark(i), o, f);
      SpaceRunCount(m.next, ax, mark, i + 1, n, o, f);
    }
  }
}
