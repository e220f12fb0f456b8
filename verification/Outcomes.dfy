/** What each edit does, in terms of what the user chose: where the pieces and edges come to lie, which button gets the
  * room, and what becomes of the contents (med3/bmdiv.c, med3/bmenu.c, med3/bmstack.c, med3/box.c).
  */
module Outcomes {
  import opened MenuTree
  import opened Scaling
  import opened ScalingBounds
  import opened Placement
  import opened Edits
  import opened Resizes
  import opened FirstEdge

  // ---------------------------------------------------------------- one button

  /** `y` is the place from `lo` to `hi` that is nearest to `x`; when there is none it is `hi`. */
  predicate Nearest(x: int, y: int, lo: int, hi: int) {
    if lo > hi then y == hi
    else lo <= y <= hi && (lo <= x <= hi ==> y == x) && (x < lo ==> y == lo) && (x > hi ==> y == hi)
  }

  lemma ClampNearest(x: int, lo: int, hi: int)
    ensures Nearest(x, Clamp(x, lo, hi), lo, hi)
  {
  }

  /** What is under `b` is under `b'` when that has another place or length on `ax`: it goes with the button, every part
    * gets the floor or the ceiling of its share, and nothing else changes.
    */
  predicate Refitted(u: Menu, u': Menu, b: Button, b': Button, ax: Axis, o: Area) {
    && Bones(u') == Bones(u) && SameOn(u, u', ax.Other()) && GoesWith(u, u', b, b', ax, o)
    && (b.On(ax).len > 0 ==> Fair(u, u', ax, b'.On(ax).len, b.On(ax).len))
  }

  /** The first button of `m` has the span `s`, its contents are fitted into it, and what follows it is as it was. */
  predicate Respanned(m: Menu, k: Menu, ax: Axis, s: Span, o: Area) {
    && m.Node? && k.Node? && k.b == m.b.WithSpan(ax, s) && k.next == m.next
    && Refitted(m.u, k.u, m.b, k.b, ax, o)
  }

  lemma ScaleRefits(u: Menu, b: Button, b': Button, ax: Axis, o: Area)
    requires Valid(u, Under(b.rect), o) && Good(b.rect, o) && ScaleSafe(u, ax, b.On(ax).len)
    requires b'.On(ax).at == b.On(ax).at && b'.On(ax).len >= 0
    ensures Refitted(u, Scale(u, ax, b'.On(ax).len, b.On(ax).len, o), b, b', ax, o)
  {
    var num, den := b'.On(ax).len, b.On(ax).len;
    ScaleBones(u, ax, num, den, o);
    if den > 0 {
      ScaleRides(u, b.rect, ax, num, den, o);
      ScaleFair(u, b.rect, ax, num, den, o);
    } else {
      ValidWithin(u, Under(b.rect), o, o);
      DriftsSelf(u, ax, true, o);
      DriftsRides(u, u, ax, true, o);
    }
  }

  lemma ResizeDoes(m: Menu, ax: Axis, len: int, o: Area)
    requires GrowSafe(m, ax) && Good(m.b.rect, o) && Valid(m.u, Under(m.b.rect), o) && len >= 0
    ensures Respanned(m, Resize(m, ax, len, o), ax, Span(m.b.On(ax).at, len), o)
  {
    ScaleRefits(m.u, m.b, Resize(m, ax, len, o).b, ax, o);
  }

  /** What was moved with its owner and then scaled in it. */
  lemma MovedThenScaled(u: Menu, v: Menu, k: Menu, b: Button, c: Button, b': Button, ax: Axis, o: Area)
    requires Bones(v) == Bones(u) && SameOn(u, v, ax.Other()) && SameLengths(u, v, ax) && GoesWith(u, v, b, c, ax, o)
    requires Refitted(v, k, c, b', ax, o) && c == b.WithSpan(ax, Span(b'.On(ax).at, b.On(ax).len))
    requires u.Node? ==> v.b.On(ax).at >= Origin(o, ax)
    ensures Refitted(u, k, b, b', ax, o)
  {
    SameOnTwice(u, v, k, ax.Other());
    if b.On(ax).len > 0 {
      SameLengthsBack(u, v, ax);
      FairFrom(v, u, k, ax, b'.On(ax).len, b.On(ax).len);
    }
  }

  lemma {:induction false} SameLengthsBack(m: Menu, k: Menu, ax: Axis)
    requires SameLengths(m, k, ax)
    ensures SameLengths(k, m, ax)
  {
    if m.Node? {
      SameLengthsBack(m.u, k.u, ax);
      SameLengthsBack(m.next, k.next, ax);
    }
  }

  /** A submenu moved along with its owner. */
  lemma MovedWith(u: Menu, b: Button, c: Button, ax: Axis, o: Area)
    requires Valid(u, Under(b.rect), o) && c == b.WithSpan(ax, Span(c.On(ax).at, b.On(ax).len)) && Good(c.rect, o)
    ensures var v := MoveOn(u, ax, c.On(ax).at - b.On(ax).at, o);
            && Bones(v) == Bones(u) && SameOn(u, v, ax.Other()) && SameLengths(u, v, ax) && GoesWith(u, v, b, c, ax, o)
            && Valid(v, Under(c.rect), o) && (u.Node? ==> v.b.On(ax).at >= Origin(o, ax))
  {
    var d := c.On(ax).at - b.On(ax).at;
    ValidWithin(u, Under(b.rect), o, o);
    MoveOnPlaces(u, ax, d, d >= 0, o);
    DriftsRides(u, MoveOn(u, ax, d, o), ax, d >= 0, o);
    MoveOnBones(u, ax, d, o);
    if ax.H? { MoveValid(u, b.rect, d, 0, o); } else { MoveValid(u, b.rect, 0, d, o); }
    assert c.rect == if ax.H? then b.rect.Shift(d, 0) else b.rect.Shift(0, d);
  }

  lemma RelocateDoes(m: Menu, ax: Axis, at: int, len: int, o: Area)
    requires GrowSafe(m, ax) && Good(m.b.rect, o) && Valid(m.u, Under(m.b.rect), o)
    requires Good(m.b.rect.With(ax, Span(at, len)), o)
    ensures Respanned(m, Relocate(m, ax, at, len, o), ax, Span(at, len), o)
  {
    var s := m.b.On(ax);
    var c, k := m.b.WithSpan(ax, Span(at, s.len)), Relocate(m, ax, at, len, o);
    var v := MoveOn(m.u, ax, at - s.at, o);
    MoveOnKeepsSafe(m.u, ax, s.len, at - s.at, o);
    MovedWith(m.u, m.b, c, ax, o);
    ScaleRefits(v, c, k.b, ax, o);
    MovedThenScaled(m.u, v, k.u, m.b, c, k.b, ax, o);
  }

  /** What was scaled in its owner and then moved with it. */
  lemma ScaledThenMoved(u: Menu, v: Menu, k: Menu, b: Button, c: Button, b': Button, ax: Axis, o: Area)
    requires Refitted(u, v, b, c, ax, o) && c.On(ax).at == b.On(ax).at && c.On(ax).len == b'.On(ax).len
    requires Bones(k) == Bones(v) && SameOn(v, k, ax.Other()) && SameLengths(v, k, ax) && GoesWith(v, k, c, b', ax, o)
    requires u.Node? ==> u.b.On(ax).at >= Origin(o, ax)
    ensures Refitted(u, k, b, b', ax, o)
  {
    SameOnTwice(u, v, k, ax.Other());
    if b.On(ax).len > 0 { FairLen(u, v, k, ax, b'.On(ax).len, b.On(ax).len); }
  }

  lemma ShiftStartDoes(m: Menu, ax: Axis, d: int, o: Area)
    requires GrowSafe(m, ax) && Good(m.b.rect, o) && Valid(m.u, Under(m.b.rect), o)
    requires Good(ShiftStart(m, ax, d, o).b.rect, o)
    ensures Respanned(m, ShiftStart(m, ax, d, o), ax, Span(m.b.On(ax).at + d, m.b.On(ax).len - d), o)
  {
    var s, k := m.b.On(ax), ShiftStart(m, ax, d, o);
    var c := m.b.WithSpan(ax, Span(s.at, s.len - d));
    var v := Scale(m.u, ax, s.len - d, s.len, o);
    ScaleRefits(m.u, m.b, c, ax, o);
    ScaleToValid(m.u, m.b.rect, ax, s.len - d, o);
    MovedWith(v, c, k.b, ax, o);
    ValidWithin(m.u, Under(m.b.rect), o, o);
    ScaledThenMoved(m.u, v, k.u, m.b, c, k.b, ax, o);
  }

  // ---------------------------------------------------------------- divide

  predicate Empty(m: Menu, rv: nat) {
    m.Node? && m.u.Nil? && !m.b.clear && m.b.rv == rv && m.b.style == PLAIN && m.b.caption == ""
  }

  predicate SameLabel(s: Menu, k: Menu)
    requires s.Node?
  {
    k.Node? && !k.b.clear && k.b.rv == s.b.rv && k.b.style == s.b.style && k.b.caption == s.b.caption
  }

  /** `k` carries on button `s`: its label and its contents. */
  predicate Carries(s: Menu, k: Menu, ax: Axis, o: Area)
    requires s.Node?
  {
    SameLabel(s, k) && Refitted(s.u, k.u, s.b, k.b, ax, o)
  }

  /** `d` and the button after it are the pieces of `s`, cut as near to `x` as three units from either end allow. The
    * piece on the side where the button was pressed is the new one, and the other carries on.
    */
  predicate Pieces(s: Menu, d: Menu, ax: Axis, press: int, x: int, rv: nat, o: Area)
    requires s.Node?
  {
    && d.Node? && d.next.Node?
    && var span, cut := s.b.On(ax), d.b.On(ax).End() - 1;
    && Nearest(x, cut, span.at + 3, span.at + span.len - 4)
    && d.b.rect == s.b.rect.With(ax, Span(span.at, cut + 1 - span.at))
    && d.next.b.rect == s.b.rect.With(ax, Span(cut + 1, span.End() - cut - 1))
    && if 2 * (press + 1) <= span.len then Empty(d, rv) && Carries(s, d.next, ax, o)
       else Carries(s, d, ax, o) && Empty(d.next, rv)
  }

  /** A button along the other direction, or an indivisible one, becomes transparent around the pieces. Any other makes
    * room for them in its own sequence.
    */
  predicate Divided(s: Menu, k: Menu, ax: Axis, press: int, x: int, rv: nat, o: Area)
    requires s.Node?
  {
    if s.b.Runs(ax.Other()) || s.b.ndiv then
      && k.Node? && k.b == s.b.(clear := true, rv := 0, style := PLAIN, caption := "") && k.next == s.next
      && Pieces(s, k.u, ax, press, x, rv, o) && k.u.next.next.Nil?
    else
      Pieces(s, k, ax, press, x, rv, o) && k.next.next == s.next
  }

  lemma DivideDoes(s: Menu, p: Place, ax: Axis, press: int, x: int, rv: nat, o: Area)
    requires Valid(s, p, o) && s.Node? && ScaleSafe(s.u, ax, s.b.On(ax).len) && s.b.On(ax).len >= 3 && !s.b.clear
    ensures Divided(s, Divide(s, ax, press, x, rv, o), ax, press, x, rv, o)
  {
    var d := Divide(s, ax, press, x, rv, o);
    if GoesUnder(s.b, ax) { PiecesDo(s, p, d.u, ax, press, x, rv, o); } else { PiecesDo(s, p, d, ax, press, x, rv, o); }
  }

  /** The pieces themselves. */
  lemma PiecesAre(s: Menu, d: Menu, ax: Axis, press: int, x: int, rv: nat, c: int, o: Area)
    requires s.Node? && ScaleSafe(s.u, ax, s.b.On(ax).len) && !s.b.clear && c == CutAt(s.b.On(ax), x)
    requires var k := Divide(s, ax, press, x, rv, o); d == if GoesUnder(s.b, ax) then k.u else k
    ensures d.Node? && d.next.Node? && d.b.rect == PieceRect(s.b.rect, ax, 0, c)
    ensures d.next.b.rect == PieceRect(s.b.rect, ax, c, s.b.On(ax).len)
    ensures press < TDiv(s.b.On(ax).len, 2) ==>
              Empty(d, rv) && SameLabel(s, d.next) && d.next.u == HighContents(s.u, ax, s.b.On(ax).len, c, true, o)
    ensures press >= TDiv(s.b.On(ax).len, 2) ==>
              Empty(d.next, rv) && SameLabel(s, d) && d.u == LowContents(s.u, ax, s.b.On(ax).len, c, false, o)
  {
  }

  lemma PiecesDo(s: Menu, p: Place, d: Menu, ax: Axis, press: int, x: int, rv: nat, o: Area)
    requires Valid(s, p, o) && s.Node? && ScaleSafe(s.u, ax, s.b.On(ax).len) && s.b.On(ax).len >= 3 && !s.b.clear
    requires var k := Divide(s, ax, press, x, rv, o); d == if GoesUnder(s.b, ax) then k.u else k
    ensures Pieces(s, d, ax, press, x, rv, o)
  {
    var span, c := s.b.On(ax), CutAt(s.b.On(ax), x);
    ClampNearest(x, span.at + 3, span.at + span.len - 4);
    PiecesAre(s, d, ax, press, x, rv, c, o);
    if press < TDiv(span.len, 2) {
      HighCarries(s, d.next, ax, c, o);
    } else {
      LowCarries(s, d, ax, c, o);
    }
    PiecesJoined(s, d, ax, press, x, rv, c, o);
  }

  lemma PiecesJoined(s: Menu, d: Menu, ax: Axis, press: int, x: int, rv: nat, c: int, o: Area)
    requires s.Node? && s.b.On(ax).len >= 3 && d.Node? && d.next.Node?
    requires Nearest(x, s.b.On(ax).at + c - 1, s.b.On(ax).at + 3, s.b.On(ax).End() - 4)
    requires d.b.rect == PieceRect(s.b.rect, ax, 0, c) && d.next.b.rect == PieceRect(s.b.rect, ax, c, s.b.On(ax).len)
    requires if press < s.b.On(ax).len / 2 then Empty(d, rv) && Carries(s, d.next, ax, o)
             else Carries(s, d, ax, o) && Empty(d.next, rv)
    ensures Pieces(s, d, ax, press, x, rv, o)
  {
  }

  lemma LowCarries(s: Menu, k: Menu, ax: Axis, c: int, o: Area)
    requires s.Node? && Good(s.b.rect, o) && Valid(s.u, Under(s.b.rect), o) && GrowSafe(s, ax) && c >= 0
    requires SameLabel(s, k)
    requires k.b.On(ax) == Span(s.b.On(ax).at, c) && k.u == LowContents(s.u, ax, s.b.On(ax).len, c, false, o)
    ensures Carries(s, k, ax, o)
  {
    ResizeDoes(s, ax, c, o);
    assert k.u == Resize(s, ax, c, o).u;
  }

  lemma HighCarries(s: Menu, k: Menu, ax: Axis, c: int, o: Area)
    requires s.Node? && Good(s.b.rect, o) && Valid(s.u, Under(s.b.rect), o) && GrowSafe(s, ax)
    requires 0 <= c <= s.b.On(ax).len
    requires SameLabel(s, k)
    requires k.b.On(ax) == Span(s.b.On(ax).at + c, s.b.On(ax).len - c)
    requires k.u == HighContents(s.u, ax, s.b.On(ax).len, c, true, o)
    ensures Carries(s, k, ax, o)
  {
    var at, len := s.b.On(ax).at + c, s.b.On(ax).len - c;
    RelocateDoes(s, ax, at, len, o);
    assert k.u == Relocate(s, ax, at, len, o).u;
  }

  // ---------------------------------------------------------------- edges and sides

  /** The edge between the first two buttons is as near to `x` as three units from the far end of either allow. */
  predicate EdgeMoved(s: Menu, k: Menu, ax: Axis, x: int, o: Area) {
    && s.Node? && s.next.Node? && k.Node? && k.next.Node?
    && var a, b, edge := s.b.On(ax), s.next.b.On(ax), k.next.b.On(ax).at - 1;
    && Nearest(x, edge, b.at - a.len + 3, b.at + b.len - 3)
    && Respanned(s, k.(next := s.next), ax, Span(a.at, edge + 1 - a.at), o)
    && Respanned(s.next, k.next, ax, Span(edge + 1, b.End() - edge - 1), o)
  }

  lemma MoveEdgeDoes(s: Menu, p: Place, ax: Axis, x: int, o: Area)
    requires Valid(s, p, o) && MoveEdgeSafe(s, ax) && Member(s.b, ax)
    requires s.b.On(ax).len + s.next.b.On(ax).len >= 2
    ensures EdgeMoved(s, MoveEdge(s, ax, x, o), ax, x, o)
  {
    var a, b := s.b.On(ax), s.next.b.On(ax);
    var d := EdgeShift(a, b, x);
    ToRest(s, p, ax, o);
    EdgeShiftBounds(a, b, x);
    ClampNearest(x, b.at - a.len + 3, b.at + b.len - 3);
    assert Valid(s.next, Rest(ax, Beyond(s.b.rect, ax, Space(p))), o) && b.at == a.End();
    MoveEdgeByDoes(s, MoveEdge(s, ax, x, o), ax, d, o);
    EdgeJoined(s, MoveEdge(s, ax, x, o), ax, x, d, o);
  }

  lemma MoveEdgeByDoes(s: Menu, k: Menu, ax: Axis, d: int, o: Area)
    requires MoveEdgeSafe(s, ax) && k == MoveEdgeBy(s, ax, d, o) && k.Node? && k.next.Node?
    requires Good(s.b.rect, o) && Valid(s.u, Under(s.b.rect), o)
    requires Good(s.next.b.rect, o) && Valid(s.next.u, Under(s.next.b.rect), o)
    requires 0 <= s.b.On(ax).len + d && d <= s.next.b.On(ax).len && s.next.b.On(ax).at == s.b.On(ax).End()
    ensures Respanned(s, k.(next := s.next), ax, Span(s.b.On(ax).at, s.b.On(ax).len + d), o)
    ensures Respanned(s.next, k.next, ax, Span(s.next.b.On(ax).at + d, s.next.b.On(ax).len - d), o)
  {
    ResizeDoes(s, ax, s.b.On(ax).len + d, o);
    ShiftStartDoes(s.next, ax, d, o);
    assert k.(next := s.next) == Resize(s, ax, s.b.On(ax).len + d, o);
  }

  lemma EdgeJoined(s: Menu, k: Menu, ax: Axis, x: int, d: int, o: Area)
    requires s.Node? && s.next.Node? && k.Node? && k.next.Node?
    requires s.next.b.On(ax).at == s.b.On(ax).End()
    requires Respanned(s, k.(next := s.next), ax, Span(s.b.On(ax).at, s.b.On(ax).len + d), o)
    requires Respanned(s.next, k.next, ax, Span(s.next.b.On(ax).at + d, s.next.b.On(ax).len - d), o)
    requires var a, b := s.b.On(ax), s.next.b.On(ax); Nearest(x, b.at + d - 1, b.at - a.len + 3, b.at + b.len - 3)
    ensures EdgeMoved(s, k, ax, x, o)
  {
  }

  /** A side of an indivisible button is as near to `x` as the limit and three units from the other side allow. */
  predicate SideMoved(s: Menu, k: Menu, ax: Axis, side: Side, x: int, o: Area) {
    && s.Node? && k.Node? &&
    var a := s.b.On(ax);
    match side
    case Start =>
      var y := k.b.On(ax).at - 1;
      Nearest(x, y, Origin(o, ax), a.End() - 3) && Respanned(s, k, ax, Span(y + 1, a.End() - y - 1), o)
    case End =>
      var y := k.b.On(ax).End() - 1;
      Nearest(x, y, a.at + 3, MOST) && Respanned(s, k, ax, Span(a.at, y + 1 - a.at), o)
  }

  lemma MoveSideDoes(s: Menu, p: Place, ax: Axis, side: Side, x: int, o: Area)
    requires Valid(s, p, o) && GrowSafe(s, ax) && s.b.ndiv
    requires if side.Start? then s.b.On(ax).End() >= Origin(o, ax) + 2 else s.b.On(ax).at <= MOST + 1
    ensures SideMoved(s, MoveSide(s, ax, side, x, o), ax, side, x, o)
  {
    if side.Start? { MoveStartDoes(s, ax, x, o); } else { MoveEndDoes(s, ax, x, o); }
  }

  lemma MoveStartDoes(s: Menu, ax: Axis, x: int, o: Area)
    requires GrowSafe(s, ax) && Good(s.b.rect, o) && Valid(s.u, Under(s.b.rect), o)
    requires s.b.On(ax).End() >= Origin(o, ax) + 2
    ensures SideMoved(s, MoveSide(s, ax, Start, x, o), ax, Start, x, o)
  {
    var a, d := s.b.On(ax), SideShift(s.b.On(ax), Start, x, Origin(o, ax));
    ClampNearest(x, Origin(o, ax), a.End() - 3);
    ShiftStartDoes(s, ax, d, o);
    StartJoined(s, ShiftStart(s, ax, d, o), ax, x, d, o);
  }

  lemma StartJoined(s: Menu, k: Menu, ax: Axis, x: int, d: int, o: Area)
    requires s.Node? && Respanned(s, k, ax, Span(s.b.On(ax).at + d, s.b.On(ax).len - d), o)
    requires Nearest(x, s.b.On(ax).at + d - 1, Origin(o, ax), s.b.On(ax).End() - 3)
    ensures SideMoved(s, k, ax, Start, x, o)
  {
  }

  lemma MoveEndDoes(s: Menu, ax: Axis, x: int, o: Area)
    requires GrowSafe(s, ax) && Good(s.b.rect, o) && Valid(s.u, Under(s.b.rect), o) && s.b.On(ax).at <= MOST + 1
    ensures SideMoved(s, MoveSide(s, ax, End, x, o), ax, End, x, o)
  {
    var a, d := s.b.On(ax), SideShift(s.b.On(ax), End, x, Origin(o, ax));
    ClampNearest(x, a.at + 3, MOST);
    ResizeDoes(s, ax, a.len + d, o);
    EndJoined(s, Resize(s, ax, a.len + d, o), ax, x, a.len + d, o);
  }

  lemma EndJoined(s: Menu, k: Menu, ax: Axis, x: int, len: int, o: Area)
    requires s.Node? && Respanned(s, k, ax, Span(s.b.On(ax).at, len), o)
    requires Nearest(x, s.b.On(ax).at + len - 1, s.b.On(ax).at + 3, MOST)
    ensures SideMoved(s, k, ax, End, x, o)
  {
  }

  /** Dragging the edge of the first button: the button's start is where the edge is, and the owner grows by as much. */
  predicate FirstEdgeMoved(s: Menu, k: Menu, ax: Axis, x: int) {
    && s.Node? && s.u.Node? && k.Node? && k.u.Node?
    && var a, b, edge := s.b.On(ax), s.u.b.On(ax), k.u.b.On(ax).at - 1;
    && Nearest(x, edge, b.at - a.len + 3, b.at + b.len - 3)
    && k.b == s.b.WithSpan(ax, Span(a.at, a.len + edge + 1 - b.at)) && k.next == s.next && Bones(k.u) == Bones(s.u)
  }

  lemma MoveFirstEdgeDoes(s: Menu, ax: Axis, x: int, o: Area)
    requires FirstEdgeSafe(s, ax, x, o)
    ensures FirstEdgeMoved(s, MoveFirstEdge(s, ax, x, o), ax, x)
  {
    var a, b := s.b.On(ax), s.u.b.On(ax);
    var d, f := EdgeShift(a, b, x), FirstShifted(s, ax, x, o);
    ClampNearest(x, b.at - a.len + 3, b.at + b.len - 3);
    ScaleBones(f, ax, a.len + d, a.len, o);
    ScaleBones(s.u.u, ax, b.len - d, b.len, o);
    MoveOnBones(Scale(s.u.u, ax, b.len - d, b.len, o), ax, d, o);
    assert f.b.On(ax).at == b.at + d && Bones(f) == Bones(s.u);
  }

  // ---------------------------------------------------------------- equal spacing

  /** Button `i` of `n` lies between its two of `n + 1` marks that divide the room as evenly as whole units allow, and
    * is the floor or the ceiling of an `n`th of it long. /
    */
  predicate Spaced(s: Menu, k: Menu, ax: Axis, start: int, total: int, i: nat, n: nat, o: Area)
    requires i < n
  {
    && s.Node? && k.Node? && k.b == s.b.WithSpan(ax, k.b.On(ax)) && Refitted(s.u, k.u, s.b, k.b, ax, o)
    && k.b.On(ax).at == start + total * i / n && k.b.On(ax).End() == start + total * (i + 1) / n
    && Near(k.b.On(ax).len, total, 1, n)
  }

  /** Button `g` alone, between `from` and `to`. */
  predicate Between(g: Menu, k: Menu, ax: Axis, from: int, to: int, o: Area) {
    g.Node? && k.Node? && k.b == g.b.WithSpan(ax, Span(from, to - from)) && Refitted(g.u, k.u, g.b, k.b, ax, o)
  }

  lemma {:induction false} SpaceRunAt(m: Menu, ax: Axis, mark: nat -> int, i: nat, n: nat, j: nat, r: Rect, o: Area)
    requires i <= j < n && n - i <= Len(m) && SpaceSafe(m, n - i, ax) && Valid(m, Rest(ax, r), o)
    requires Rising(mark) && Good(r.With(ax, Span(mark(i), 0)), o)
    ensures Len(SpaceRun(m, ax, mark, i, n, o)) == Len(m)
    ensures Between(Drop(m, j - i), Drop(SpaceRun(m, ax, mark, i, n, o), j - i), ax, mark(j), mark(j + 1), o)
    decreases n - i
  {
    SpaceRunRest(m, ax, mark, i, n, o);
    if j > i {
      SpaceRunAt(m.next, ax, mark, i + 1, n, j, Beyond(m.b.rect, ax, r), o);
    } else {
      RelocateDoes(m, ax, mark(i), mark(i + 1) - mark(i), o);
    }
  }

  lemma {:induction false} SpaceRunRest(m: Menu, ax: Axis, mark: nat -> int, i: nat, n: nat, o: Area)
    requires i <= n && n - i <= Len(m) && SpaceSafe(m, n - i, ax)
    ensures var k := SpaceRun(m, ax, mark, i, n, o);
            Len(k) == Len(m) && Drop(k, n - i) == Drop(m, n - i)
    decreases n - i
  {
    if i < n { SpaceRunRest(m.next, ax, mark, i + 1, n, o); }
  }

  lemma MarksAre(start: int, total: int, n: nat, i: nat)
    requires n > 0 && total >= 0 && i < n
    ensures var mark := Marks(start, total, n);
            && mark(i) == start + total * i / n && mark(i + 1) == start + total * (i + 1) / n
            && Near(mark(i + 1) - mark(i), total, 1, n)
  {
    assert total * (i + 1) == total * i + total && total * 1 == total;
    MulLe(0, i, total);
    assert i * total == total * i;
    DivSum(total * i, total, n);
  }

  /** Equal spacing is as equal as whole units allow, and leaves the buttons after the `n` alone. */
  lemma EquispaceDoes(s: Menu, p: Place, n: nat, i: nat, o: Area)
    requires Valid(s, p, o) && 2 <= n <= Len(s) && i < n && SpaceSafe(s, n, AxisOf(s.b))
    ensures var k, ax := Equispace(s, n, o), AxisOf(s.b);
            && Len(k) == Len(s) && Drop(k, n) == Drop(s, n)
            && Spaced(Drop(s, i), Drop(k, i), ax, s.b.On(ax).at, SumLen(s, n, ax), i, n, o)
  {
    var ax := AxisOf(s.b);
    assert Len(s.next) > 0;
    ToRest(s, p, ax, o);
    TakeDropValid(WithFirst(s, false), n, ax, Space(p), o);
    assert SumLen(WithFirst(s, false), n, ax) == SumLen(s, n, ax);
    SpacedRun(s, ax, Marks(s.b.On(ax).at, SumLen(s, n, ax), n), s.b.On(ax).at, SumLen(s, n, ax), n, i, Space(p), o);
  }

  lemma SpacedRun(s: Menu, ax: Axis, mark: nat -> int, start: int, total: int, n: nat, i: nat, r: Rect, o: Area)
    requires s.Node? && Valid(WithFirst(s, false), Rest(ax, r), o) && 2 <= n <= Len(s) && i < n && SpaceSafe(s, n, ax)
    requires mark == Marks(start, total, n) && total >= 0 && Good(r.With(ax, Span(start, 0)), o)
    ensures var k := SpaceRun(s, ax, mark, 0, n, o);
            && Len(k) == Len(s) && Drop(k, n) == Drop(s, n)
            && Spaced(Drop(s, i), Drop(k, i), ax, start, total, i, n, o)
  {
    var k := SpaceRun(s, ax, mark, 0, n, o);
    MarksFit(start, total, n);
    MarksAre(start, total, n, i);
    SpaceRunRest(s, ax, mark, 0, n, o);
    SpacedBetween(s, k, ax, mark, n, i, r, o);
    BetweenMarks(Drop(s, i), Drop(k, i), ax, mark(i), mark(i + 1), start, total, i, n, o);
  }

  lemma SpacedBetween(s: Menu, k: Menu, ax: Axis, mark: nat -> int, n: nat, i: nat, r: Rect, o: Area)
    requires s.Node? && Valid(WithFirst(s, false), Rest(ax, r), o) && 2 <= n <= Len(s) && i < n && SpaceSafe(s, n, ax)
    requires Rising(mark) && Good(r.With(ax, Span(mark(0), 0)), o) && k == SpaceRun(s, ax, mark, 0, n, o)
    requires Len(k) == Len(s)
    ensures Between(Drop(s, i), Drop(k, i), ax, mark(i), mark(i + 1), o)
  {
    if i == 0 {
      RelocateDoes(s, ax, mark(0), mark(1) - mark(0), o);
    } else {
      assert mark(0) <= mark(1) && Drop(s, i) == Drop(s.next, i - 1) && Drop(k, i) == Drop(k.next, i - 1);
      SpaceRunAt(s.next, ax, mark, 1, n, i, Beyond(s.b.rect, ax, r), o);
    }
  }

  lemma BetweenMarks(g: Menu, k: Menu, ax: Axis, from: int, to: int, start: int, total: int, i: nat, n: nat, o: Area)
    requires i < n && Between(g, k, ax, from, to, o)
    requires from == start + total * i / n && to == start + total * (i + 1) / n && Near(to - from, total, 1, n)
    ensures Spaced(g, k, ax, start, total, i, n, o)
  {
  }

  // ---------------------------------------------------------------- cut and paste

  /** Button `g` took over the room of its neighbour `c`. */
  predicate Regrown(g: Menu, c: Menu, k: Menu, ax: Axis, o: Area) {
    && g.Node? && c.Node? && k.Node?
    && var a, b := g.b.On(ax), c.b.On(ax);
    && k.b == g.b.(rect := g.b.rect.With(ax, Span(if b.at < a.at then b.at else a.at, a.len + b.len)),
                   first := k.b.first)
    && Refitted(g.u, k.u, g.b, k.b, ax, o)
  }

  /** Button `j` of a sequence as button `i` of the sequence without `k`: the next button grows when the first was cut,
    * and otherwise the one before. /
    */
  predicate LeftOver(m: Menu, k: nat, r: Menu, j: nat, ax: Axis, o: Area)
    requires k < Len(m) == Len(r) + 1 && j < Len(m) && j != k
  {
    var g, l := Drop(m, j), Drop(r, if j < k then j else j - 1);
    if j == (if k == 0 then 1 else k - 1) then Regrown(g, Drop(m, k), l, ax, o)
    else g.Node? && l.Node? && l.b == g.b && l.u == g.u
  }

  lemma {:induction false} CutRunDoes(m: Menu, p: Place, k: nat, j: nat, ax: Axis, o: Area)
    requires Valid(m, p, o) && k < Len(m) && Len(m) >= 2 && CutSafe(m, k) && Member(m.b, ax) && j < Len(m) && j != k
    ensures Len(CutRun(m, k, o)) == Len(m) - 1 && LeftOver(m, k, CutRun(m, k, o), j, ax, o)
    decreases k
  {
    ToRest(m, p, ax, o);
    MemberAxis(m.b, ax);
    assert Len(m.next) > 0;
    var q := Rest(ax, Beyond(m.b.rect, ax, Space(p)));
    if k <= 1 {
      MemberAxis(m.next.b, ax);
      CutNearDoes(m, k, j, ax, o);
    } else {
      assert Drop(m, k) == Drop(m.next, k - 1);
      CutRunDoes(m.next, q, k - 1, if j == 0 then 0 else j - 1, ax, o);
    }
  }

  lemma CutNearDoes(m: Menu, k: nat, j: nat, ax: Axis, o: Area)
    requires k <= 1 && Len(m) >= 2 && CutSafe(m, k) && j < Len(m) && j != k && m.next.Node?
    requires AxisOf(m.b) == ax && AxisOf(m.next.b) == ax && m.next.b.On(ax).at == m.b.On(ax).End()
    requires Good(m.b.rect, o) && Valid(m.u, Under(m.b.rect), o)
    requires Good(m.next.b.rect, o) && Valid(m.next.u, Under(m.next.b.rect), o)
    ensures Len(CutRun(m, k, o)) == Len(m) - 1 && LeftOver(m, k, CutRun(m, k, o), j, ax, o)
  {
    var a, b := m.b.On(ax), m.next.b.On(ax);
    var r := CutRun(m, k, o);
    CutRunLen(m, k, o);
    assert Drop(m, 1) == m.next && Drop(m, 0) == m && r.next == m.next.next;
    if j > 1 {
      FarLeft(m, k, r, j, ax, o);
    } else if k == 0 {
      RelocateDoes(m.next, ax, a.at, a.len + b.len, o);
      assert Regrown(m.next, m, r, ax, o);
    } else {
      ResizeDoes(m, ax, b.len + a.len, o);
      assert Regrown(m, m.next, r, ax, o);
    }
  }

  /** Beyond the first two nothing changes. */
  lemma FarLeft(m: Menu, k: nat, r: Menu, j: nat, ax: Axis, o: Area)
    requires k <= 1 && 2 <= j < Len(m) == Len(r) + 1 && m.next.Node? && r.Node? && r.next == m.next.next
    ensures LeftOver(m, k, r, j, ax, o)
  {
    assert Drop(m, j) == Drop(m.next.next, j - 2) && Drop(r, j - 1) == Drop(r.next, j - 2);
    assert Len(Drop(m, j)) > 0;
  }

  /** `bmcut`: the submenu is gone, or is the sequence without button `k`, or, when a single button would be left, the
    * owner takes over its label and its contents. /
    */
  predicate Parted(s: Menu, k: nat, r: Menu, ax: Axis, o: Area) {
    && s.Node? && r.Node? && k < Len(s.u) && r.next == s.next &&
    if Len(s.u) == 1 then r == s.(u := Nil)
    else if Len(s.u) > 2 then
      && r.b == s.b && Len(r.u) == Len(s.u) - 1
      && (forall j :: 0 <= j < Len(s.u) && j != k ==> LeftOver(s.u, k, r.u, j, ax, o))
    else
      var left := Drop(s.u, 1 - k);
      && left.Node? && r.b == s.b.(rv := r.b.rv, style := r.b.style, caption := r.b.caption, clear := left.b.clear)
      && (!left.b.clear ==> SameLabel(left, r))
      && Regrown(left, Drop(s.u, k), Node(left.b.(rect := r.b.rect), r.u, Nil), ax, o)
  }

  lemma CutUnderDoes(s: Menu, p: Place, k: nat, o: Area)
    requires Valid(s, p, o) && s.Node? && k < Len(s.u) && CutUnderSafe(s, k)
    ensures Parted(s, k, CutUnder(s, k, o), AxisOf(s.u.b), o)
  {
    var u := s.u;
    if u.next.Node? {
      assert Len(u.next) > 0;
      var ax, r := AxisOf(u.b), CutRun(u, k, o);
      var g := if k == 0 then 1 else 0;
      CutRunDoes(u, Under(s.b.rect), k, g, ax, o);
      assert Len(u) >= 2 && r.Node? && Len(r) == 1 + Len(r.next);
      if Len(u) == 2 {
        CutLeavesOneDoes(s, k, r, ax, o);
      } else {
        forall j | 0 <= j < Len(u) && j != k ensures LeftOver(u, k, r, j, ax, o) {
          CutRunDoes(u, Under(s.b.rect), k, j, ax, o);
        }
        assert r.next.Node? && CutUnder(s, k, o) == s.(u := r);
      }
    } else {
      assert Len(u) == 1 + Len(u.next);
    }
  }

  lemma TwoFill(u: Menu, r: Rect, ax: Axis, o: Area)
    requires u.Node? && Valid(u, Under(r), o) && Member(u.b, ax) && u.next.Node? && u.next.next.Nil?
    ensures u.next.b.rect.On(ax.Other()) == u.b.rect.On(ax.Other()) == r.On(ax.Other())
    ensures u.b.On(ax).at == r.On(ax).at && u.next.b.On(ax).at == u.b.On(ax).End()
    ensures u.b.On(ax).len + u.next.b.On(ax).len == r.On(ax).len && u.b.On(ax).len >= 0
  {
    ToRest(u, Under(r), ax, o);
    var q := Beyond(u.b.rect, ax, r);
    assert Valid(u.next, Rest(ax, q), o) && Valid(Nil, Rest(ax, Beyond(u.next.b.rect, ax, q)), o);
  }

  lemma CutLeavesOneDoes(s: Menu, k: nat, r: Menu, ax: Axis, o: Area)
    requires s.Node? && Valid(s.u, Under(s.b.rect), o) && Len(s.u) == 2 && k < 2 && CutUnderSafe(s, k)
    requires Member(s.u.b, ax) && r == CutRun(s.u, k, o) && r.Node? && r.next.Nil?
    requires Len(r) == 1 && LeftOver(s.u, k, r, 1 - k, ax, o)
    ensures Parted(s, k, CutUnder(s, k, o), ax, o)
  {
    var u := s.u;
    assert Len(u.next) == 1 && Len(u.next.next) == 0 && Drop(u, 1) == u.next && Drop(u, 0) == u && Drop(r, 0) == r;
    TwoFill(u, s.b.rect, ax, o);
    if k == 0 { LeavesOneRect(u.next, u, r, s.b.rect, ax, o); } else { LeavesOneRect(u, u.next, r, s.b.rect, ax, o); }
  }

  lemma LeavesOneRect(g: Menu, c: Menu, k: Menu, r: Rect, ax: Axis, o: Area)
    requires Regrown(g, c, k, ax, o) && g.b.rect.On(ax.Other()) == r.On(ax.Other())
    requires g.b.On(ax).len + c.b.On(ax).len == r.On(ax).len
    requires r.On(ax).at == if c.b.On(ax).at < g.b.On(ax).at then c.b.On(ax).at else g.b.On(ax).at
    ensures k.b.rect == r && Regrown(g, c, Node(g.b.(rect := r), k.u, Nil), ax, o)
  {
  }

  /** What is fitted into a button at another place with other lengths. */
  predicate Transplanted(u: Menu, u': Menu, b: Button, b': Button, o: Area) {
    && Bones(u') == Bones(u) && GoesWith(u, u', b, b', H, o) && GoesWith(u, u', b, b', V, o)
    && (b.rect.h.len > 0 ==> Fair(u, u', H, b'.rect.h.len, b.rect.h.len))
    && (b.rect.v.len > 0 ==> Fair(u, u', V, b'.rect.v.len, b.rect.v.len))
  }

  /** Scaled in both directions, one after the other. */
  lemma ScaledBoth(u: Menu, r: Rect, w: int, h: int, o: Area)
    requires Valid(u, Under(r), o) && Good(r, o) && ScaleSafe(u, H, r.h.len) && ScaleSafe(u, V, r.v.len)
    requires w >= 0 && h >= 0
    ensures ScaleSafe(Scale(u, H, w, r.h.len, o), V, r.v.len)
    ensures var b := Blank(r, 0);
            Transplanted(u, Scale(Scale(u, H, w, r.h.len, o), V, h, r.v.len, o), b,
                         Blank(Rect(Span(r.h.at, w), Span(r.v.at, h)), 0), o)
  {
    var b, c, d := Blank(r, 0), Blank(Rect(Span(r.h.at, w), r.v), 0), Blank(Rect(Span(r.h.at, w), Span(r.v.at, h)), 0);
    var v := Scale(u, H, w, r.h.len, o);
    ScaleKeepsSafe(u, H, w, r.h.len, r.v.len, o);
    ScaleRefits(u, b, c, H, o);
    ScaleToValid(u, r, H, w, o);
    ScaleRefits(v, c, d, V, o);
    BothRefitted(u, v, Scale(v, V, h, r.v.len, o), b, c, d, o);
  }

  lemma BothRefitted(u: Menu, v: Menu, k: Menu, b: Button, c: Button, d: Button, o: Area)
    requires Refitted(u, v, b, c, H, o) && Refitted(v, k, c, d, V, o)
    requires c.rect.h == d.rect.h && c.rect.v == b.rect.v && d.rect.v.at == b.rect.v.at && d.rect.h.at == b.rect.h.at
    requires u.Node? ==> u.b.rect.h.at >= o.x && u.b.rect.v.at >= o.y
    ensures Transplanted(u, k, b, d, o)
  {
    SameOnLen(v, k, H);
    SameOnLen(u, v, V);
    SameLengthsBack(u, v, V);
    if b.rect.h.len > 0 { FairLen(u, v, k, H, d.rect.h.len, b.rect.h.len); }
    if b.rect.v.len > 0 { FairFrom(v, u, k, V, d.rect.v.len, b.rect.v.len); }
  }

  /** `bmpaste`: the button keeps its place and flags, and gets the label and the contents of the cut one. */
  predicate Pasted(s: Menu, c: Menu, k: Menu, o: Area) {
    && s.Node? && c.Node? && k.Node? && k.next == s.next
    && k.b == s.b.(rv := c.b.rv, style := c.b.style, caption := c.b.caption)
    && Transplanted(c.u, k.u, c.b, k.b, o)
  }

  lemma PasteDoes(s: Menu, c: Menu, o: Area)
    requires s.Node? && Good(s.b.rect, o) && ValidPiece(c, o) && PasteSafe(c)
    ensures Pasted(s, c, Paste(s, c, o), o)
  {
    var from, r := c.b.rect, s.b.rect;
    var dx, dy := r.h.at - from.h.at, r.v.at - from.v.at;
    var v := Move(c.u, dx, dy, o);
    MoveKeepsSafe(c.u, H, from.h.len, dx, dy, o);
    MoveKeepsSafe(c.u, V, from.v.len, dx, dy, o);
    MoveValid(c.u, from, dx, dy, o);
    ScaledBoth(v, from.Shift(dx, dy), r.h.len, r.v.len, o);
    MoveBones(c.u, dx, dy, o);
    MovePlaces(c.u, dx, dy, o);
    MoveLen(c.u, dx, dy, H, o);
    MoveLen(c.u, dx, dy, V, o);
    MovedThenBoth(c.u, v, Fitted(c, r, o), c.b, Blank(from.Shift(dx, dy), 0), Paste(s, c, o).b, Blank(r, 0), o);
  }

  lemma MovedThenBoth(u: Menu, v: Menu, k: Menu, b: Button, c: Button, d: Button, e: Button, o: Area)
    requires Bones(v) == Bones(u) && SameLengths(u, v, H) && SameLengths(u, v, V)
    requires GoesWith(u, v, b, c, H, o) && GoesWith(u, v, b, c, V, o)
    requires Transplanted(v, k, c, e, o) && e.rect == d.rect
    requires c.rect == Rect(Span(d.rect.h.at, b.rect.h.len), Span(d.rect.v.at, b.rect.v.len))
    requires u.Node? ==> v.b.rect.h.at >= o.x && v.b.rect.v.at >= o.y
    ensures Transplanted(u, k, b, d, o)
  {
    SameLengthsBack(u, v, H);
    SameLengthsBack(u, v, V);
    if b.rect.h.len > 0 { FairFrom(v, u, k, H, d.rect.h.len, b.rect.h.len); }
    if b.rect.v.len > 0 { FairFrom(v, u, k, V, d.rect.v.len, b.rect.v.len); }
  }
}
