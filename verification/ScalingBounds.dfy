/** How good integer scaling is: every button gets the floor or the ceiling of its exact
  * share, and no product leaves the range of a 32-bit integer.
  */
module ScalingBounds {
  import opened MenuTree
  import opened Scaling

  // ---------------------------------------------------------------- fair shares

  /** `w` is the floor or the ceiling of `len * num / den`. */
  predicate Near(w: int, len: int, num: int, den: int) {
    den > 0 && var exact := len * num;
    w == exact / den || (w == exact / den + 1 && exact % den != 0)
  }

  lemma NearFloor(sum: int, len: int, num: int, den: int)
    requires den > 0
    ensures Near((sum + len) * num / den - sum * num / den, len, num, den)
  {
    var a, c := sum * num, len * num;
    assert (sum + len) * num == a + c;
    DivSum(a, c, den);
  }

  lemma DivSum(a: int, c: int, den: int)
    requires den > 0
    ensures var w := (a + c) / den - a / den;
            w == c / den || (w == c / den + 1 && c % den != 0)
  {
    var w, q := (a + c) / den - a / den, c / den;
    assert (a + c) / den * den + (a + c) % den == a / den * den + a % den + q * den + c % den;
    assert (w - q) * den == a % den + c % den - (a + c) % den;
    if w - q >= 2 {
      MulLe(2, w - q, den);
      assert false;
    }
    if w - q <= -1 {
      MulLe(w - q, -1, den);
      assert false;
    }
  }

  /** One step of the loop over a sequence, in numbers. */
  lemma StepBounds(sum: int, len: int, start: int, num: int, den: int)
    requires sum >= 0 && len >= 0 && num >= 0 && den > 0
    ensures var at := start + sum * num / den;
            var w := NewLen(sum + len, at, start, num, den);
            at >= start && w >= 0 && at + w == start + (sum + len) * num / den && Near(w, len, num, den)
  {
    StepNumbers(sum, len, start, num, den);
    NearFloor(sum, len, num, den);
  }

  /** `m'` is `m` with every button's length on `ax` scaled fairly: a button of a sequence
    * shares its owner's change, and hands its own change on to its submenu.
    */
  predicate Fair(m: Menu, m': Menu, ax: Axis, num: int, den: int)
    decreases m
  {
    if m.Nil? then m'.Nil?
    else
      m'.Node? &&
      if m.b.free then m'.b.On(ax).len == m.b.On(ax).len
      else
        var len, len' := m.b.On(ax).len, m'.b.On(ax).len;
        Near(len', len, num, den) && Fair(m.next, m'.next, ax, num, den) &&
        if m.b.Runs(ax) then len > 0 ==> Fair(m.u, m'.u, ax, len', len)
        else Fair(m.u, m'.u, ax, num, den)
  }

  lemma {:induction false} FairMoveRun(m: Menu, m': Menu, ax: Axis, num: int, den: int, dx: int, dy: int, o: Area)
    ensures Fair(MoveRun(m, dx, dy, o), m', ax, num, den) == Fair(m, m', ax, num, den)
    decreases m, 0
  {
    if m.Node? && m'.Node? {
      var len, len' := m.b.On(ax).len, m'.b.On(ax).len;
      FairMove(m.u, m'.u, ax, num, den, dx, dy, o);
      FairMove(m.u, m'.u, ax, len', len, dx, dy, o);
      FairMoveRun(m.next, m'.next, ax, num, den, dx, dy, o);
    }
  }

  lemma {:induction false} FairMove(m: Menu, m': Menu, ax: Axis, num: int, den: int, dx: int, dy: int, o: Area)
    ensures Fair(Move(m, dx, dy, o), m', ax, num, den) == Fair(m, m', ax, num, den)
    decreases m, 1
  {
    if m.Node? {
      FairMoveRun(m, m', ax, num, den, ClampMove(dx, m.b.rect.h.at, o.x), ClampMove(dy, m.b.rect.v.at, o.y), o);
    }
  }

  lemma FairMoveOn(m: Menu, m': Menu, ax: Axis, num: int, den: int, d: int, o: Area)
    ensures Fair(MoveOn(m, ax, d, o), m', ax, num, den) == Fair(m, m', ax, num, den)
  {
    if ax.H? { FairMove(m, m', ax, num, den, d, 0, o); } else { FairMove(m, m', ax, num, den, 0, d, o); }
  }

  /** At every level every button gets the floor or the ceiling of its share. */
  lemma {:induction false} ScaleFair(m: Menu, r: Rect, ax: Axis, num: int, den: int, o: Area)
    requires Valid(m, Under(r), o) && Good(r, o) && ScaleSafe(m, ax, den) && num >= 0 && den > 0
    ensures Fair(m, Scale(m, ax, num, den, o), ax, num, den)
    decreases Size(m), 2
  {
    if m.Node? && !m.b.free {
      if m.b.Runs(ax) {
        MemberAxis(m.b, ax);
        assert 0 * num / den == 0;
        ScaleRunFair(m, Under(r), ax, m.b.On(ax).at, m.b.On(ax).at, 0, num, den, o);
      } else {
        ScaleCrossFair(m, Under(r), ax, num, den, o);
      }
    }
  }

  lemma {:induction false} ScaleRunFair(m: Menu, p: Place, ax: Axis, at: int, start: int, sum: int,
                                        num: int, den: int, o: Area)
    requires Valid(m, p, o) && !p.Top? && RunSafe(m, ax) && num >= 0 && den > 0 && sum >= 0
    requires p.Rest? ==> p.ax == ax
    requires p.Under? ==> m.Node? && Member(m.b, ax)
    requires Good(Space(p).With(ax, Span(start, 0)), o) && at == start + sum * num / den
    ensures Fair(m, ScaleRun(m, ax, at, start, sum, num, den, o), ax, num, den)
    decreases Size(m), 1
  {
    if m.Node? {
      ToRest(m, p, ax, o);
      var s := m.b.On(ax);
      var w := NewLen(sum + s.len, at, start, num, den);
      StepBounds(sum, s.len, start, num, den);
      ScaleRunFair(m.next, Rest(ax, Beyond(m.b.rect, ax, Space(p))), ax, at + w, start, sum + s.len, num, den, o);
      RunNodeFair(m, ax, at, start, sum, num, den, o);
    }
  }

  lemma {:induction false} RunNodeFair(m: Menu, ax: Axis, at: int, start: int, sum: int, num: int, den: int, o: Area)
    requires m.Node? && !m.b.free && m.b.Runs(ax) && RunSafe(m, ax) && den > 0
    requires Valid(m.u, Under(m.b.rect), o) && Good(m.b.rect, o)
    requires var w := NewLen(sum + m.b.On(ax).len, at, start, num, den);
             && Near(w, m.b.On(ax).len, num, den) && Good(m.b.rect.With(ax, Span(at, w)), o)
             && Fair(m.next, ScaleRun(m.next, ax, at + w, start, sum + m.b.On(ax).len, num, den, o), ax, num, den)
    ensures Fair(m, ScaleRun(m, ax, at, start, sum, num, den, o), ax, num, den)
    decreases Size(m), 0
  {
    var s := m.b.On(ax);
    MoveOnKeepsSafe(m.u, ax, s.len, at - s.at, o);
    if s.len > 0 {
      ScaleMovedFair(m.u, m.b.rect, ax, at, NewLen(sum + s.len, at, start, num, den), o);
    }
    FairNode(m, ScaleRun(m, ax, at, start, sum, num, den, o), ax, num, den);
  }

  lemma FairNode(m: Menu, m': Menu, ax: Axis, num: int, den: int)
    requires m.Node? && m'.Node? && !m.b.free && m.b.Runs(ax)
    requires Near(m'.b.On(ax).len, m.b.On(ax).len, num, den) && Fair(m.next, m'.next, ax, num, den)
    requires m.b.On(ax).len > 0 ==> Fair(m.u, m'.u, ax, m'.b.On(ax).len, m.b.On(ax).len)
    ensures Fair(m, m', ax, num, den)
  {
  }

  lemma {:induction false} ScaleMovedFair(u: Menu, r: Rect, ax: Axis, at: int, w: int, o: Area)
    requires Valid(u, Under(r), o) && Good(r, o) && ScaleSafe(u, ax, r.On(ax).len) && r.On(ax).len > 0
    requires w >= 0 && Good(r.With(ax, Span(at, w)), o)
    ensures ScaleSafe(MoveOn(u, ax, at - r.On(ax).at, o), ax, r.On(ax).len)
    ensures Fair(u, Scale(MoveOn(u, ax, at - r.On(ax).at, o), ax, w, r.On(ax).len, o), ax, w, r.On(ax).len)
    decreases Size(u), 3
  {
    var len, d := r.On(ax).len, at - r.On(ax).at;
    var v, r' := MoveOn(u, ax, d, o), r.With(ax, Span(at, len));
    MoveOnKeepsSafe(u, ax, len, d, o);
    assert Valid(v, Under(r'), o) by {
      if ax.H? { MoveValid(u, r, d, 0, o); } else { MoveValid(u, r, 0, d, o); }
      assert r' == if ax.H? then r.Shift(d, 0) else r.Shift(0, d);
    }
    ScaleFair(v, r', ax, w, len, o);
    FairMoveOn(u, Scale(v, ax, w, len, o), ax, w, len, d, o);
  }

  lemma {:induction false} ScaleCrossFair(m: Menu, p: Place, ax: Axis, num: int, den: int, o: Area)
    requires Valid(m, p, o) && !p.Top? && CrossSafe(m, ax, den) && num >= 0 && den > 0
    requires p.Rest? ==> p.ax == ax.Other()
    requires m.Node? ==> !m.b.Runs(ax) && !m.b.free
    ensures Fair(m, ScaleCross(m, ax, num, den, o), ax, num, den)
    decreases Size(m), 1
  {
    if m.Node? {
      DivMonotone(0, m.b.On(ax).len, num, den);
      NearFloor(0, m.b.On(ax).len, num, den);
      ScaleFair(m.u, m.b.rect, ax, num, den, o);
      if m.next.Node? {
        var run := ax.Other();
        ScaleCrossFair(m.next, Rest(run, Beyond(m.b.rect, run, Space(p))), ax, num, den, o);
      }
    }
  }

  // ---------------------------------------------------------------- no overflow

  const INT_LIMIT := 0x8000_0000
  const SHORT_MAX := 32767

  predicate InInt(x: int) { 0 <= x < INT_LIMIT }

  /** Every product computed while scaling fits a 32-bit `int`. */
  predicate ScaleFits(m: Menu, ax: Axis, num: int, den: int, o: Area)
    requires ScaleSafe(m, ax, den)
    decreases Size(m), 1
  {
    m.Nil? || m.b.free ||
    if m.b.Runs(ax) then RunFits(m, ax, m.b.On(ax).at, m.b.On(ax).at, 0, num, den, o)
    else CrossFits(m, ax, num, den, o)
  }

  predicate RunFits(m: Menu, ax: Axis, at: int, start: int, sum: int, num: int, den: int, o: Area)
    requires den != 0 && RunSafe(m, ax)
    decreases Size(m), 0
  {
    m.Nil? ||
    (var s := m.b.On(ax);
     var w := NewLen(sum + s.len, at, start, num, den);
     MoveOnKeepsSafe(m.u, ax, s.len, at - s.at, o);
     InInt((sum + s.len) * num) && ScaleFits(MoveOn(m.u, ax, at - s.at, o), ax, w, s.len, o) &&
     RunFits(m.next, ax, at + w, start, sum + s.len, num, den, o))
  }

  predicate CrossFits(m: Menu, ax: Axis, num: int, den: int, o: Area)
    requires den != 0 && CrossSafe(m, ax, den)
    decreases Size(m), 0
  {
    m.Nil? ||
    (InInt(m.b.On(ax).len * num) && ScaleFits(m.u, ax, num, den, o) && CrossFits(m.next, ax, num, den, o))
  }

  /** No bound submenu is longer on `ax` than the button it belongs to. */
  predicate Snug(m: Menu, ax: Axis, most: int) {
    m.Nil? ||
    ((m.b.ndiv && !m.b.free ==> m.b.On(ax).len <= most) && Snug(m.u, ax, m.b.On(ax).len) && Snug(m.next, ax, most))
  }

  lemma {:induction false} SnugMoveRun(m: Menu, ax: Axis, most: int, dx: int, dy: int, o: Area)
    ensures Snug(MoveRun(m, dx, dy, o), ax, most) == Snug(m, ax, most)
    decreases m, 0
  {
    if m.Node? {
      SnugMove(m.u, ax, m.b.On(ax).len, dx, dy, o);
      SnugMoveRun(m.next, ax, most, dx, dy, o);
    }
  }

  lemma {:induction false} SnugMove(m: Menu, ax: Axis, most: int, dx: int, dy: int, o: Area)
    ensures Snug(Move(m, dx, dy, o), ax, most) == Snug(m, ax, most)
    decreases m, 1
  {
    if m.Node? {
      SnugMoveRun(m, ax, most, ClampMove(dx, m.b.rect.h.at, o.x), ClampMove(dy, m.b.rect.v.at, o.y), o);
    }
  }

  lemma ProductFits(a: int, b: int)
    requires 0 <= a <= SHORT_MAX && 0 <= b <= SHORT_MAX
    ensures InInt(a * b)
  {
    MulLe(0, a, b);
    MulLe(a, SHORT_MAX, b);
  }

  /** With sizes that fit a C `short` before and after, no product overflows, provided that
    * no bound submenu is longer than its owner.
    */
  lemma {:induction false} ScaleFitsInt(m: Menu, r: Rect, ax: Axis, num: int, den: int, o: Area)
    requires Valid(m, Under(r), o) && Good(r, o) && ScaleSafe(m, ax, den) && den > 0 && Snug(m, ax, r.On(ax).len)
    requires 0 <= num <= SHORT_MAX && r.On(ax).len <= SHORT_MAX && r.On(ax).len * num / den <= SHORT_MAX
    ensures ScaleFits(m, ax, num, den, o)
    decreases Size(m), 2
  {
    if m.Node? && !m.b.free {
      if m.b.Runs(ax) {
        MemberAxis(m.b, ax);
        assert 0 * num / den == 0;
        RunFitsInt(m, Under(r), ax, m.b.On(ax).at, m.b.On(ax).at, 0, num, den, o);
      } else {
        CrossFitsInt(m, Under(r), ax, num, den, o);
      }
    }
  }

  lemma {:induction false} CrossFitsInt(m: Menu, p: Place, ax: Axis, num: int, den: int, o: Area)
    requires Valid(m, p, o) && !p.Top? && CrossSafe(m, ax, den) && den > 0 && Snug(m, ax, Space(p).On(ax).len)
    requires p.Rest? ==> p.ax == ax.Other()
    requires m.Node? ==> !m.b.Runs(ax) && !m.b.free
    requires var len := Space(p).On(ax).len;
             0 <= num <= SHORT_MAX && len <= SHORT_MAX && len * num / den <= SHORT_MAX
    ensures CrossFits(m, ax, num, den, o)
    decreases Size(m), 1
  {
    if m.Node? {
      var len := m.b.On(ax).len;
      ProductFits(len, num);
      DivMonotone(len, Space(p).On(ax).len, num, den);
      ScaleFitsInt(m.u, m.b.rect, ax, num, den, o);
      if m.next.Node? {
        var run := ax.Other();
        CrossFitsInt(m.next, Rest(run, Beyond(m.b.rect, run, Space(p))), ax, num, den, o);
      }
    }
  }

  lemma {:induction false} RunFitsInt(m: Menu, p: Place, ax: Axis, at: int, start: int, sum: int,
                                      num: int, den: int, o: Area)
    requires Valid(m, p, o) && !p.Top? && RunSafe(m, ax) && den > 0 && sum >= 0 && Snug(m, ax, Space(p).On(ax).len)
    requires p.Rest? ==> p.ax == ax
    requires p.Under? ==> m.Node? && Member(m.b, ax)
    requires Good(Space(p).With(ax, Span(start, 0)), o) && at == start + sum * num / den
    requires var total := sum + Space(p).On(ax).len;
             0 <= num <= SHORT_MAX && total <= SHORT_MAX && total * num / den <= SHORT_MAX
    ensures RunFits(m, ax, at, start, sum, num, den, o)
    decreases Size(m), 1
  {
    if m.Node? {
      ToRest(m, p, ax, o);
      var s, r := m.b.On(ax), Beyond(m.b.rect, ax, Space(p));
      var w := NewLen(sum + s.len, at, start, num, den);
      RestFits(m.next, ax, r, o);
      ProductFits(sum + s.len, num);
      StepBounds(sum, s.len, start, num, den);
      DivMonotone(sum + s.len, sum + Space(p).On(ax).len, num, den);
      DivMonotone(0, sum, num, den);
      SnugAnywhere(m.next, ax, Space(p).On(ax).len, r, o);
      RunFitsInt(m.next, Rest(ax, r), ax, at + w, start, sum + s.len, num, den, o);
      MovedFitsInt(m.u, m.b.rect, ax, at, w, o);
    }
  }

  /** In a sequence no button is indivisible, so the bound does not matter. */
  lemma {:induction false} SnugAnywhere(m: Menu, ax: Axis, most: int, r: Rect, o: Area)
    requires Valid(m, Rest(ax, r), o) && Snug(m, ax, most)
    ensures forall l :: Snug(m, ax, l)
  {
    if m.Node? { SnugAnywhere(m.next, ax, most, Beyond(m.b.rect, ax, r), o); }
  }

  lemma {:induction false} MovedFitsInt(u: Menu, r: Rect, ax: Axis, at: int, w: int, o: Area)
    requires Valid(u, Under(r), o) && Good(r, o) && ScaleSafe(u, ax, r.On(ax).len) && Snug(u, ax, r.On(ax).len)
    requires 0 <= w <= SHORT_MAX && r.On(ax).len <= SHORT_MAX && Good(r.With(ax, Span(at, w)), o)
    ensures ScaleSafe(MoveOn(u, ax, at - r.On(ax).at, o), ax, r.On(ax).len)
    ensures ScaleFits(MoveOn(u, ax, at - r.On(ax).at, o), ax, w, r.On(ax).len, o)
    decreases Size(u), 3
  {
    var len, d := r.On(ax).len, at - r.On(ax).at;
    var v, r' := MoveOn(u, ax, d, o), r.With(ax, Span(at, len));
    MoveOnKeepsSafe(u, ax, len, d, o);
    if len > 0 {
      if ax.H? {
        MoveValid(u, r, d, 0, o);
        SnugMove(u, ax, len, d, 0, o);
      } else {
        MoveValid(u, r, 0, d, o);
        SnugMove(u, ax, len, 0, d, o);
      }
      assert r' == if ax.H? then r.Shift(d, 0) else r.Shift(0, d);
      DivExact(w, len);
      ScaleFitsInt(v, r', ax, w, len, o);
    }
  }

  // ---------------------------------------------------------------- a submenu wider than its owner

  const ORIGIN := Area(0, 0)
  const NARROW := Rect(Span(0, 10), Span(0, 10))

  function Piece(at: int, len: int, hor: bool, first: bool): Button {
    Button(Rect(Span(at, len), Span(0, 10)), hor, false, false, first, !hor, false, PLAIN, 0, "")
  }

  /** A submenu as wide as a `short` allows under a button ten units wide; it is divided, and one of its parts has
    * a submenu again.
    */
  function WideMenu(): Menu {
    Node(Piece(0, SHORT_MAX, false, true),
         Node(Piece(0, 16000, true, true), Node(Piece(0, 16000, false, true), Nil, Nil),
              Node(Piece(16000, 16767, true, false), Nil, Nil)),
         Nil)
  }

  /** A menu that is not snug can overflow: the owner is stretched to a size that fits a `short`, all sizes before fit
    * one too, and a product leaves the range of an `int`.
    */
  lemma WideSubmenuOverflows()
    ensures Valid(WideMenu(), Under(NARROW), ORIGIN) && ScaleSafe(WideMenu(), H, 10) && !Snug(WideMenu(), H, 10)
    ensures 10 * SHORT_MAX / 10 <= SHORT_MAX && !ScaleFits(WideMenu(), H, SHORT_MAX, 10, ORIGIN)
  {
    var inner := Node(Piece(0, 16000, false, true), Nil, Nil);
    var run := WideMenu().u;
    assert Valid(run.next, Rest(H, Rect(Span(16000, 16767), Span(0, 10))), ORIGIN);
    assert Valid(inner, Under(run.b.rect), ORIGIN);
    assert Valid(run, Under(WideMenu().b.rect), ORIGIN);
    assert ScaleSafe(inner, H, 16000);
    assert ScaleSafe(run, H, 10);
    var w := NewLen(16000, 0, 0, SHORT_MAX, 10);
    assert w == 52427200;
    var moved := MoveOn(inner, H, 0, ORIGIN);
    assert moved.Node? && !moved.b.free && moved.b.On(H).len == 16000;
    assert !CrossFits(moved, H, w, 16000, ORIGIN);
    assert !RunFits(run, H, 0, 0, 0, SHORT_MAX, 10, ORIGIN);
  }
}
