/** Exactly when a product computed while scaling leaves the range of a 32-bit integer, read off the sizes alone. */
module ScalingOverflow {
  import opened MenuTree
  import opened Scaling
  import opened ScalingBounds

  // ---------------------------------------------------------------- the condition

  /** All lengths on `ax` that scaling comes to fit a C `short`. */
  predicate Short(m: Menu, ax: Axis) {
    m.Nil? || m.b.free || (m.b.On(ax).len <= SHORT_MAX && Short(m.u, ax) && Short(m.next, ax))
  }

  /** How long a submenu is on `ax`. */
  function Extent(m: Menu, ax: Axis): int
    requires m.Node?
  {
    if m.b.Runs(ax) then SumLen(m, Len(m), ax) else m.b.On(ax).len
  }

  /** What becomes of `len` units that follow `sum` units of a sequence. */
  function Share(sum: int, len: int, num: int, den: int): int {
    if den > 0 then (sum + len) * num / den - sum * num / den else 0
  }

  /** A submenu whose multiplier is not a `short` is short enough for it; submenus of a divided submenu get the
    * share of their owner as multiplier, all others the multiplier of the submenu they are in.
    */
  predicate Bearable(m: Menu, ax: Axis, num: int, den: int)
    decreases m, 1
  {
    m.Nil? || m.b.free || ((num > SHORT_MAX ==> Extent(m, ax) * num < INT_LIMIT) && Below(m, ax, 0, num, den))
  }

  predicate Below(m: Menu, ax: Axis, sum: int, num: int, den: int)
    decreases m, 0
  {
    m.Nil? ||
    (var len := m.b.On(ax).len;
     && (if m.b.Runs(ax) then Bearable(m.u, ax, Share(sum, len, num, den), len) else Bearable(m.u, ax, num, den))
     && Below(m.next, ax, sum + len, num, den))
  }

  // ---------------------------------------------------------------- positions do not matter

  lemma {:induction false} SumLenMoved(m: Menu, ax: Axis, dx: int, dy: int, o: Area)
    ensures Len(MoveRun(m, dx, dy, o)) == Len(m)
    ensures SumLen(MoveRun(m, dx, dy, o), Len(m), ax) == SumLen(m, Len(m), ax)
  {
    if m.Node? { SumLenMoved(m.next, ax, dx, dy, o); }
  }

  lemma {:induction false} BelowMoved(m: Menu, ax: Axis, sum: int, num: int, den: int, dx: int, dy: int, o: Area)
    ensures Below(MoveRun(m, dx, dy, o), ax, sum, num, den) == Below(m, ax, sum, num, den)
    ensures Short(MoveRun(m, dx, dy, o), ax) == Short(m, ax)
    decreases m, 0
  {
    if m.Node? {
      var len := m.b.On(ax).len;
      BearableMoved(m.u, ax, Share(sum, len, num, den), len, dx, dy, o);
      BearableMoved(m.u, ax, num, den, dx, dy, o);
      BelowMoved(m.next, ax, sum + len, num, den, dx, dy, o);
    }
  }

  lemma {:induction false} BearableMoved(m: Menu, ax: Axis, num: int, den: int, dx: int, dy: int, o: Area)
    ensures Bearable(Move(m, dx, dy, o), ax, num, den) == Bearable(m, ax, num, den)
    ensures Short(Move(m, dx, dy, o), ax) == Short(m, ax)
    decreases m, 1
  {
    if m.Node? {
      var x, y := ClampMove(dx, m.b.rect.h.at, o.x), ClampMove(dy, m.b.rect.v.at, o.y);
      SumLenMoved(m, ax, x, y, o);
      BelowMoved(m, ax, 0, num, den, x, y, o);
    }
  }

  lemma BearableMovedOn(m: Menu, ax: Axis, num: int, den: int, d: int, o: Area)
    ensures Bearable(MoveOn(m, ax, d, o), ax, num, den) == Bearable(m, ax, num, den)
    ensures Short(MoveOn(m, ax, d, o), ax) == Short(m, ax)
  {
    if ax.H? { BearableMoved(m, ax, num, den, d, 0, o); } else { BearableMoved(m, ax, num, den, 0, d, o); }
  }

  // ---------------------------------------------------------------- exactness

  /** The products of a submenu fit exactly when the last one does, which is no question for a `short` multiplier. */
  lemma LastProduct(extent: int, num: int)
    requires 0 <= extent <= SHORT_MAX && num >= 0
    ensures InInt(extent * num) <==> (num > SHORT_MAX ==> extent * num < INT_LIMIT)
  {
    MulLe(0, extent, num);
    if num <= SHORT_MAX { ProductFits(extent, num); }
  }

  lemma {:induction false} RestTotal(m: Menu, ax: Axis, r: Rect, o: Area)
    requires Valid(m, Rest(ax, r), o)
    ensures SumLen(m, Len(m), ax) == r.On(ax).len
  {
    if m.Node? { RestTotal(m.next, ax, Beyond(m.b.rect, ax, r), o); }
  }

  /** No product overflows if and only if the menu can bear the multiplier. */
  lemma {:induction false} ScaleFitsIff(m: Menu, r: Rect, ax: Axis, num: int, den: int, o: Area)
    requires Valid(m, Under(r), o) && Good(r, o) && ScaleSafe(m, ax, den) && num >= 0 && den > 0
    requires Short(m, ax) && r.On(ax).len <= SHORT_MAX
    ensures ScaleFits(m, ax, num, den, o) <==> Bearable(m, ax, num, den)
    decreases Size(m), 2
  {
    if m.Node? && !m.b.free {
      if m.b.Runs(ax) {
        MemberAxis(m.b, ax);
        assert 0 * num / den == 0;
        RunFitsIff(m, Under(r), ax, m.b.On(ax).at, m.b.On(ax).at, 0, num, den, o);
        RestTotal(m.next, ax, Beyond(m.b.rect, ax, r), o);
        LastProduct(r.On(ax).len, num);
      } else {
        CrossFitsIff(m, Under(r), ax, 0, num, den, o);
        LastProduct(m.b.On(ax).len, num);
      }
    }
  }

  lemma {:induction false} RunFitsIff(m: Menu, p: Place, ax: Axis, at: int, start: int, sum: int,
                                      num: int, den: int, o: Area)
    requires Valid(m, p, o) && !p.Top? && RunSafe(m, ax) && den > 0 && sum >= 0 && num >= 0 && Short(m, ax)
    requires p.Rest? ==> p.ax == ax
    requires p.Under? ==> m.Node? && Member(m.b, ax)
    requires Good(Space(p).With(ax, Span(start, 0)), o) && at == start + sum * num / den
    ensures m.Node? ==>
              (RunFits(m, ax, at, start, sum, num, den, o) <==>
               InInt((sum + Space(p).On(ax).len) * num) && Below(m, ax, sum, num, den))
    ensures m.Nil? ==> Space(p).On(ax).len == 0
    decreases Size(m), 1
  {
    if m.Node? {
      ToRest(m, p, ax, o);
      var s, r := m.b.On(ax), Beyond(m.b.rect, ax, Space(p));
      var w := NewLen(sum + s.len, at, start, num, den);
      RestFits(m.next, ax, r, o);
      RunNumbers(sum, s.len, sum + Space(p).On(ax).len, start, num, den);
      RunFitsIff(m.next, Rest(ax, r), ax, at + w, start, sum + s.len, num, den, o);
      MovedFitsIff(m.u, m.b.rect, ax, at, w, o);
      RunNodeIff(m, ax, at, start, sum, sum + Space(p).On(ax).len, num, den, o);
    }
  }

  lemma RunNodeIff(m: Menu, ax: Axis, at: int, start: int, sum: int, total: int, num: int, den: int, o: Area)
    requires m.Node? && m.b.Runs(ax) && RunSafe(m, ax) && den > 0
    requires var len := m.b.On(ax).len;
             var w := NewLen(sum + len, at, start, num, den);
             && w == Share(sum, len, num, den) && (InInt(total * num) ==> InInt((sum + len) * num))
             && (m.next.Nil? ==> total == sum + len)
             && (m.next.Node? ==> (RunFits(m.next, ax, at + w, start, sum + len, num, den, o) <==>
                                   InInt(total * num) && Below(m.next, ax, sum + len, num, den)))
             && ScaleSafe(MoveOn(m.u, ax, at - m.b.On(ax).at, o), ax, len)
             && (ScaleFits(MoveOn(m.u, ax, at - m.b.On(ax).at, o), ax, w, len, o) <==> Bearable(m.u, ax, w, len))
    ensures RunFits(m, ax, at, start, sum, num, den, o) <==> InInt(total * num) && Below(m, ax, sum, num, den)
  {
  }

  /** One step of the loop over a sequence: the new length is the share, and the product is at most the last one. */
  lemma RunNumbers(sum: int, len: int, total: int, start: int, num: int, den: int)
    requires sum >= 0 && len >= 0 && sum + len <= total && num >= 0 && den > 0
    ensures var at := start + sum * num / den;
            var w := NewLen(sum + len, at, start, num, den);
            at >= start && w >= 0 && w == Share(sum, len, num, den) && at + w == start + (sum + len) * num / den
    ensures InInt(total * num) ==> InInt((sum + len) * num)
  {
    StepBounds(sum, len, start, num, den);
    DivMonotone(sum + len, total, num, den);
    DivMonotone(0, sum, num, den);
  }

  lemma {:induction false} CrossFitsIff(m: Menu, p: Place, ax: Axis, sum: int, num: int, den: int, o: Area)
    requires Valid(m, p, o) && !p.Top? && CrossSafe(m, ax, den) && den > 0 && num >= 0 && Short(m, ax)
    requires p.Rest? ==> p.ax == ax.Other()
    requires m.Node? ==> !m.b.Runs(ax) && !m.b.free
    ensures m.Node? ==>
              (CrossFits(m, ax, num, den, o) <==> InInt(m.b.On(ax).len * num) && Below(m, ax, sum, num, den))
    decreases Size(m), 1
  {
    if m.Node? {
      ScaleFitsIff(m.u, m.b.rect, ax, num, den, o);
      if m.next.Node? {
        var run := ax.Other();
        CrossFitsIff(m.next, Rest(run, Beyond(m.b.rect, run, Space(p))), ax, sum + m.b.On(ax).len, num, den, o);
      }
    }
  }

  lemma {:induction false} MovedFitsIff(u: Menu, r: Rect, ax: Axis, at: int, w: int, o: Area)
    requires Valid(u, Under(r), o) && Good(r, o) && ScaleSafe(u, ax, r.On(ax).len) && Short(u, ax)
    requires w >= 0 && r.On(ax).len <= SHORT_MAX && Good(r.With(ax, Span(at, w)), o)
    ensures ScaleSafe(MoveOn(u, ax, at - r.On(ax).at, o), ax, r.On(ax).len)
    ensures ScaleFits(MoveOn(u, ax, at - r.On(ax).at, o), ax, w, r.On(ax).len, o) <==> Bearable(u, ax, w, r.On(ax).len)
    decreases Size(u), 3
  {
    var len, d := r.On(ax).len, at - r.On(ax).at;
    var v, r' := MoveOn(u, ax, d, o), r.With(ax, Span(at, len));
    MoveOnKeepsSafe(u, ax, len, d, o);
    BearableMovedOn(u, ax, w, len, d, o);
    if len > 0 {
      if ax.H? { MoveValid(u, r, d, 0, o); } else { MoveValid(u, r, 0, d, o); }
      assert r' == if ax.H? then r.Shift(d, 0) else r.Shift(0, d);
      ScaleFitsIff(v, r', ax, w, len, o);
    }
  }
}
