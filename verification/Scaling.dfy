/** Moving and rescaling menus (med3/bmdiv.c: movebm, scalebmh, scalebmw).
  *
  * The height and the width version of the scaling routine are the same algorithm on the
  * two axes, so one definition with an axis parameter stands for both.
  */
module Scaling {
  import opened MenuTree

  // ---------------------------------------------------------------- moving

  function ClampMove(d: int, at: int, least: int): int {
    if d < least - at then least - at else d
  }

  /** `movebm`: the distance is clamped so that the first button stays in the editing
    * area, and again for every submenu.
    */
  function Move(m: Menu, dx: int, dy: int, o: Area): (r: Menu)
    ensures Size(r) == Size(m)
    decreases m, 1
  {
    if m.Nil? then Nil
    else MoveRun(m, ClampMove(dx, m.b.rect.h.at, o.x), ClampMove(dy, m.b.rect.v.at, o.y), o)
  }

  /** The loop of `movebm` once the distance has been clamped. */
  function MoveRun(m: Menu, dx: int, dy: int, o: Area): (r: Menu)
    ensures Size(r) == Size(m)
    decreases m, 0
  {
    if m.Nil? then Nil
    else Node(m.b.(rect := m.b.rect.Shift(dx, dy)), Move(m.u, dx, dy, o), MoveRun(m.next, dx, dy, o))
  }

  function MoveOn(m: Menu, ax: Axis, d: int, o: Area): (r: Menu)
    ensures Size(r) == Size(m)
  {
    if ax.H? then Move(m, d, 0, o) else Move(m, 0, d, o)
  }

  lemma {:induction false} MoveRunValid(m: Menu, ax: Axis, r: Rect, dx: int, dy: int, o: Area)
    requires Valid(m, Rest(ax, r), o)
    requires r.h.at + dx >= o.x && r.v.at + dy >= o.y
    ensures Valid(MoveRun(m, dx, dy, o), Rest(ax, r.Shift(dx, dy)), o)
    decreases m, 0
  {
    if m.Node? {
      MoveValid(m.u, m.b.rect, dx, dy, o);
      MoveRunValid(m.next, ax, Beyond(m.b.rect, ax, r), dx, dy, o);
      assert Beyond(m.b.rect, ax, r).Shift(dx, dy) == Beyond(m.b.rect.Shift(dx, dy), ax, r.Shift(dx, dy));
    }
  }

  /** A submenu moved together with its owner still tiles it.  The clamp has no effect on
    * menus that fill their owner; it only holds back indivisible submenus.
    */
  lemma {:induction false} MoveValid(m: Menu, r: Rect, dx: int, dy: int, o: Area)
    requires Valid(m, Under(r), o)
    requires r.h.at + dx >= o.x && r.v.at + dy >= o.y
    ensures Valid(Move(m, dx, dy, o), Under(r.Shift(dx, dy)), o)
    decreases m, 1
  {
    if m.Node? {
      var cx, cy := ClampMove(dx, m.b.rect.h.at, o.x), ClampMove(dy, m.b.rect.v.at, o.y);
      MoveValid(m.u, m.b.rect, cx, cy, o);
      if m.b.hor || m.b.ver {
        var ax := AxisOf(m.b);
        var r' := Beyond(m.b.rect, ax, r);
        MoveRunValid(m.next, ax, r', cx, cy, o);
        assert r'.Shift(dx, dy) == Beyond(m.b.rect.Shift(dx, dy), ax, r.Shift(dx, dy));
      }
    }
  }

  // ---------------------------------------------------------------- scaling

  /** C division, which truncates towards zero. */
  function TDiv(a: int, b: int): (q: int)
    requires b != 0
    ensures a >= 0 && b > 0 ==> q == a / b
  {
    if a >= 0 then a / b else -((-a) / b)
  }

  /** No division by zero happens when `m` is scaled by some number over `den`. */
  predicate ScaleSafe(m: Menu, ax: Axis, den: int)
    decreases m, 1
  {
    m.Nil? || m.b.free ||
    (den != 0 && if m.b.Runs(ax) then RunSafe(m, ax) else CrossSafe(m, ax, den))
  }

  predicate RunSafe(m: Menu, ax: Axis)
    decreases m, 0
  {
    m.Nil? || (ScaleSafe(m.u, ax, m.b.On(ax).len) && RunSafe(m.next, ax))
  }

  predicate CrossSafe(m: Menu, ax: Axis, den: int)
    decreases m, 0
  {
    m.Nil? || (ScaleSafe(m.u, ax, den) && CrossSafe(m.next, ax, den))
  }

  lemma {:induction false} MoveRunKeepsSafe(m: Menu, ax: Axis, den: int, dx: int, dy: int, o: Area)
    ensures RunSafe(MoveRun(m, dx, dy, o), ax) == RunSafe(m, ax)
    ensures CrossSafe(MoveRun(m, dx, dy, o), ax, den) == CrossSafe(m, ax, den)
    decreases m, 0
  {
    if m.Node? {
      MoveKeepsSafe(m.u, ax, m.b.On(ax).len, dx, dy, o);
      MoveKeepsSafe(m.u, ax, den, dx, dy, o);
      MoveRunKeepsSafe(m.next, ax, den, dx, dy, o);
    }
  }

  lemma {:induction false} MoveKeepsSafe(m: Menu, ax: Axis, den: int, dx: int, dy: int, o: Area)
    ensures ScaleSafe(Move(m, dx, dy, o), ax, den) == ScaleSafe(m, ax, den)
    decreases m, 1
  {
    if m.Node? {
      MoveRunKeepsSafe(m, ax, den, ClampMove(dx, m.b.rect.h.at, o.x), ClampMove(dy, m.b.rect.v.at, o.y), o);
    }
  }

  lemma MoveOnKeepsSafe(m: Menu, ax: Axis, den: int, d: int, o: Area)
    ensures ScaleSafe(MoveOn(m, ax, d, o), ax, den) == ScaleSafe(m, ax, den)
  {
    if ax.H? { MoveKeepsSafe(m, ax, den, d, 0, o); } else { MoveKeepsSafe(m, ax, den, 0, d, o); }
  }

  /** `scalebmw` (on `H`) and `scalebmh` (on `V`): scale by `num` over `den`. */
  function Scale(m: Menu, ax: Axis, num: int, den: int, o: Area): Menu
    requires ScaleSafe(m, ax, den)
    decreases Size(m), 1
  {
    if m.Nil? || m.b.free then m
    else if m.b.Runs(ax) then ScaleRun(m, ax, m.b.On(ax).at, m.b.On(ax).at, 0, num, den, o)
    else ScaleCross(m, ax, num, den, o)
  }

  /** The new length of a button when `sum` is the old extent up to its end. */
  function NewLen(sum: int, at: int, start: int, num: int, den: int): int
    requires den != 0
  {
    TDiv(sum * num, den) - at + start
  }

  /** The loop over a sequence along the axis: `at` is the next new position, `start` the
    * position of the first button and `sum` the old extent passed so far.
    */
  function ScaleRun(m: Menu, ax: Axis, at: int, start: int, sum: int, num: int, den: int, o: Area): Menu
    requires den != 0 && RunSafe(m, ax)
    decreases Size(m), 0
  {
    if m.Nil? then Nil
    else
      var s := m.b.On(ax);
      var w := NewLen(sum + s.len, at, start, num, den);
      MoveOnKeepsSafe(m.u, ax, s.len, at - s.at, o);
      Node(m.b.WithSpan(ax, Span(at, w)),
           Scale(MoveOn(m.u, ax, at - s.at, o), ax, w, s.len, o),
           ScaleRun(m.next, ax, at + w, start, sum + s.len, num, den, o))
  }

  /** The loop over a sequence across the axis, or over a single button. */
  function ScaleCross(m: Menu, ax: Axis, num: int, den: int, o: Area): Menu
    requires den != 0 && CrossSafe(m, ax, den)
    decreases Size(m), 0
  {
    if m.Nil? then Nil
    else
      Node(m.b.WithSpan(ax, Span(m.b.On(ax).at, TDiv(m.b.On(ax).len * num, den))),
           Scale(m.u, ax, num, den, o),
           ScaleCross(m.next, ax, num, den, o))
  }

  // ---------------------------------------------------------------- exactness

  lemma MulLe(a: int, b: int, c: int)
    requires a <= b && c >= 0
    ensures a * c <= b * c
  {
  }

  lemma DivLe(x: int, y: int, den: int)
    requires x <= y && den > 0
    ensures x / den <= y / den
  {
    var p, q := x / den, y / den;
    assert x == p * den + x % den && y == q * den + y % den;
    if p >= q + 1 {
      MulLe(q + 1, p, den);
      assert false;
    }
  }

  lemma DivMonotone(a: int, b: int, num: int, den: int)
    requires 0 <= a <= b && num >= 0 && den > 0
    ensures 0 <= a * num <= b * num
    ensures 0 <= a * num / den <= b * num / den
  {
    MulLe(0, a, num);
    MulLe(a, b, num);
    DivLe(0, a * num, den);
    DivLe(a * num, b * num, den);
  }

  lemma DivExact(w: int, len: int)
    requires len > 0
    ensures len * w / len == w
  {
    var q := len * w / len;
    assert len * w == q * len + len * w % len;
    if w >= q + 1 {
      MulLe(q + 1, w, len);
      assert false;
    }
    if w <= q - 1 {
      MulLe(w, q - 1, len);
      assert false;
    }
  }

  /** Scaling a submenu that tiles `r` makes it tile `r` with its extent scaled: no gap and
    * no overlap appears at any nesting level.
    */
  lemma {:induction false} ScaleValid(m: Menu, r: Rect, ax: Axis, num: int, den: int, o: Area)
    requires Valid(m, Under(r), o) && Good(r, o) && ScaleSafe(m, ax, den) && num >= 0 && den > 0
    ensures Valid(Scale(m, ax, num, den, o), Under(r.With(ax, Span(r.On(ax).at, r.On(ax).len * num / den))), o)
    decreases Size(m), 1
  {
    if m.Node? && !m.b.free {
      if m.b.Runs(ax) {
        ScaleRunFirstValid(m, r, ax, num, den, o);
      } else if m.b.hor || m.b.ver {
        DivMonotone(0, r.On(ax).len, num, den);
        ScaleValid(m.u, m.b.rect, ax, num, den, o);
        ScaleCrossValid(m.next, ax.Other(), Beyond(m.b.rect, ax.Other(), r), num, den, o);
      } else {
        DivMonotone(0, m.b.On(ax).len, num, den);
        ScaleValid(m.u, m.b.rect, ax, num, den, o);
        assert ScaleCross(m.next, ax, num, den, o) == Nil;
      }
    }
  }

  lemma {:induction false} ScaleCrossValid(m: Menu, run: Axis, r: Rect, num: int, den: int, o: Area)
    requires Valid(m, Rest(run, r), o) && CrossSafe(m, run.Other(), den) && num >= 0 && den > 0
    ensures var ax := run.Other();
            Valid(ScaleCross(m, ax, num, den, o),
                  Rest(run, r.With(ax, Span(r.On(ax).at, r.On(ax).len * num / den))), o)
    decreases Size(m), 0
  {
    if m.Node? {
      var ax := run.Other();
      DivMonotone(0, m.b.On(ax).len, num, den);
      ScaleValid(m.u, m.b.rect, ax, num, den, o);
      ScaleCrossValid(m.next, run, Beyond(m.b.rect, run, r), num, den, o);
    }
  }

  /** One step of the loop over a sequence: the submenu of the button is moved to the new
    * position and scaled to the new length, and tiles the button again.
    */
  lemma {:induction false} ScaleStepValid(u: Menu, r: Rect, ax: Axis, at: int, w: int, o: Area)
    requires Valid(u, Under(r), o) && Good(r, o) && ScaleSafe(u, ax, r.On(ax).len)
    requires w >= 0 && Good(r.With(ax, Span(at, w)), o)
    ensures ScaleSafe(MoveOn(u, ax, at - r.On(ax).at, o), ax, r.On(ax).len)
    ensures Valid(Scale(MoveOn(u, ax, at - r.On(ax).at, o), ax, w, r.On(ax).len, o),
                  Under(r.With(ax, Span(at, w))), o)
    decreases Size(u), 2
  {
    var len, d := r.On(ax).len, at - r.On(ax).at;
    var r' := r.With(ax, Span(at, len));
    MoveOnKeepsSafe(u, ax, len, d, o);
    assert Valid(MoveOn(u, ax, d, o), Under(r'), o) by {
      if ax.H? { MoveValid(u, r, d, 0, o); } else { MoveValid(u, r, 0, d, o); }
      assert r' == if ax.H? then r.Shift(d, 0) else r.Shift(0, d);
    }
    if len > 0 {
      ScaleValid(MoveOn(u, ax, d, o), r', ax, w, len, o);
      DivExact(w, len);
      assert r'.With(ax, Span(at, w)) == r.With(ax, Span(at, w));
    }
  }

  lemma {:induction false} ScaleRunFirstValid(m: Menu, r: Rect, ax: Axis, num: int, den: int, o: Area)
    requires Valid(m, Under(r), o) && Good(r, o) && ScaleSafe(m, ax, den) && num >= 0 && den > 0
    requires m.Node? && !m.b.free && m.b.Runs(ax)
    ensures Valid(Scale(m, ax, num, den, o), Under(r.With(ax, Span(r.On(ax).at, r.On(ax).len * num / den))), o)
    decreases Size(m), 0
  {
    var s := m.b.On(ax);
    var at := s.at;
    RestFits(m.next, ax, Beyond(m.b.rect, ax, r), o);
    DivMonotone(s.len, r.On(ax).len, num, den);
    var w := NewLen(s.len, at, at, num, den);
    ScaleStepValid(m.u, m.b.rect, ax, at, w, o);
    ScaleRunValid(m.next, ax, Beyond(m.b.rect, ax, r), at + w, at, s.len, r.On(ax).len, num, den, o);
  }

  /** A valid rest of a sequence never needs more room than there is. */
  lemma {:induction false} RestFits(m: Menu, ax: Axis, r: Rect, o: Area)
    requires Valid(m, Rest(ax, r), o)
    ensures r.On(ax).len >= 0
  {
    if m.Node? { RestFits(m.next, ax, Beyond(m.b.rect, ax, r), o); }
  }

  lemma {:induction false} ScaleRunValid(m: Menu, ax: Axis, r: Rect, at: int, start: int, sum: int, total: int,
                                         num: int, den: int, o: Area)
    requires Valid(m, Rest(ax, r), o) && RunSafe(m, ax) && num >= 0 && den > 0 && sum >= 0
    requires total == sum + r.On(ax).len
    requires Good(r.With(ax, Span(start, 0)), o) && at == start + sum * num / den
    ensures Valid(ScaleRun(m, ax, at, start, sum, num, den, o),
                  Rest(ax, r.With(ax, Span(at, total * num / den - sum * num / den))), o)
    decreases Size(m), 0
  {
    if m.Node? {
      var len, r' := m.b.On(ax).len, Beyond(m.b.rect, ax, r);
      var w := NewLen(sum + len, at, start, num, den);
      var rest := ScaleRun(m.next, ax, at + w, start, sum + len, num, den, o);
      var left := total * num / den - (sum + len) * num / den;
      StepNumbers(sum, len, start, num, den);
      assert Valid(rest, Rest(ax, r'.With(ax, Span(at + w, left))), o) by {
        ScaleRunValid(m.next, ax, r', at + w, start, sum + len, total, num, den, o);
      }
      ScaleStepRestValid(m, rest, ax, r, at, w, left, o);
      assert total * num / den - sum * num / den == w + left;
    }
  }

  lemma {:induction false} ScaleStepRestValid(m: Menu, rest: Menu, ax: Axis, r: Rect, at: int, w: int, left: int,
                                              o: Area)
    requires m.Node? && Valid(m, Rest(ax, r), o) && ScaleSafe(m.u, ax, m.b.On(ax).len) && w >= 0
    requires Good(r.With(ax, Span(at, 0)), o)
    requires Valid(rest, Rest(ax, Beyond(m.b.rect, ax, r).With(ax, Span(at + w, left))), o)
    ensures ScaleSafe(MoveOn(m.u, ax, at - m.b.On(ax).at, o), ax, m.b.On(ax).len)
    ensures var u := Scale(MoveOn(m.u, ax, at - m.b.On(ax).at, o), ax, w, m.b.On(ax).len, o);
            Valid(Node(m.b.WithSpan(ax, Span(at, w)), u, rest), Rest(ax, r.With(ax, Span(at, w + left))), o)
    decreases Size(m.u), 3
  {
    ScaleStepValid(m.u, m.b.rect, ax, at, w, o);
    var u := Scale(MoveOn(m.u, ax, at - m.b.On(ax).at, o), ax, w, m.b.On(ax).len, o);
    RunStepValid(m, Node(m.b.WithSpan(ax, Span(at, w)), u, rest), ax, r, at, w, left, o);
  }

  /** A button with a new place and length, in front of a rest that begins where it ends. */
  lemma RunStepValid(m: Menu, m': Menu, ax: Axis, r: Rect, at: int, w: int, left: int, o: Area)
    requires m.Node? && Valid(m, Rest(ax, r), o) && m'.Node? && m'.b == m.b.WithSpan(ax, Span(at, w))
    requires Good(m'.b.rect, o) && Valid(m'.u, Under(m'.b.rect), o)
    requires Valid(m'.next, Rest(ax, Beyond(m.b.rect, ax, r).With(ax, Span(at + w, left))), o)
    ensures Valid(m', Rest(ax, r.With(ax, Span(at, w + left))), o)
  {
    var room := r.With(ax, Span(at, w + left));
    assert Beyond(m'.b.rect, ax, room) == Beyond(m.b.rect, ax, r).With(ax, Span(at + w, left));
    ValidRestIntro(m', ax, room, o);
  }

  /** One step of the loop over a sequence, in numbers. */
  lemma StepNumbers(sum: int, len: int, start: int, num: int, den: int)
    requires sum >= 0 && len >= 0 && num >= 0 && den > 0
    ensures var at := start + sum * num / den;
            var w := NewLen(sum + len, at, start, num, den);
            at >= start && w >= 0 && at + w == start + (sum + len) * num / den
  {
    DivMonotone(0, sum, num, den);
    DivMonotone(sum, sum + len, num, den);
  }
}
