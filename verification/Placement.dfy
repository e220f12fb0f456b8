/** Where buttons are after a move and after scaling (med3/bmdiv.c: movebm, scalebmh, scalebmw): bound and free submenus
  * go with their owners, boundaries are where the exact ratio puts them, and nothing else changes.
  */
module Placement {
  import opened MenuTree
  import opened Scaling
  import opened ScalingBounds

  // ---------------------------------------------------------------- what does not change

  const NOWHERE := Rect(Span(0, 0), Span(0, 0))

  /** A menu without its rectangles: moving and scaling change nothing else. */
  function Bones(m: Menu): (k: Menu)
    ensures k.Node? == m.Node?
  {
    if m.Nil? then Nil else Node(m.b.(rect := NOWHERE), Bones(m.u), Bones(m.next))
  }

  lemma {:induction false} MoveRunBones(m: Menu, dx: int, dy: int, o: Area)
    ensures Bones(MoveRun(m, dx, dy, o)) == Bones(m)
    decreases m, 0
  {
    if m.Node? {
      MoveBones(m.u, dx, dy, o);
      MoveRunBones(m.next, dx, dy, o);
    }
  }

  lemma {:induction false} MoveBones(m: Menu, dx: int, dy: int, o: Area)
    ensures Bones(Move(m, dx, dy, o)) == Bones(m)
    decreases m, 1
  {
    if m.Node? { MoveRunBones(m, ClampMove(dx, m.b.rect.h.at, o.x), ClampMove(dy, m.b.rect.v.at, o.y), o); }
  }

  lemma MoveOnBones(m: Menu, ax: Axis, d: int, o: Area)
    ensures Bones(MoveOn(m, ax, d, o)) == Bones(m)
  {
    if ax.H? { MoveBones(m, d, 0, o); } else { MoveBones(m, 0, d, o); }
  }

  lemma {:induction false} ScaleBones(m: Menu, ax: Axis, num: int, den: int, o: Area)
    requires ScaleSafe(m, ax, den)
    ensures Bones(Scale(m, ax, num, den, o)) == Bones(m)
    decreases Size(m), 1
  {
    if m.Node? && !m.b.free {
      if m.b.Runs(ax) {
        ScaleRunBones(m, ax, m.b.On(ax).at, m.b.On(ax).at, 0, num, den, o);
      } else {
        ScaleCrossBones(m, ax, num, den, o);
      }
    }
  }

  lemma {:induction false} ScaleRunBones(m: Menu, ax: Axis, at: int, start: int, sum: int, num: int, den: int, o: Area)
    requires den != 0 && RunSafe(m, ax)
    ensures Bones(ScaleRun(m, ax, at, start, sum, num, den, o)) == Bones(m)
    decreases Size(m), 0
  {
    if m.Node? {
      var s := m.b.On(ax);
      var w := NewLen(sum + s.len, at, start, num, den);
      MoveOnKeepsSafe(m.u, ax, s.len, at - s.at, o);
      MoveOnBones(m.u, ax, at - s.at, o);
      ScaleBones(MoveOn(m.u, ax, at - s.at, o), ax, w, s.len, o);
      ScaleRunBones(m.next, ax, at + w, start, sum + s.len, num, den, o);
    }
  }

  lemma {:induction false} ScaleCrossBones(m: Menu, ax: Axis, num: int, den: int, o: Area)
    requires den != 0 && CrossSafe(m, ax, den)
    ensures Bones(ScaleCross(m, ax, num, den, o)) == Bones(m)
    decreases Size(m), 0
  {
    if m.Node? {
      ScaleBones(m.u, ax, num, den, o);
      ScaleCrossBones(m.next, ax, num, den, o);
    }
  }

  lemma BonesHead(m: Menu, k: Menu)
    requires Bones(m) == Bones(k) && m.Node?
    ensures k.Node? && k.b.hor == m.b.hor && k.b.ver == m.b.ver && k.b.free == m.b.free
    ensures Bones(m.u) == Bones(k.u) && Bones(m.next) == Bones(k.next)
  {
    assert Bones(m).b == m.b.(rect := NOWHERE) && Bones(k).b == k.b.(rect := NOWHERE);
  }

  /** The same positions and lengths on `ax`, at every level. */
  predicate SameOn(m: Menu, k: Menu, ax: Axis) {
    m.Node? == k.Node? &&
    (m.Node? ==> k.b.On(ax) == m.b.On(ax) && SameOn(m.u, k.u, ax) && SameOn(m.next, k.next, ax))
  }

  lemma {:induction false} SameOnTwice(m: Menu, k: Menu, l: Menu, ax: Axis)
    requires SameOn(m, k, ax) && SameOn(k, l, ax)
    ensures SameOn(m, l, ax)
  {
    if m.Node? {
      SameOnTwice(m.u, k.u, l.u, ax);
      SameOnTwice(m.next, k.next, l.next, ax);
    }
  }

  /** The same lengths on `ax`, at every level. */
  predicate SameLengths(m: Menu, k: Menu, ax: Axis) {
    m.Node? == k.Node? &&
    (m.Node? ==> k.b.On(ax).len == m.b.On(ax).len && SameLengths(m.u, k.u, ax) && SameLengths(m.next, k.next, ax))
  }

  lemma {:induction false} SameOnLen(m: Menu, k: Menu, ax: Axis)
    requires SameOn(m, k, ax)
    ensures SameLengths(m, k, ax)
  {
    if m.Node? {
      SameOnLen(m.u, k.u, ax);
      SameOnLen(m.next, k.next, ax);
    }
  }

  /** Fair scaling is about lengths alone. */
  lemma {:induction false} FairLen(m: Menu, k: Menu, l: Menu, ax: Axis, num: int, den: int)
    requires Fair(m, k, ax, num, den) && SameLengths(k, l, ax)
    ensures Fair(m, l, ax, num, den)
    decreases m
  {
    if m.Node? && !m.b.free {
      FairLen(m.next, k.next, l.next, ax, num, den);
      if !m.b.Runs(ax) {
        FairLen(m.u, k.u, l.u, ax, num, den);
      } else if m.b.On(ax).len > 0 {
        FairLen(m.u, k.u, l.u, ax, k.b.On(ax).len, m.b.On(ax).len);
      }
    }
  }

  lemma {:induction false} FairFrom(m: Menu, k: Menu, l: Menu, ax: Axis, num: int, den: int)
    requires Fair(m, l, ax, num, den) && SameLengths(m, k, ax) && Bones(m) == Bones(k)
    ensures Fair(k, l, ax, num, den)
    decreases m
  {
    if m.Node? {
      BonesHead(m, k);
      if !m.b.free {
        FairFrom(m.next, k.next, l.next, ax, num, den);
        if !m.b.Runs(ax) {
          FairFrom(m.u, k.u, l.u, ax, num, den);
        } else if m.b.On(ax).len > 0 {
          FairFrom(m.u, k.u, l.u, ax, l.b.On(ax).len, m.b.On(ax).len);
        }
      }
    }
  }

  /** Of a tiled menu the editing area decides only how far left and up it may reach. */
  lemma {:induction false} ValidWithin(m: Menu, p: Place, o: Area, c: Area)
    requires Valid(m, p, o)
    ensures Valid(m, p, c) <==> Within(m, c)
    decreases m
  {
    if m.Node? {
      ValidWithin(m.u, Under(m.b.rect), o, c);
      if m.next.Node? {
        var ax := if p.Rest? then p.ax else AxisOf(m.b);
        ValidWithin(m.next, Rest(ax, Beyond(m.b.rect, ax, Space(p))), o, c);
      }
    }
  }

  // ---------------------------------------------------------------- moving

  /** Where something at `at` comes to when it is to go by `d`: that far, or to the limit if that is farther. */
  function Arrival(at: int, d: int, least: int): int { if at + d < least then least else at + d }

  /** If nothing would leave the area, everything moves by the same distance. */
  lemma {:induction false} MoveIsShift(m: Menu, dx: int, dy: int, o: Area)
    requires Within(ShiftMenu(m, dx, dy), o)
    ensures Move(m, dx, dy, o) == ShiftMenu(m, dx, dy)
    decreases m, 1
  {
    if m.Node? { MoveRunIsShift(m, dx, dy, o); }
  }

  lemma {:induction false} MoveRunIsShift(m: Menu, dx: int, dy: int, o: Area)
    requires Within(ShiftMenu(m, dx, dy), o)
    ensures MoveRun(m, dx, dy, o) == ShiftMenu(m, dx, dy)
    decreases m, 0
  {
    if m.Node? {
      MoveIsShift(m.u, dx, dy, o);
      MoveRunIsShift(m.next, dx, dy, o);
    }
  }

  /** The first button of `u`, which is under `b`, goes with it: by the distance that `b` went to become `b'`, or to the
    * limit.
    */
  predicate GoesWith(u: Menu, u': Menu, b: Button, b': Button, ax: Axis, o: Area) {
    u.Node? == u'.Node? &&
    (u.Node? ==> u'.b.On(ax).at == Arrival(u.b.On(ax).at, b'.On(ax).at - b.On(ax).at, Origin(o, ax)))
  }

  /** At every level the first button of each submenu went with its owner. */
  predicate Rides(m: Menu, k: Menu, ax: Axis, o: Area) {
    m.Node? == k.Node? &&
    (m.Node? ==> GoesWith(m.u, k.u, m.b, k.b, ax, o) && Rides(m.u, k.u, ax, o) && Rides(m.next, k.next, ax, o))
  }

  /** All of a sequence went by (ex, ey), and each submenu as its first button did; no length and no flag changed. */
  predicate Rigid(m: Menu, k: Menu, ex: int, ey: int) {
    m.Node? == k.Node? &&
    (m.Node? ==>
      && k.b == m.b.(rect := m.b.rect.Shift(ex, ey)) && Rigid(m.next, k.next, ex, ey) && m.u.Node? == k.u.Node?
      && (m.u.Node? ==>
            Rigid(m.u, k.u, k.u.b.rect.h.at - m.u.b.rect.h.at, k.u.b.rect.v.at - m.u.b.rect.v.at)))
  }

  /** A move takes the first button as far as asked or to the limit, each submenu with its owner, and every sequence as
    * one piece. /
    */
  lemma {:induction false} MovePlaces(m: Menu, dx: int, dy: int, o: Area)
    ensures var k := Move(m, dx, dy, o);
            && m.Node? == k.Node? && Rides(m, k, H, o) && Rides(m, k, V, o)
            && (m.Node? ==>
                  && k.b.rect.h.at == Arrival(m.b.rect.h.at, dx, o.x)
                  && k.b.rect.v.at == Arrival(m.b.rect.v.at, dy, o.y)
                  && Rigid(m, k, k.b.rect.h.at - m.b.rect.h.at, k.b.rect.v.at - m.b.rect.v.at))
    decreases m, 1
  {
    if m.Node? { MoveRunPlaces(m, ClampMove(dx, m.b.rect.h.at, o.x), ClampMove(dy, m.b.rect.v.at, o.y), o); }
  }

  lemma {:induction false} MoveRunPlaces(m: Menu, dx: int, dy: int, o: Area)
    ensures var k := MoveRun(m, dx, dy, o);
            Rides(m, k, H, o) && Rides(m, k, V, o) && Rigid(m, k, dx, dy)
    decreases m, 0
  {
    if m.Node? {
      MovePlaces(m.u, dx, dy, o);
      MoveRunPlaces(m.next, dx, dy, o);
    }
  }

  /** This says where everything is. */
  lemma {:induction false} PlacedOnce(m: Menu, k: Menu, l: Menu, ex: int, ey: int, o: Area)
    requires Rigid(m, k, ex, ey) && Rides(m, k, H, o) && Rides(m, k, V, o)
    requires Rigid(m, l, ex, ey) && Rides(m, l, H, o) && Rides(m, l, V, o)
    ensures k == l
  {
    if m.Node? {
      if m.u.Node? {
        PlacedOnce(m.u, k.u, l.u, k.u.b.rect.h.at - m.u.b.rect.h.at, k.u.b.rect.v.at - m.u.b.rect.v.at, o);
      }
      PlacedOnce(m.next, k.next, l.next, ex, ey, o);
    }
  }

  lemma {:induction false} RigidLen(m: Menu, k: Menu, ex: int, ey: int, ax: Axis)
    requires Rigid(m, k, ex, ey)
    ensures SameLengths(m, k, ax)
  {
    if m.Node? {
      if m.u.Node? {
        RigidLen(m.u, k.u, k.u.b.rect.h.at - m.u.b.rect.h.at, k.u.b.rect.v.at - m.u.b.rect.v.at, ax);
      }
      RigidLen(m.next, k.next, ex, ey, ax);
    }
  }

  lemma MoveLen(m: Menu, dx: int, dy: int, ax: Axis, o: Area)
    ensures SameLengths(m, Move(m, dx, dy, o), ax)
  {
    MovePlaces(m, dx, dy, o);
    if m.Node? {
      var k := Move(m, dx, dy, o);
      RigidLen(m, k, k.b.rect.h.at - m.b.rect.h.at, k.b.rect.v.at - m.b.rect.v.at, ax);
    }
  }

  // ---------------------------------------------------------------- moving along one axis

  /** Everything went up on `ax`, or nothing did, each submenu with its owner; on the other axis nothing changed. */
  predicate Drifts(m: Menu, k: Menu, ax: Axis, up: bool, o: Area) {
    m.Node? == k.Node? &&
    (m.Node? ==>
      && (if up then k.b.On(ax).at >= m.b.On(ax).at else k.b.On(ax).at <= m.b.On(ax).at)
      && k.b.On(ax.Other()) == m.b.On(ax.Other())
      && GoesWith(m.u, k.u, m.b, k.b, ax, o) && Drifts(m.u, k.u, ax, up, o) && Drifts(m.next, k.next, ax, up, o))
  }

  lemma {:induction false} DriftsRides(m: Menu, k: Menu, ax: Axis, up: bool, o: Area)
    requires Drifts(m, k, ax, up, o)
    ensures Rides(m, k, ax, o) && SameOn(m, k, ax.Other())
  {
    if m.Node? {
      DriftsRides(m.u, k.u, ax, up, o);
      DriftsRides(m.next, k.next, ax, up, o);
    }
  }

  lemma {:induction false} DriftsSelf(m: Menu, ax: Axis, up: bool, o: Area)
    requires Within(m, o)
    ensures Drifts(m, m, ax, up, o)
  {
    if m.Node? {
      DriftsSelf(m.u, ax, up, o);
      DriftsSelf(m.next, ax, up, o);
    }
  }

  lemma {:induction false} DriftsTwice(m: Menu, k: Menu, l: Menu, ax: Axis, up: bool, o: Area)
    requires Within(m, o) && Drifts(m, k, ax, up, o) && Drifts(k, l, ax, up, o)
    ensures Drifts(m, l, ax, up, o)
  {
    if m.Node? {
      DriftsTwice(m.u, k.u, l.u, ax, up, o);
      DriftsTwice(m.next, k.next, l.next, ax, up, o);
    }
  }

  lemma {:induction false} MoveRunDrifts(m: Menu, ax: Axis, d: int, up: bool, o: Area)
    requires Within(m, o) && if up then d >= 0 else d <= 0
    ensures Drifts(m, if ax.H? then MoveRun(m, d, 0, o) else MoveRun(m, 0, d, o), ax, up, o)
    decreases m, 0
  {
    if m.Node? {
      MoveOnDrifts(m.u, ax, d, up, o);
      if ax.H? { MovePlaces(m.u, d, 0, o); } else { MovePlaces(m.u, 0, d, o); }
      MoveRunDrifts(m.next, ax, d, up, o);
    }
  }

  lemma {:induction false} MoveOnDrifts(m: Menu, ax: Axis, d: int, up: bool, o: Area)
    requires Within(m, o) && if up then d >= 0 else d <= 0
    ensures Drifts(m, MoveOn(m, ax, d, o), ax, up, o)
    decreases m, 1
  {
    if m.Node? { MoveRunDrifts(m, ax, ClampMove(d, m.b.On(ax).at, Origin(o, ax)), up, o); }
  }

  lemma MoveOnPlaces(m: Menu, ax: Axis, d: int, up: bool, o: Area)
    requires Within(m, o) && if up then d >= 0 else d <= 0
    ensures var k := MoveOn(m, ax, d, o);
            && Drifts(m, k, ax, up, o) && k.Node? == m.Node? && SameLengths(m, k, ax)
            && (m.Node? ==> k.b.On(ax).at == Arrival(m.b.On(ax).at, d, Origin(o, ax)))
  {
    MoveOnDrifts(m, ax, d, up, o);
    if ax.H? {
      MovePlaces(m, d, 0, o);
      MoveLen(m, d, 0, ax, o);
    } else {
      MovePlaces(m, 0, d, o);
      MoveLen(m, 0, d, ax, o);
    }
  }

  // ---------------------------------------------------------------- scaling

  /** Scaling along a sequence puts the end of every button at its exact place, rounded down. */
  lemma {:induction false} ScaleRunEnds(m: Menu, ax: Axis, at: int, start: int, sum: int, num: int, den: int, o: Area,
                                        i: nat)
    requires den != 0 && RunSafe(m, ax) && 1 <= i <= Len(m)
    ensures var k := ScaleRun(m, ax, at, start, sum, num, den, o);
            Len(k) == Len(m) && SumLen(k, i, ax) == TDiv((sum + SumLen(m, i, ax)) * num, den) - at + start
  {
    var s := m.b.On(ax);
    var w := NewLen(sum + s.len, at, start, num, den);
    ScaleRunLen(m.next, ax, at + w, start, sum + s.len, num, den, o);
    if i > 1 {
      ScaleRunEnds(m.next, ax, at + w, start, sum + s.len, num, den, o, i - 1);
    } else {
      assert SumLen(m.next, 0, ax) == 0;
    }
  }

  lemma {:induction false} ScaleRunLen(m: Menu, ax: Axis, at: int, start: int, sum: int, num: int, den: int, o: Area)
    requires den != 0 && RunSafe(m, ax)
    ensures Len(ScaleRun(m, ax, at, start, sum, num, den, o)) == Len(m)
  {
    if m.Node? {
      var s := m.b.On(ax);
      var w := NewLen(sum + s.len, at, start, num, den);
      ScaleRunLen(m.next, ax, at + w, start, sum + s.len, num, den, o);
    }
  }

  /** In numbers: scaling up moves a boundary up and lengthens the button, and scaling down the contrary. */
  lemma DriftNumbers(sum: int, len: int, num: int, den: int, up: bool)
    requires sum >= 0 && len >= 0 && num >= 0 && den > 0 && if up then num >= den else num <= den
    ensures var e, w := sum * num / den - sum, (sum + len) * num / den - sum * num / den;
            if up then e >= 0 && w >= len else e <= 0 && w <= len
  {
    NearFloor(sum, len, num, den);
    ShareSide(sum, num, den, up);
    ShareSide(len, num, den, up);
  }

  lemma ShareSide(x: int, num: int, den: int, up: bool)
    requires x >= 0 && num >= 0 && den > 0 && if up then num >= den else num <= den
    ensures if up then x * num / den >= x
            else x * num / den < x || (x * num / den == x && x * num % den == 0)
  {
    DivExact(x, den);
    assert x * den == den * x && x * num == num * x;
    if up {
      MulLe(den, num, x);
      DivLe(x * den, x * num, den);
    } else {
      MulLe(num, den, x);
      DivLe(x * num, x * den, den);
      assert x * num == x * num / den * den + x * num % den;
    }
  }

  /** The submenu of a button that is moved and then scaled with it. */
  lemma {:induction false} ScaleMovedDrifts(u: Menu, r: Rect, ax: Axis, at: int, w: int, up: bool, o: Area)
    requires Valid(u, Under(r), o) && Good(r, o) && ScaleSafe(u, ax, r.On(ax).len)
    requires w >= 0 && Good(r.With(ax, Span(at, w)), o)
    requires if up then at >= r.On(ax).at && w >= r.On(ax).len else at <= r.On(ax).at && w <= r.On(ax).len
    ensures ScaleSafe(MoveOn(u, ax, at - r.On(ax).at, o), ax, r.On(ax).len)
    ensures var k := Scale(MoveOn(u, ax, at - r.On(ax).at, o), ax, w, r.On(ax).len, o);
            && Drifts(u, k, ax, up, o) && k.Node? == u.Node?
            && (u.Node? ==> k.b.On(ax).at == Arrival(u.b.On(ax).at, at - r.On(ax).at, Origin(o, ax)))
    decreases Size(u), 3
  {
    var len, d := r.On(ax).len, at - r.On(ax).at;
    var v, r' := MoveOn(u, ax, d, o), r.With(ax, Span(at, len));
    MoveOnKeepsSafe(u, ax, len, d, o);
    ValidWithin(u, Under(r), o, o);
    MoveOnPlaces(u, ax, d, up, o);
    assert Valid(v, Under(r'), o) by {
      if ax.H? { MoveValid(u, r, d, 0, o); } else { MoveValid(u, r, 0, d, o); }
      assert r' == if ax.H? then r.Shift(d, 0) else r.Shift(0, d);
    }
    if len > 0 {
      ScaleDrifts(v, r', ax, w, len, up, o);
    } else {
      ValidWithin(v, Under(r'), o, o);
      DriftsSelf(v, ax, up, o);
    }
    DriftsTwice(u, v, Scale(v, ax, w, len, o), ax, up, o);
  }

  /** At every level of a scaled menu each submenu went with its owner, and its first button stays where it is. */
  lemma {:induction false} ScaleDrifts(m: Menu, r: Rect, ax: Axis, num: int, den: int, up: bool, o: Area)
    requires Valid(m, Under(r), o) && Good(r, o) && ScaleSafe(m, ax, den) && num >= 0 && den > 0
    requires if up then num >= den else num <= den
    ensures var k := Scale(m, ax, num, den, o);
            Drifts(m, k, ax, up, o) && k.Node? == m.Node? && (m.Node? ==> k.b.On(ax).at == m.b.On(ax).at)
    decreases Size(m), 2
  {
    if m.Node? && !m.b.free {
      if m.b.Runs(ax) {
        MemberAxis(m.b, ax);
        assert 0 * num / den == 0;
        ScaleRunDrifts(m, Under(r), ax, m.b.On(ax).at, m.b.On(ax).at, 0, num, den, up, o);
      } else {
        ScaleCrossDrifts(m, Under(r), ax, num, den, up, o);
      }
    } else {
      ValidWithin(m, Under(r), o, o);
      DriftsSelf(m, ax, up, o);
    }
  }

  lemma {:induction false} ScaleRunDrifts(m: Menu, p: Place, ax: Axis, at: int, start: int, sum: int,
                                          num: int, den: int, up: bool, o: Area)
    requires Valid(m, p, o) && !p.Top? && RunSafe(m, ax) && num >= 0 && den > 0 && sum >= 0
    requires p.Rest? ==> p.ax == ax
    requires p.Under? ==> m.Node? && Member(m.b, ax)
    requires Good(Space(p).With(ax, Span(start, 0)), o) && at == start + sum * num / den
    requires Space(p).On(ax).at == start + sum && if up then num >= den else num <= den
    ensures Drifts(m, ScaleRun(m, ax, at, start, sum, num, den, o), ax, up, o)
    decreases Size(m), 1
  {
    if m.Node? {
      ToRest(m, p, ax, o);
      var s := m.b.On(ax);
      var w := NewLen(sum + s.len, at, start, num, den);
      StepBounds(sum, s.len, start, num, den);
      DriftNumbers(sum, s.len, num, den, up);
      ScaleRunDrifts(m.next, Rest(ax, Beyond(m.b.rect, ax, Space(p))), ax, at + w, start, sum + s.len, num, den, up, o);
      RunNodeDrifts(m, ax, at, start, sum, num, den, up, o);
    }
  }

  lemma {:induction false} RunNodeDrifts(m: Menu, ax: Axis, at: int, start: int, sum: int, num: int, den: int, up: bool,
                                         o: Area)
    requires m.Node? && RunSafe(m, ax) && den > 0 && Valid(m.u, Under(m.b.rect), o) && Good(m.b.rect, o)
    requires var s, w := m.b.On(ax), NewLen(sum + m.b.On(ax).len, at, start, num, den);
             && w >= 0 && Good(m.b.rect.With(ax, Span(at, w)), o)
             && (if up then at >= s.at && w >= s.len else at <= s.at && w <= s.len)
             && Drifts(m.next, ScaleRun(m.next, ax, at + w, start, sum + s.len, num, den, o), ax, up, o)
    ensures Drifts(m, ScaleRun(m, ax, at, start, sum, num, den, o), ax, up, o)
    decreases Size(m), 0
  {
    var s := m.b.On(ax);
    var w := NewLen(sum + s.len, at, start, num, den);
    ScaleMovedDrifts(m.u, m.b.rect, ax, at, w, up, o);
    DriftsNode(m, m.b.WithSpan(ax, Span(at, w)), Scale(MoveOn(m.u, ax, at - s.at, o), ax, w, s.len, o),
               ScaleRun(m.next, ax, at + w, start, sum + s.len, num, den, o), ax, up, o);
  }

  lemma DriftsNode(m: Menu, b: Button, u: Menu, next: Menu, ax: Axis, up: bool, o: Area)
    requires m.Node? && b == m.b.WithSpan(ax, b.On(ax))
    requires if up then b.On(ax).at >= m.b.On(ax).at else b.On(ax).at <= m.b.On(ax).at
    requires GoesWith(m.u, u, m.b, b, ax, o) && Drifts(m.u, u, ax, up, o) && Drifts(m.next, next, ax, up, o)
    ensures Drifts(m, Node(b, u, next), ax, up, o)
  {
  }

  lemma {:induction false} ScaleCrossDrifts(m: Menu, p: Place, ax: Axis, num: int, den: int, up: bool, o: Area)
    requires Valid(m, p, o) && !p.Top? && CrossSafe(m, ax, den) && num >= 0 && den > 0
    requires p.Rest? ==> p.ax == ax.Other()
    requires m.Node? ==> !m.b.Runs(ax) && !m.b.free
    requires if up then num >= den else num <= den
    ensures Drifts(m, ScaleCross(m, ax, num, den, o), ax, up, o)
    decreases Size(m), 1
  {
    if m.Node? {
      ScaleDrifts(m.u, m.b.rect, ax, num, den, up, o);
      assert m.u.Node? ==> m.u.b.On(ax).at >= Origin(o, ax);
      if m.next.Node? {
        var run := ax.Other();
        ScaleCrossDrifts(m.next, Rest(run, Beyond(m.b.rect, run, Space(p))), ax, num, den, up, o);
      }
    }
  }

  /** So scaling takes every bound and free submenu along, and changes nothing on the other axis. */
  lemma ScaleRides(m: Menu, r: Rect, ax: Axis, num: int, den: int, o: Area)
    requires Valid(m, Under(r), o) && Good(r, o) && ScaleSafe(m, ax, den) && num >= 0 && den > 0
    ensures var k := Scale(m, ax, num, den, o);
            && Rides(m, k, ax, o) && SameOn(m, k, ax.Other()) && k.Node? == m.Node?
            && (m.Node? ==> k.b.On(ax).at == m.b.On(ax).at)
  {
    ScaleDrifts(m, r, ax, num, den, num >= den, o);
    DriftsRides(m, Scale(m, ax, num, den, o), ax, num >= den, o);
  }
}
