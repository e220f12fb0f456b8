/** What happens when the edge that is dragged is the outer edge of a sequence.
  *
  * `bmmove` takes `but_a` of the button for its left (or upper) neighbour.  For the first
  * button of a sequence that pointer leads to the button above instead, and the search for
  * an edge can return a first button (med3/bmstack.c, rfindedge).
  */
module FirstEdge {
  import opened MenuTree
  import opened Scaling
  import opened Resizes

  // ---------------------------------------------------------------- identities

  lemma {:induction false} MoveRunZero(m: Menu, p: Place, o: Area)
    requires Valid(m, p, o)
    ensures MoveRun(m, 0, 0, o) == m
    decreases m, 0
  {
    if m.Node? {
      MoveZero(m.u, m.b.rect, o);
      if m.next.Node? {
        var ax := if p.Rest? then p.ax else AxisOf(m.b);
        MoveRunZero(m.next, Rest(ax, Beyond(m.b.rect, ax, Space(p))), o);
      }
    }
  }

  lemma {:induction false} MoveZero(m: Menu, r: Rect, o: Area)
    requires Valid(m, Under(r), o)
    ensures Move(m, 0, 0, o) == m
    decreases m, 1
  {
    MoveRunZero(m, Under(r), o);
  }

  lemma MoveOnZero(m: Menu, ax: Axis, r: Rect, o: Area)
    requires Valid(m, Under(r), o)
    ensures MoveOn(m, ax, 0, o) == m
  {
    MoveZero(m, r, o);
  }

  /** Scaling by one changes nothing. */
  lemma {:induction false} ScaleSame(m: Menu, r: Rect, ax: Axis, k: int, o: Area)
    requires Valid(m, Under(r), o) && ScaleSafe(m, ax, k) && k >= 0
    ensures Scale(m, ax, k, k, o) == m
    decreases Size(m), 1
  {
    if m.Node? && !m.b.free {
      if m.b.Runs(ax) {
        MemberAxis(m.b, ax);
        ScaleRunSame(m, Under(r), ax, m.b.On(ax).at, 0, k, o);
      } else {
        ScaleCrossSame(m, Under(r), ax, k, o);
      }
    }
  }

  lemma {:induction false} ScaleRunSame(m: Menu, p: Place, ax: Axis, start: int, sum: int, k: int, o: Area)
    requires Valid(m, p, o) && !p.Top? && RunSafe(m, ax) && k > 0 && sum >= 0
    requires p.Rest? ==> p.ax == ax
    requires p.Under? ==> m.Node? && Member(m.b, ax)
    requires Space(p).On(ax).at == start + sum
    ensures ScaleRun(m, ax, start + sum, start, sum, k, k, o) == m
    decreases Size(m), 0
  {
    if m.Node? {
      ToRest(m, p, ax, o);
      var s := m.b.On(ax);
      SameLen(sum, s.len, start, k);
      MoveOnZero(m.u, ax, m.b.rect, o);
      ScaleSame(m.u, m.b.rect, ax, s.len, o);
      ScaleRunSame(m.next, Rest(ax, Beyond(m.b.rect, ax, Space(p))), ax, start, sum + s.len, k, o);
      RunSameNode(m, ax, start, sum, k, o);
    }
  }

  lemma RunSameNode(m: Menu, ax: Axis, start: int, sum: int, k: int, o: Area)
    requires m.Node? && RunSafe(m, ax) && k != 0
    requires var s := m.b.On(ax);
             && s.at == start + sum && NewLen(sum + s.len, start + sum, start, k, k) == s.len
             && MoveOn(m.u, ax, 0, o) == m.u && Scale(m.u, ax, s.len, s.len, o) == m.u
             && ScaleRun(m.next, ax, start + sum + s.len, start, sum + s.len, k, k, o) == m.next
    ensures ScaleRun(m, ax, start + sum, start, sum, k, k, o) == m
  {
  }

  lemma SameLen(sum: int, len: int, start: int, k: int)
    requires sum >= 0 && len >= 0 && k > 0
    ensures NewLen(sum + len, start + sum, start, k, k) == len
  {
    DivExact(sum + len, k);
    assert (sum + len) * k == k * (sum + len);
    DivMonotone(0, sum + len, k, k);
  }

  lemma {:induction false} ScaleCrossSame(m: Menu, p: Place, ax: Axis, k: int, o: Area)
    requires Valid(m, p, o) && !p.Top? && CrossSafe(m, ax, k) && k > 0
    requires p.Rest? ==> p.ax == ax.Other()
    requires m.Node? ==> !m.b.Runs(ax)
    ensures ScaleCross(m, ax, k, k, o) == m
    decreases Size(m), 0
  {
    if m.Node? {
      var len := m.b.On(ax).len;
      DivExact(len, k);
      assert len * k == k * len;
      DivMonotone(0, len, k, k);
      ScaleSame(m.u, m.b.rect, ax, k, o);
      if m.next.Node? {
        var run := ax.Other();
        ScaleCrossSame(m.next, Rest(run, Beyond(m.b.rect, run, Space(p))), ax, k, o);
      }
    }
  }

  // ---------------------------------------------------------------- the outer edge

  /** The sequence under `s` after its first button has been resized. */
  function FirstShifted(s: Menu, ax: Axis, x: int, o: Area): Menu
    requires s.Node? && GrowSafe(s.u, ax)
  {
    ShiftStart(s.u, ax, EdgeShift(s.b.On(ax), s.u.b.On(ax), x), o)
  }

  predicate FirstEdgeSafe(s: Menu, ax: Axis, x: int, o: Area) {
    s.Node? && GrowSafe(s.u, ax) && ScaleSafe(FirstShifted(s, ax, x, o), ax, s.b.On(ax).len)
  }

  /** `bmmove` on the first button under `s`: the owner `s` is taken for its neighbour. */
  function MoveFirstEdge(s: Menu, ax: Axis, x: int, o: Area): Menu
    requires FirstEdgeSafe(s, ax, x, o)
  {
    var d, len := EdgeShift(s.b.On(ax), s.u.b.On(ax), x), s.b.On(ax).len;
    Node(s.b.WithSpan(ax, Span(s.b.On(ax).at, len + d)), Scale(FirstShifted(s, ax, x, o), ax, len + d, len, o), s.next)
  }

  /** Whatever the owner is, the invariant survives exactly when the edge ends up where it was. */
  lemma MoveFirstEdgeValid(s: Menu, p: Place, ax: Axis, x: int, o: Area)
    requires Valid(s, p, o) && FirstEdgeSafe(s, ax, x, o) && Member(s.u.b, ax)
    ensures Valid(MoveFirstEdge(s, ax, x, o), p, o) <==> EdgeShift(s.b.On(ax), s.u.b.On(ax), x) == 0
  {
    if EdgeShift(s.b.On(ax), s.u.b.On(ax), x) == 0 {
      FirstEdgeStays(s, p, ax, x, o);
    } else {
      FirstEdgeMoves(s, ax, x, o);
    }
  }

  lemma FirstShiftedSame(s: Menu, ax: Axis, x: int, o: Area)
    requires s.Node? && GrowSafe(s.u, ax) && EdgeShift(s.b.On(ax), s.u.b.On(ax), x) == 0
    requires Valid(s.u.u, Under(s.u.b.rect), o) && Good(s.u.b.rect, o)
    ensures FirstShifted(s, ax, x, o) == s.u
  {
    var u := s.u;
    ScaleSame(u.u, u.b.rect, ax, u.b.On(ax).len, o);
    MoveOnZero(u.u, ax, u.b.rect, o);
  }

  lemma FirstEdgeStays(s: Menu, p: Place, ax: Axis, x: int, o: Area)
    requires Valid(s, p, o) && FirstEdgeSafe(s, ax, x, o) && EdgeShift(s.b.On(ax), s.u.b.On(ax), x) == 0
    ensures MoveFirstEdge(s, ax, x, o) == s
  {
    FirstShiftedSame(s, ax, x, o);
    ScaleSame(s.u, s.b.rect, ax, s.b.On(ax).len, o);
  }

  /** Scaling leaves the beginning of a sequence where it was. */
  lemma ScaleFirst(m: Menu, ax: Axis, num: int, den: int, o: Area)
    requires m.Node? && Member(m.b, ax) && ScaleSafe(m, ax, den)
    ensures var r := Scale(m, ax, num, den, o);
            r.Node? && Member(r.b, ax) && r.b.On(ax).at == m.b.On(ax).at
  {
    assert Scale(m, ax, num, den, o) == ScaleRun(m, ax, m.b.On(ax).at, m.b.On(ax).at, 0, num, den, o);
  }

  /** The first button no longer begins where its owner does. */
  lemma FirstEdgeMoves(s: Menu, ax: Axis, x: int, o: Area)
    requires FirstEdgeSafe(s, ax, x, o) && Member(s.u.b, ax) && EdgeShift(s.b.On(ax), s.u.b.On(ax), x) != 0
    requires s.u.b.On(ax).at == s.b.On(ax).at
    ensures var m := MoveFirstEdge(s, ax, x, o);
            m.u.Node? && Member(m.u.b, ax) && m.u.b.On(ax).at != m.b.On(ax).at
  {
    var d, f, len := EdgeShift(s.b.On(ax), s.u.b.On(ax), x), FirstShifted(s, ax, x, o), s.b.On(ax).len;
    assert f.b.On(ax).at == s.u.b.On(ax).at + d;
    ScaleFirst(f, ax, len + d, len, o);
  }
}
