/** What every command does to the state of the editor, in terms of what the user chose (med3/med3.c, main loop). */
module Effects {
  import opened MenuTree
  import opened Scaling
  import opened Edits
  import opened Resizes
  import opened Paths
  import opened ReturnValues
  import opened Outcomes
  import opened Session
  import Reading

  // ---------------------------------------------------------------- the edits

  /** `k` is `m` with a new single button for `rv`, with rectangle `r`, underneath. */
  predicate Added(m: Menu, k: Menu, r: Rect, free: bool, rv: nat) {
    && m.Node? && k.Node? && k.b == m.b && k.next == m.next && Empty(k.u, rv) && k.u.next.Nil?
    && k.u.b.rect == r && k.u.b.ndiv && k.u.b.first && k.u.b.free == free && !k.u.b.hor && !k.u.b.ver
  }

  /** The extent between two corners: it does not begin before `least`, and is at least ten units long. */
  predicate Cornered(s: Span, a: int, b: int, least: int) {
    && s.at >= least && (s.at == a || s.at == b || s.at == least)
    && (a >= least && b >= least ==> s.at <= a && s.at <= b)
    && (a < least || b < least ==> s.at == least)
    && s.len >= 10 && (s.len == 10 || s.len == a - b || s.len == b - a) && s.len >= a - b && s.len >= b - a
  }

  /** The `n` buttons are under a blank one that takes their room. */
  predicate Gathered(m: Menu, k: Menu, n: nat, rv: nat) {
    if n == 1 then
      m.Node? && k == if m.b.clear then m.(b := m.b.(clear := false, caption := "", rv := rv)) else m
    else
      && m.Node? && n <= Len(m) && k.Node? && k.u.Node? && k.u.b.first && Len(k.u) == n
      && Append(WithFirst(k.u, m.b.first), k.next) == m && !k.b.clear && !k.b.ndiv && !k.b.free
      && k.b.rv == rv && k.b.style == PLAIN && k.b.caption == "" && k.b.first == m.b.first
      && k.b.rect == m.b.rect.With(AxisOf(m.b), Span(m.b.On(AxisOf(m.b)).at, SumLen(m, n, AxisOf(m.b))))
  }

  /** The buttons under `m` are in its place, or, when it is indivisible or they run the other way, it is transparent.
    */
  predicate Uncovered(m: Menu, k: Menu) {
    && m.Node? && m.u.Node? &&
    if m.b.ndiv || (m.b.hor && m.u.b.ver) || (m.b.ver && m.u.b.hor) then k == m.(b := m.b.(clear := true))
    else
      && k.Node? && Len(k) == Len(m.u) + Len(m.next) && Drop(k, Len(m.u)) == m.next && k.b.first == m.b.first
      && Take(k, Len(m.u)).Node? && WithFirst(Take(k, Len(m.u)), m.u.b.first) == m.u
  }

  /** The value of `k` alone is another one, in this cell of this layer. */
  predicate Chosen(m: Menu, k: Menu, layer: nat, cell: nat) {
    && m.Node? && k.Node? && k == m.(b := m.b.(rv := k.b.rv))
    && CellOf(k.b.rv) == layer * CELLS + cell
  }

  /** `k` is what edit `e` makes of part `m`. */
  ghost predicate Does(s: State, m: Menu, e: Edit, k: Menu, o: Area)
    requires s.t.Ok() && Offers(s, m, e, o)
  {
    match e
    case DivideButton(ax, press, x) => Divided(m, k, ax, press, x, NextValue(s.t), o)
    case CoverRun(n) => Gathered(m, k, n, NextValue(s.t))
    case UncoverButton => Uncovered(m, k)
    case CutButton(i) => Parted(m, i, k, AxisOf(m.u.b), o)
    case PasteButton => Pasted(m, s.cuts[|s.cuts| - 1], k, o)
    case DragEdge(ax, x) => EdgeMoved(m, k, ax, x, o)
    case DragFirstEdge(ax, x) => FirstEdgeMoved(m, k, ax, x)
    case DragSide(ax, side, x) => SideMoved(m, k, ax, side, x, o)
    case SpaceEvenly(n) =>
      var ax := AxisOf(m.b);
      && Len(k) == Len(m) && Drop(k, n) == Drop(m, n)
      && forall i | 0 <= i < n :: Spaced(Drop(m, i), Drop(k, i), ax, m.b.On(ax).at, SumLen(m, n, ax), i, n, o)
    case AddBound(r) => Added(m, k, r, false, NextValue(s.t))
    case AddFree(x1, y1, x2, y2) =>
      && k.Node? && k.u.Node? && Added(m, k, k.u.b.rect, true, NextValue(s.t))
      && Cornered(k.u.b.rect.h, x1, x2, o.x) && Cornered(k.u.b.rect.v, y1, y2, o.y)
    case ChooseCell(cell) => Chosen(m, k, CellOf(m.b.rv) / CELLS, cell)
    case ChooseLayer(layer) => Chosen(m, k, layer, CellOf(m.b.rv) % CELLS)
  }

  lemma CoverDoes(m: Menu, p: Place, n: nat, rv: nat, o: Area)
    requires Valid(m, p, o) && 1 <= n <= Len(m)
    ensures Gathered(m, Cover(m, n, rv), n, rv)
  {
    if n > 1 {
      TakeLen(m, n);
      var k := Cover(m, n, rv);
      assert Take(m, n).Node? && WithFirst(k.u, m.b.first) == Take(m, n);
      assert Len(k.u) == Len(Take(m, n));
    }
  }

  lemma {:induction false} AppendParts(m: Menu, n: Menu)
    ensures Len(Append(m, n)) == Len(m) + Len(n)
    ensures Take(Append(m, n), Len(m)) == m && Drop(Append(m, n), Len(m)) == n
  {
    if m.Node? { AppendParts(m.next, n); }
  }

  lemma UncoverDoes(m: Menu)
    requires CanUncover(m)
    ensures Uncovered(m, Uncover(m))
  {
    AppendParts(WithFirst(m.u, m.b.first), m.next);
  }

  lemma ChooseDoes(m: Menu, cell: nat, layer: nat)
    requires m.Node? && cell < CELLS && layer < LAYERS
    ensures Chosen(m, WithRv(m, OtherCell(m.b.rv, cell)), CellOf(m.b.rv) / CELLS, cell)
    ensures Chosen(m, WithRv(m, OtherLayer(m.b.rv, layer)), layer, CellOf(m.b.rv) % CELLS)
  {
    var c := CellOf(m.b.rv);
    CellOfRvFull(c / CELLS * CELLS + cell);
    CellOfRvFull(layer * CELLS + c % CELLS);
  }

  lemma FreeDoes(a: int, b: int, least: int)
    ensures Cornered(FreeSpan(a, b, least), a, b, least)
  {
  }

  /** Every edit that has room does what the user asked for. */
  lemma EditedDoes(s: State, m: Menu, e: Edit, p: Place, o: Area)
    requires s.t.Ok() && Offers(s, m, e, o) && Safe(s, m, e, o) && Tiled(s, o) && Valid(m, p, o) && Roomy(s, m, e, o)
    ensures Does(s, m, e, Edited(s, m, e, o), o)
  {
    match e
    case DivideButton(ax, press, x) => DivideDoes(m, p, ax, press, x, NextValue(s.t), o);
    case CoverRun(n) => CoverDoes(m, p, n, NextValue(s.t), o);
    case UncoverButton => UncoverDoes(m);
    case CutButton(i) => CutUnderDoes(m, p, i, o);
    case PasteButton => PasteDoes(m, s.LastCut(), o);
    case DragEdge(ax, x) => MoveEdgeDoes(m, p, ax, x, o);
    case DragFirstEdge(ax, x) => MoveFirstEdgeDoes(m, ax, x, o);
    case DragSide(ax, side, x) => MoveSideDoes(m, p, ax, side, x, o);
    case SpaceEvenly(n) =>
      var ax := AxisOf(m.b);
      forall i | 0 <= i < n
        ensures Len(Equispace(m, n, o)) == Len(m) && Drop(Equispace(m, n, o), n) == Drop(m, n)
        ensures Spaced(Drop(m, i), Drop(Equispace(m, n, o), i), ax, m.b.On(ax).at, SumLen(m, n, ax), i, n, o)
      {
        EquispaceDoes(m, p, n, i, o);
      }
      EquispaceDoes(m, p, n, 0, o);
    case AddBound(r) =>
    case AddFree(x1, y1, x2, y2) =>
      FreeDoes(x1, x2, o.x);
      FreeDoes(y1, y2, o.y);
    case ChooseCell(cell) => ChooseDoes(m, cell, 0);
    case ChooseLayer(layer) => ChooseDoes(m, 0, layer);
  }

  // ---------------------------------------------------------------- anywhere in a menu

  /** Replacing a part leaves every button that is not in it as it was. */
  lemma {:induction false} PutElsewhere(t: Menu, p: seq<Step>, s: Menu, q: seq<Step>)
    requires Has(t, p) && s.Node? && Has(t, q) && !(p <= q)
    ensures Has(Put(t, p, s), q) && At(Put(t, p, s), q).b == At(t, q).b
  {
    if q != [] && p[0] == q[0] {
      assert p == [p[0]] + p[1..] && q == [q[0]] + q[1..];
      PutElsewhere(if p[0].Down? then t.u else t.next, p[1..], s, q[1..]);
    }
  }

  /** An edit anywhere in the menu changes the part it was asked to, and no button outside it. */
  lemma EditDoes(s: State, path: seq<Step>, e: Edit, q: seq<Step>, o: Area)
    requires s.t.Ok() && Tiled(s, o) && Offered(s, EditAt(path, e), o) && NoTrap(s, EditAt(path, e), o)
    requires HasRoom(s, EditAt(path, e), o)
    ensures var r := Apply(s, EditAt(path, e), o);
            && Has(r.menu, path) && Does(s, At(s.menu, path), e, At(r.menu, path), o)
            && (Has(s.menu, q) && !(path <= q) ==> Has(r.menu, q) && At(r.menu, q).b == At(s.menu, q).b)
  {
    var m := At(s.menu, path);
    AtValid(s.menu, path, Top, o);
    EditedIsNode(s, m, e, o);
    EditedDoes(s, m, e, PlaceAt(s.menu, path, Top), o);
    AtPut(s.menu, path, Edited(s, m, e, o));
    if Has(s.menu, q) && !(path <= q) { PutElsewhere(s.menu, path, Edited(s, m, e, o), q); }
  }

  // ---------------------------------------------------------------- other commands

  /** A new menu is one blank button from the corner of the editing area to where the mouse was, at least six units long
    * in either direction. /
    */
  lemma NewDoes(s: State, x: int, y: int, o: Area)
    requires s.t.Ok()
    ensures var r := Apply(s, New(x, y), o);
            && Empty(r.menu, NextValue(Tables(Zeros(), s.t.cut))) && r.menu.next.Nil? && r.cuts == s.cuts
            && r.menu.b.ndiv && r.menu.b.free && r.menu.b.first && !r.menu.b.hor && !r.menu.b.ver
            && r.menu.b.rect.h.at == o.x && r.menu.b.rect.v.at == o.y
            && r.menu.b.rect.h.End() - 1 == (if x < o.x + 5 then o.x + 5 else x)
            && r.menu.b.rect.v.End() - 1 == (if y < o.y + 5 then o.y + 5 else y)
  {
  }

  /** Every return value is counted afresh for the new menu, and cut buttons keep theirs. */
  lemma NewCounts(s: State, x: int, y: int, o: Area, c: nat)
    requires s.t.Ok() && HasUnused(Tables(Zeros(), s.t.cut)) && c < ALL
    ensures var r := Apply(s, New(x, y), o);
            r.t.main[c] == Held(r.menu, c) && r.t.cut == s.t.cut
  {
    var t := Tables(Zeros(), s.t.cut);
    CellOfRvFull(FirstUnused(t, 0));
    var m := Apply(s, New(x, y), o).menu;
    assert Held(m.u, c) == 0 && Held(m.next, c) == 0;
  }

  /** Reading replaces the menu, keeps the cut buttons and counts the values of the written menu afresh. */
  lemma ReadDoes(s: State, m: Menu, from: Area, o: Area)
    requires s.t.Ok() && Offered(s, ReadFile(m, from), o)
    ensures Apply(s, ReadFile(m, from), o) == ApplyRead(s, ReadBack(m, from, o))
    ensures ReadsAs(s, m, ReadBack(m, from, o), ApplyRead(s, ReadBack(m, from, o)))
  {
    ReadCounts(s, m, ReadBack(m, from, o), from, o.x - m.b.rect.h.at, o.y - m.b.rect.v.at, o);
  }

  /** `r` is `s` with menu `k`, which was read from a file of `m`. */
  predicate ReadsAs(s: State, m: Menu, k: Menu, r: State) {
    && r.menu == k && r.cuts == s.cuts && r.t.cut == s.t.cut && r.t.Ok()
    && forall c | 0 <= c < ALL && Held(m, c) <= 255 :: r.t.main[c] == Held(m, c)
  }

  lemma ReadCounts(s: State, m: Menu, k: Menu, from: Area, dx: int, dy: int, o: Area)
    requires s.t.Ok() && m.Node? && Valid(m, Top, from) && Reading.Comes(m, k, dx, dy)
    requires o == Area(m.b.rect.h.at + dx, m.b.rect.v.at + dy)
    ensures ReadsAs(s, m, k, ApplyRead(s, k))
  {
    Reading.ComesLeft(m, k, from, dx, dy, o, s.t.cut);
  }

  /** Cutting the root leaves no menu. The menu goes on the stack and its values to the other table, if the stack is not
    * full; otherwise it is lost, and its values stay in use.
    */
  lemma CutRootDoes(s: State, o: Area, c: nat)
    requires s.t.Ok() && Offered(s, CutRoot, o) && c < ALL && s.menu.next.Nil?
    requires Held(s.menu, c) <= s.t.main[c] && s.t.cut[c] + Held(s.menu, c) <= 255
    ensures var r, n := Apply(s, CutRoot, o), if |s.cuts| < MAXCUT then Held(s.menu, c) else 0;
            && r.menu == Nil && r.cuts == (if |s.cuts| < MAXCUT then s.cuts + [s.menu] else s.cuts)
            && r.t.main[c] == s.t.main[c] - n && r.t.cut[c] == s.t.cut[c] + n
  {
    assert Node(s.menu.b, s.menu.u, Nil) == s.menu;
    if |s.cuts| < MAXCUT { MoveValuesEffect(s.t, s.menu, false, c); }
  }

  /** The button pasted is the one cut last, and the stack is then what it was before that cut. */
  lemma CutThenPaste(s: State, path: seq<Step>, i: nat, q: seq<Step>, o: Area)
    requires s.t.Ok() && Tiled(s, o) && |s.cuts| < MAXCUT
    requires Offered(s, EditAt(path, CutButton(i)), o) && NoTrap(s, EditAt(path, CutButton(i)), o)
    requires var c := Apply(s, EditAt(path, CutButton(i)), o);
             Offered(c, EditAt(q, PasteButton), o) && NoTrap(c, EditAt(q, PasteButton), o)
    ensures var c := Apply(s, EditAt(path, CutButton(i)), o);
            var r := Apply(c, EditAt(q, PasteButton), o);
            var cut := Drop(At(s.menu, path).u, i);
            && r.cuts == s.cuts && cut.Node? && Has(r.menu, q)
            && Pasted(At(c.menu, q), Node(cut.b, cut.u, Nil), At(r.menu, q), o)
  {
    var c := Apply(s, EditAt(path, CutButton(i)), o);
    ApplyTiled(s, EditAt(path, CutButton(i)), o);
    assert Len(Drop(At(s.menu, path).u, i)) > 0;
    assert c.cuts[..|c.cuts| - 1] == s.cuts;
    EditDoes(c, q, PasteButton, [], o);
  }

  // ---------------------------------------------------------------- no division by zero

  /** Every button of `m` has an extent in both directions. */
  predicate Sized(m: Menu) {
    m.Nil? || (m.b.rect.h.len > 0 && m.b.rect.v.len > 0 && Sized(m.u) && Sized(m.next))
  }

  lemma {:induction false} SizedScaleSafe(m: Menu, ax: Axis, den: int)
    requires Sized(m) && den != 0
    ensures ScaleSafe(m, ax, den)
    decreases m, 1
  {
    if m.Node? { SizedRunSafe(m, ax, den); }
  }

  lemma {:induction false} SizedRunSafe(m: Menu, ax: Axis, den: int)
    requires Sized(m) && den != 0
    ensures RunSafe(m, ax) && CrossSafe(m, ax, den)
    decreases m, 0
  {
    if m.Node? {
      SizedScaleSafe(m.u, ax, m.b.On(ax).len);
      SizedScaleSafe(m.u, ax, den);
      SizedRunSafe(m.next, ax, den);
    }
  }

  lemma SizedGrowSafe(m: Menu, ax: Axis)
    requires m.Node? && Sized(m)
    ensures GrowSafe(m, ax)
  {
    SizedScaleSafe(m.u, ax, m.b.On(ax).len);
  }

  lemma {:induction false} SizedCutSafe(m: Menu, k: nat)
    requires Sized(m) && k < Len(m) && Len(m) >= 2
    ensures CutSafe(m, k)
    decreases k
  {
    assert Len(m.next) > 0;
    if k == 0 {
      SizedGrowSafe(m.next, AxisOf(m.b));
    } else if k == 1 {
      SizedGrowSafe(m, AxisOf(m.next.b));
    } else {
      SizedCutSafe(m.next, k - 1);
    }
  }

  lemma {:induction false} SizedSpaceSafe(m: Menu, n: nat, ax: Axis)
    requires Sized(m) && n <= Len(m)
    ensures SpaceSafe(m, n, ax)
  {
    if n > 0 {
      SizedGrowSafe(m, ax);
      SizedSpaceSafe(m.next, n - 1, ax);
    }
  }

  /** Where every button has an extent no edit divides by zero, except that dragging the edge of a first button scales a
    * sequence once more, whose parts may have lost theirs.
    */
  lemma SizedSafe(s: State, m: Menu, e: Edit, o: Area)
    requires Offers(s, m, e, o) && Sized(m) && !e.DragFirstEdge?
             && (e.PasteButton? ==> Sized(s.LastCut()) && s.LastCut().Node?)
    ensures Safe(s, m, e, o)
  {
    match e
    case DivideButton(ax, _, _) => SizedGrowSafe(m, ax);
    case CutButton(k) => if Len(m.u) >= 2 { SizedCutSafe(m.u, k); }
    case PasteButton =>
      SizedGrowSafe(s.LastCut(), H);
      SizedGrowSafe(s.LastCut(), V);
    case DragEdge(ax, _) =>
      SizedGrowSafe(m, ax);
      SizedGrowSafe(m.next, ax);
    case DragSide(ax, _, _) => SizedGrowSafe(m, ax);
    case SpaceEvenly(n) => SizedSpaceSafe(m, n, AxisOf(m.b));
    case _ =>
  }
}
