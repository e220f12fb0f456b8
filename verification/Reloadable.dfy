/** When the menu that is being edited can be written and read again (med3/med3.c, med3/rw.c): whole sessions keep every
  * transparent button over two or more others, except for two uses of cover and uncover.
  */
module Reloadable {
  import opened MenuTree
  import opened Scaling
  import opened Edits
  import opened Resizes
  import opened FirstEdge
  import opened Paths
  import opened Placement
  import opened ReturnValues
  import opened SaveLoad
  import opened Session
  import opened RoundTrip
  import Faithful
  import Reading

  // ---------------------------------------------------------------- what the rectangles do not decide

  lemma {:induction false} BonesHolding(m: Menu, k: Menu)
    requires Bones(m) == Bones(k)
    ensures Holding(m) == Holding(k) && m.Node? == k.Node? && (m.Node? ==> m.next.Node? == k.next.Node?)
    decreases m
  {
    if m.Node? {
      assert Bones(m).b == m.b.(rect := NOWHERE) && Bones(k).b == k.b.(rect := NOWHERE);
      BonesHolding(m.u, k.u);
      BonesHolding(m.next, k.next);
    }
  }

  // ---------------------------------------------------------------- one button

  /** Button `b` may stand over `u`. */
  predicate Bears(b: Button, u: Menu) { (b.clear ==> u.Node? && u.next.Node?) && Holding(u) }

  lemma BearsBones(b: Button, u: Menu, c: Button, k: Menu)
    requires Bears(b, u) && c.clear == b.clear && Bones(k) == Bones(u)
    ensures Bears(c, k)
  {
    BonesHolding(k, u);
  }

  lemma ResizeBears(m: Menu, ax: Axis, len: int, o: Area)
    requires GrowSafe(m, ax) && Bears(m.b, m.u)
    ensures Bears(Resize(m, ax, len, o).b, Resize(m, ax, len, o).u)
  {
    ScaleBones(m.u, ax, len, m.b.On(ax).len, o);
    BearsBones(m.b, m.u, Resize(m, ax, len, o).b, Resize(m, ax, len, o).u);
  }

  lemma RelocateBears(m: Menu, ax: Axis, at: int, len: int, o: Area)
    requires GrowSafe(m, ax) && Bears(m.b, m.u)
    ensures Bears(Relocate(m, ax, at, len, o).b, Relocate(m, ax, at, len, o).u)
  {
    var s := m.b.On(ax);
    MoveOnKeepsSafe(m.u, ax, s.len, at - s.at, o);
    MoveOnBones(m.u, ax, at - s.at, o);
    ScaleBones(MoveOn(m.u, ax, at - s.at, o), ax, len, s.len, o);
    BearsBones(m.b, m.u, Relocate(m, ax, at, len, o).b, Relocate(m, ax, at, len, o).u);
  }

  lemma ShiftStartBears(m: Menu, ax: Axis, d: int, o: Area)
    requires GrowSafe(m, ax) && Bears(m.b, m.u)
    ensures Bears(ShiftStart(m, ax, d, o).b, ShiftStart(m, ax, d, o).u)
  {
    var s := m.b.On(ax);
    ScaleBones(m.u, ax, s.len - d, s.len, o);
    MoveOnBones(Scale(m.u, ax, s.len - d, s.len, o), ax, d, o);
    BearsBones(m.b, m.u, ShiftStart(m, ax, d, o).b, ShiftStart(m, ax, d, o).u);
  }

  // ---------------------------------------------------------------- the edits

  lemma DivideHolding(s: Menu, ax: Axis, press: int, x: int, rv: nat, o: Area)
    requires s.Node? && ScaleSafe(s.u, ax, s.b.On(ax).len) && !s.b.clear && Holding(s)
    ensures Holding(Divide(s, ax, press, x, rv, o))
    ensures s.next.Node? ==> Divide(s, ax, press, x, rv, o).next.Node?
  {
    var d, len := Divide(s, ax, press, x, rv, o), s.b.On(ax).len;
    var c, early := CutAt(s.b.On(ax), x), press < TDiv(len, 2);
    ContentsHolding(s.u, ax, len, c, early, o);
    assert Holding(Nil);
    if GoesUnder(s.b, ax) {
      PairHolding(d.u);
      assert d.u.next.Node? && d.next == s.next;
    } else {
      PairHolding(d);
    }
  }

  lemma ContentsHolding(u: Menu, ax: Axis, len: int, c: int, early: bool, o: Area)
    requires ScaleSafe(u, ax, len) && Holding(u)
    ensures Holding(LowContents(u, ax, len, c, early, o)) && Holding(HighContents(u, ax, len, c, early, o))
  {
    MoveOnKeepsSafe(u, ax, len, c, o);
    MoveOnBones(u, ax, c, o);
    ScaleBones(u, ax, c, len, o);
    ScaleBones(MoveOn(u, ax, c, o), ax, len - c, len, o);
    assert Holding(Nil);
    if early {
      BonesHolding(HighContents(u, ax, len, c, early, o), u);
    } else {
      BonesHolding(LowContents(u, ax, len, c, early, o), u);
    }
  }

  lemma PairHolding(d: Menu)
    requires d.Node? && d.next.Node? && !d.b.clear && !d.next.b.clear
    requires Holding(d.u) && Holding(d.next.u) && Holding(d.next.next)
    ensures Holding(d)
  {
    assert Holding(d.next);
  }

  lemma {:induction false} AppendHolding(m: Menu, n: Menu)
    ensures Holding(Append(m, n)) <==> Holding(m) && Holding(n)
    ensures m.Node? && (m.next.Node? || n.Node?) ==> Append(m, n).next.Node?
  {
    if m.Node? { AppendHolding(m.next, n); }
  }

  lemma {:induction false} TakeDropHolding(m: Menu, n: nat)
    requires n <= Len(m) && Holding(m)
    ensures Holding(Take(m, n)) && Holding(Drop(m, n))
  {
    if n > 0 { TakeDropHolding(m.next, n - 1); }
  }

  lemma CoverHolding(s: Menu, n: nat, rv: nat)
    requires 1 <= n <= Len(s) && Holding(s)
    ensures Holding(Cover(s, n, rv))
    ensures Cover(s, n, rv).Node? && (Cover(s, n, rv).next.Node? <==> if n == 1 then s.next.Node? else n < Len(s))
  {
    TakeDropHolding(s, n);
    if n > 1 {
      assert Take(s, n).Node?;
      assert Holding(WithFirst(Take(s, n), true));
      assert Drop(s, n).Node? <==> Len(Drop(s, n)) > 0;
    }
  }

  /** The button becomes transparent and stays where it is. */
  predicate Bares(s: Menu)
    requires CanUncover(s)
  {
    (s.b.hor && s.u.b.ver) || (s.b.ver && s.u.b.hor) || s.b.ndiv
  }

  lemma UncoverHolding(s: Menu)
    requires CanUncover(s) && Holding(s)
    ensures Holding(Uncover(s)) <==> (Bares(s) ==> s.u.next.Node?)
    ensures Uncover(s).Node? && (s.next.Node? ==> Uncover(s).next.Node?)
  {
    if !Bares(s) {
      AppendHolding(WithFirst(s.u, s.b.first), s.next);
      assert Holding(WithFirst(s.u, s.b.first));
    }
  }

  lemma {:induction false} CutRunHolding(m: Menu, k: nat, o: Area)
    requires k < Len(m) && Len(m) >= 2 && CutSafe(m, k) && Holding(m)
    ensures CutRun(m, k, o).Node? && Holding(CutRun(m, k, o))
    decreases k
  {
    assert Len(m.next) > 0;
    if k == 0 {
      var ax := AxisOf(m.b);
      RelocateBears(m.next, ax, m.b.On(ax).at, m.b.On(ax).len + m.next.b.On(ax).len, o);
    } else if k == 1 {
      var ax := AxisOf(m.next.b);
      ResizeBears(m, ax, m.next.b.On(ax).len + m.b.On(ax).len, o);
    } else {
      CutRunHolding(m.next, k - 1, o);
    }
  }

  lemma CutUnderHolding(s: Menu, k: nat, o: Area)
    requires s.Node? && k < Len(s.u) && CutUnderSafe(s, k) && Holding(s)
    ensures Holding(CutUnder(s, k, o)) && CutUnder(s, k, o).next == s.next
  {
    if s.u.next.Node? {
      assert Len(s.u.next) > 0;
      CutRunHolding(s.u, k, o);
    } else {
      assert Holding(Nil);
    }
  }

  lemma PieceHolding(m: Menu, k: nat)
    requires k < Len(m) && Holding(m)
    ensures Holding(Piece(m, k))
  {
    TakeDropHolding(m, k);
    assert Holding(Nil) && Len(Drop(m, k)) > 0;
  }

  lemma PasteHolding(s: Menu, c: Menu, o: Area)
    requires s.Node? && !s.b.clear && PasteSafe(c) && Holding(s) && Holding(c)
    ensures Holding(Paste(s, c, o)) && Paste(s, c, o).next == s.next
  {
    var from, r := c.b.rect, s.b.rect;
    var dx, dy := r.h.at - from.h.at, r.v.at - from.v.at;
    var u := Move(c.u, dx, dy, o);
    MoveKeepsSafe(c.u, H, from.h.len, dx, dy, o);
    MoveKeepsSafe(c.u, V, from.v.len, dx, dy, o);
    ScaleKeepsSafe(u, H, r.h.len, from.h.len, from.v.len, o);
    MoveBones(c.u, dx, dy, o);
    ScaleBones(u, H, r.h.len, from.h.len, o);
    ScaleBones(Scale(u, H, r.h.len, from.h.len, o), V, r.v.len, from.v.len, o);
    BonesHolding(Fitted(c, r, o), c.u);
  }

  lemma MoveEdgeHolding(s: Menu, ax: Axis, x: int, o: Area)
    requires MoveEdgeSafe(s, ax) && Holding(s)
    ensures Holding(MoveEdge(s, ax, x, o)) && MoveEdge(s, ax, x, o).Node? && MoveEdge(s, ax, x, o).next.Node?
  {
    var d := EdgeShift(s.b.On(ax), s.next.b.On(ax), x);
    ResizeBears(s, ax, s.b.On(ax).len + d, o);
    ShiftStartBears(s.next, ax, d, o);
  }

  lemma MoveFirstEdgeHolding(s: Menu, ax: Axis, x: int, o: Area)
    requires FirstEdgeSafe(s, ax, x, o) && Holding(s)
    ensures Holding(MoveFirstEdge(s, ax, x, o)) && MoveFirstEdge(s, ax, x, o).next == s.next
  {
    var d, f := EdgeShift(s.b.On(ax), s.u.b.On(ax), x), FirstShifted(s, ax, x, o);
    ShiftStartBears(s.u, ax, d, o);
    assert Bears(s.b, f);
    ScaleBones(f, ax, s.b.On(ax).len + d, s.b.On(ax).len, o);
    BearsBones(s.b, f, MoveFirstEdge(s, ax, x, o).b, MoveFirstEdge(s, ax, x, o).u);
  }

  lemma MoveSideHolding(s: Menu, ax: Axis, side: Side, x: int, o: Area)
    requires GrowSafe(s, ax) && Holding(s)
    ensures Holding(MoveSide(s, ax, side, x, o)) && MoveSide(s, ax, side, x, o).next == s.next
  {
    var d := SideShift(s.b.On(ax), side, x, Origin(o, ax));
    if side.Start? { ShiftStartBears(s, ax, d, o); } else { ResizeBears(s, ax, s.b.On(ax).len + d, o); }
  }

  lemma {:induction false} SpaceRunHolding(m: Menu, ax: Axis, mark: nat -> int, i: nat, n: nat, o: Area)
    requires i <= n && n - i <= Len(m) && SpaceSafe(m, n - i, ax) && Holding(m)
    ensures Holding(SpaceRun(m, ax, mark, i, n, o)) && SpaceRun(m, ax, mark, i, n, o).Node? == m.Node?
    ensures m.Node? ==> SpaceRun(m, ax, mark, i, n, o).next.Node? == m.next.Node?
    decreases n - i
  {
    if i < n {
      RelocateBears(m, ax, mark(i), mark(i + 1) - mark(i), o);
      SpaceRunHolding(m.next, ax, mark, i + 1, n, o);
    }
  }

  /** The menu stays loadable unless a button over a single one is made transparent. */
  predicate Keeps(m: Menu, e: Edit) {
    e.UncoverButton? && CanUncover(m) && Bares(m) ==> m.u.next.Node?
  }

  /** A single button is left of the sequence that begins with `m`. */
  predicate Gathers(m: Menu, e: Edit) { e.CoverRun? && e.n > 1 && e.n == Len(m) }

  lemma EditedHolding(s: State, m: Menu, e: Edit, o: Area)
    requires s.t.Ok() && Offers(s, m, e, o) && Safe(s, m, e, o) && Holding(m)
    requires forall i | 0 <= i < |s.cuts| :: Holding(s.cuts[i])
    ensures Holding(Edited(s, m, e, o)) <==> Keeps(m, e)
    ensures Edited(s, m, e, o).Node? && (m.next.Node? ==> (Edited(s, m, e, o).next.Node? <==> !Gathers(m, e)))
  {
    match e
    case DivideButton(ax, press, x) => DivideHolding(m, ax, press, x, NextValue(s.t), o);
    case CoverRun(n) => CoverHolding(m, n, NextValue(s.t));
    case UncoverButton => UncoverHolding(m);
    case CutButton(k) => CutUnderHolding(m, k, o);
    case PasteButton => PasteHolding(m, s.LastCut(), o);
    case DragEdge(ax, x) => MoveEdgeHolding(m, ax, x, o);
    case DragFirstEdge(ax, x) => MoveFirstEdgeHolding(m, ax, x, o);
    case DragSide(ax, side, x) => MoveSideHolding(m, ax, side, x, o);
    case SpaceEvenly(n) =>
      var ax := AxisOf(m.b);
      SpaceRunHolding(m, ax, Marks(m.b.On(ax).at, SumLen(m, n, ax), n), 0, n, o);
    case AddBound(r) => assert Holding(Nil);
    case AddFree(x1, y1, x2, y2) => assert Holding(Nil);
    case ChooseCell(cell) =>
    case ChooseLayer(layer) =>
  }

  // ---------------------------------------------------------------- anywhere in a menu

  /** Is the part at `p` the sequence under a transparent button? `above` answers for the empty path. */
  predicate UnderClear(t: Menu, p: seq<Step>, above: bool)
    requires Has(t, p)
  {
    if p == [] then above
    else if p[0].Down? then UnderClear(t.u, p[1..], t.b.clear)
    else UnderClear(t.next, p[1..], false)
  }

  lemma {:induction false} AtHolding(t: Menu, p: seq<Step>, above: bool)
    requires Has(t, p) && Holding(t) && (above ==> t.next.Node?)
    ensures Holding(At(t, p)) && (UnderClear(t, p, above) ==> At(t, p).next.Node?)
  {
    if p != [] {
      if p[0].Down? { AtHolding(t.u, p[1..], t.b.clear); } else { AtHolding(t.next, p[1..], false); }
    }
  }

  /** Replacing a part keeps the menu loadable exactly when the new part is, and is long enough for its owner. */
  lemma {:induction false} PutHolding(t: Menu, p: seq<Step>, s: Menu, above: bool)
    requires Has(t, p) && s.Node? && Holding(t) && (above ==> t.next.Node?)
    ensures Holding(Put(t, p, s)) && (above ==> Put(t, p, s).next.Node?) <==>
            Holding(s) && (UnderClear(t, p, above) ==> s.next.Node?)
  {
    if p != [] {
      if p[0].Down? { PutHolding(t.u, p[1..], s, t.b.clear); } else { PutHolding(t.next, p[1..], s, false); }
    }
  }

  // ---------------------------------------------------------------- sessions

  /** The menu, and every button that was cut, could be written and read again. */
  predicate AllHolding(s: State) {
    Holding(s.menu) && forall i | 0 <= i < |s.cuts| :: Holding(s.cuts[i])
  }

  /** The command makes no button over a single one transparent, and covers no whole sequence under a transparent
    * button.
    */
  predicate Keeping(s: State, c: Command, o: Area)
    requires Offered(s, c, o)
  {
    c.EditAt? ==>
      Keeps(At(s.menu, c.path), c.e) && !(UnderClear(s.menu, c.path, false) && Gathers(At(s.menu, c.path), c.e))
  }

  lemma {:induction false} FlatHolding(m: Menu)
    requires Holding(m)
    ensures Holding(Flat(m)) && (m.Node? && m.next.Node? ==> Flat(m).next.Node?)
  {
    if m.Node? {
      FlatHolding(m.u);
      FlatHolding(m.next);
      if Dissolves(m) {
        AppendHolding(WithFirst(Flat(m.u), m.b.first), Flat(m.next));
        assert Holding(WithFirst(Flat(m.u), m.b.first));
      }
    }
  }

  lemma {:induction false} MarkHolding(m: Menu, lone: bool)
    ensures Holding(Mark(m, lone)) <==> Holding(m)
  {
    if m.Node? {
      MarkHolding(m.u, Lone(m.u));
      MarkHolding(m.next, false);
    }
  }

  lemma {:induction false} KeptHolding(m: Menu)
    ensures Holding(Kept(m)) <==> Holding(m)
  {
    if m.Node? {
      KeptHolding(m.u);
      KeptHolding(m.next);
    }
  }

  lemma {:induction false} ShiftHolding(m: Menu, dx: int, dy: int)
    ensures Holding(ShiftMenu(m, dx, dy)) <==> Holding(m)
  {
    if m.Node? {
      ShiftHolding(m.u, dx, dy);
      ShiftHolding(m.next, dx, dy);
    }
  }

  /** What is read can be written and read again. */
  lemma ComesHolding(t: Menu, r: Menu, dx: int, dy: int)
    requires Reading.Comes(t, r, dx, dy) && Holding(t)
    ensures Holding(r)
  {
    MarkHolding(t, true);
    FlatHolding(Mark(t, true));
    KeptHolding(Flat(Mark(t, true)));
    ShiftHolding(Kept(Flat(Mark(t, true))), dx, dy);
    KeptHolding(r);
  }

  lemma StackedHolding(s: State, m: Menu, e: Edit, o: Area)
    requires Offers(s, m, e, o) && AllHolding(s) && Holding(m)
    ensures forall i | 0 <= i < |Stacked(s, m, e, o)| :: Holding(Stacked(s, m, e, o)[i])
  {
    if e.CutButton? { PieceHolding(m.u, e.k); }
  }

  lemma EditHolding(s: State, path: seq<Step>, e: Edit, o: Area)
    requires s.t.Ok() && Has(s.menu, path) && Offers(s, At(s.menu, path), e, o) && Safe(s, At(s.menu, path), e, o)
    requires AllHolding(s)
    ensures AllHolding(ApplyEdit(s, path, e, o)) <==>
            Keeps(At(s.menu, path), e) && !(UnderClear(s.menu, path, false) && Gathers(At(s.menu, path), e))
  {
    var m := At(s.menu, path);
    AtHolding(s.menu, path, false);
    EditedHolding(s, m, e, o);
    PutHolding(s.menu, path, Edited(s, m, e, o), false);
    StackedHolding(s, m, e, o);
  }

  /** One command keeps the menu loadable exactly under that condition, whether or not it had room. */
  lemma ApplyHolding(s: State, c: Command, o: Area)
    requires s.t.Ok() && Offered(s, c, o) && NoTrap(s, c, o) && AllHolding(s)
    ensures AllHolding(Apply(s, c, o)) <==> Keeping(s, c, o)
  {
    if c.EditAt? {
      EditHolding(s, c.path, c.e, o);
    } else if c.ReadFile? {
      ComesHolding(c.m, ReadBack(c.m, c.from, o), o.x - c.m.b.rect.h.at, o.y - c.m.b.rect.v.at);
      ReadHolding(s, ReadBack(c.m, c.from, o));
    } else if c.CutRoot? {
      CutRootHolding(s);
    } else {
      NewHolding(s, c.x, c.y, NextValue(Tables(Zeros(), s.t.cut)), o);
    }
  }

  lemma ReadHolding(s: State, r: Menu)
    requires s.t.Ok() && AllHolding(s) && Holding(r)
    ensures AllHolding(ApplyRead(s, r))
  {
  }

  lemma CutRootHolding(s: State)
    requires s.t.Ok() && AllHolding(s) && s.menu.Node?
    ensures AllHolding(ApplyCutRoot(s, Node(s.menu.b, s.menu.u, Nil)))
  {
    assert Holding(Nil) && Holding(Node(s.menu.b, s.menu.u, Nil));
  }

  lemma NewHolding(s: State, x: int, y: int, rv: nat, o: Area)
    requires AllHolding(s)
    ensures AllHolding(s.(menu := NewMenu(x, y, rv, o)))
  {
    assert Holding(Nil);
  }

  predicate KeepingRun(s: State, cs: seq<Command>, o: Area)
    requires s.t.Ok() && Runs(s, cs, o)
    decreases |cs|
  {
    cs == [] || (Keeping(s, cs[0], o) && KeepingRun(Apply(s, cs[0], o), cs[1..], o))
  }

  predicate HoldingRun(s: State, cs: seq<Command>, o: Area)
    requires s.t.Ok() && Runs(s, cs, o)
    decreases |cs|
  {
    AllHolding(s) && (cs == [] || HoldingRun(Apply(s, cs[0], o), cs[1..], o))
  }

  lemma {:induction false} AfterHolding(s: State, cs: seq<Command>, o: Area)
    requires s.t.Ok() && AllHolding(s) && Runs(s, cs, o)
    ensures HoldingRun(s, cs, o) <==> KeepingRun(s, cs, o)
    ensures HoldingRun(s, cs, o) ==> AllHolding(After(s, cs, o))
    decreases |cs|
  {
    if cs != [] {
      ApplyHolding(s, cs[0], o);
      if Keeping(s, cs[0], o) { AfterHolding(Apply(s, cs[0], o), cs[1..], o); }
    }
  }

  /** After any session of such commands the menu can be written and read again, and if they had room, its file is one
    * that the read command takes.
    */
  lemma SessionReloads(cs: seq<Command>, o: Area)
    requires Runs(START, cs, o) && KeepingRun(START, cs, o) && After(START, cs, o).menu.Node?
    ensures Loadable(Save(After(START, cs, o).menu, 1, true, true))
    ensures RoomyRun(START, cs, o) ==> Fileable(After(START, cs, o).menu, o)
  {
    var m := After(START, cs, o).menu;
    AfterHolding(START, cs, o);
    TakeDropHolding(m, 1);
    Faithful.LoadableIff(m, 1, true, true);
    AfterTiled(START, cs, o);
  }

  // ---------------------------------------------------------------- menus that do not come back

  /** Divide a new menu, and cover both pieces again. */
  function CoverBoth(x: int, y: int, ax: Axis, press: int, at: int): seq<Command> {
    [New(x, y), EditAt([], DivideButton(ax, press, at)), EditAt([Down], CoverRun(2))]
  }

  /** In every editing area, and wherever the new menu is divided, this leaves a tiled menu whose file cannot be loaded:
    * the transparent root holds a single button.
    */
  lemma CoverBothLoses(x: int, y: int, ax: Axis, press: int, at: int, o: Area)
    ensures var cs := CoverBoth(x, y, ax, press, at);
            && Runs(START, cs, o) && RoomyRun(START, cs, o) && After(START, cs, o).menu.Node?
            && !Loadable(Save(After(START, cs, o).menu, 1, true, true))
  {
    var d, e := EditAt([], DivideButton(ax, press, at)), EditAt([Down], CoverRun(2));
    var s := Apply(START, New(x, y), o);
    NewSquare(s, x, y, ax, o);
    DivideCoverLoses(s, d, e, o);
    RunOn(START, New(x, y), [d, e], o);
    assert CoverBoth(x, y, ax, press, at) == [New(x, y)] + [d, e];
  }

  lemma DivideCoverLoses(s: State, d: Command, e: Command, o: Area)
    requires s.t.Ok() && s.menu.Node? && s.menu.u.Nil? && s.menu.next.Nil? && s.menu.b.ndiv && !s.menu.b.clear
    requires d.EditAt? && d.path == [] && d.e.DivideButton? && s.menu.b.On(d.e.ax).len >= 3
    requires e == EditAt([Down], CoverRun(2))
    ensures Runs(s, [d, e], o) && RoomyRun(s, [d, e], o) && After(s, [d, e], o).menu.Node?
    ensures !Loadable(Save(After(s, [d, e], o).menu, 1, true, true))
  {
    DividedNew(s, d.e, o);
    CoveredBoth(Apply(s, d, o), o);
    RunOn(Apply(s, d, o), e, [], o);
    RunOn(s, d, [e], o);
    assert [d, e] == [d] + [e] && [e] == [e] + [];
  }

  lemma NewSquare(s: State, x: int, y: int, ax: Axis, o: Area)
    requires s == Apply(START, New(x, y), o)
    ensures s.t.Ok() && s.menu.Node? && s.menu.u.Nil? && s.menu.next.Nil? && s.menu.b.ndiv && !s.menu.b.clear
    ensures s.menu.b.On(ax).len >= 6
  {
  }

  /** A session that goes on after its first command. */
  lemma RunOn(s: State, c: Command, cs: seq<Command>, o: Area)
    requires s.t.Ok() && Offered(s, c, o) && NoTrap(s, c, o) && HasRoom(s, c, o)
    requires Runs(Apply(s, c, o), cs, o) && RoomyRun(Apply(s, c, o), cs, o)
    ensures Runs(s, [c] + cs, o) && RoomyRun(s, [c] + cs, o)
    ensures After(s, [c] + cs, o) == After(Apply(s, c, o), cs, o)
  {
    assert ([c] + cs)[1..] == cs;
  }

  lemma DividedNew(s: State, e: Edit, o: Area)
    requires s.t.Ok() && e.DivideButton? && s.menu.Node? && s.menu.u.Nil? && s.menu.next.Nil? && s.menu.b.ndiv
    requires !s.menu.b.clear
    ensures Offered(s, EditAt([], e), o) && NoTrap(s, EditAt([], e), o)
    ensures var m := Apply(s, EditAt([], e), o).menu;
            && m.Node? && m.b.clear && m.next.Nil? && Len(m.u) == 2
  {
    var d := Edited(s, s.menu, e, o);
    assert d.u.next.next == Nil && Len(d.u) == 1 + (1 + Len(Nil));
  }

  lemma CoveredBoth(s: State, o: Area)
    requires s.t.Ok() && s.menu.Node? && s.menu.b.clear && s.menu.next.Nil? && Len(s.menu.u) == 2
    ensures Offered(s, EditAt([Down], CoverRun(2)), o)
    ensures var m := Apply(s, EditAt([Down], CoverRun(2)), o).menu;
            m.Node? && !Loadable(Save(m, 1, true, true))
  {
    var u := s.menu.u;
    assert [Down][1..] == [] && At(s.menu, [Down]) == u && Has(u, []);
    var c := Cover(u, 2, NextValue(s.t));
    assert Len(Drop(u, 2)) == 0;
    assert Put(s.menu, [Down], c) == s.menu.(u := Put(u, [], c));
    Faithful.RootLoadable(s.menu.(u := c));
  }

  /** Cutting one of two buttons under a transparent member of a sequence leaves a menu that comes back changed, when
    * the other one is transparent: both then run in the same direction.
    */
  lemma CutDissolves(s: Menu, p: Place, ax: Axis, k: nat, o: Area)
    requires Valid(s, p, o) && s.Node? && Member(s.b, ax) && s.b.clear && Readable(s)
    requires Len(s.u) == 2 && k < 2 && CutUnderSafe(s, k) && Piece(s.u, 1 - k).b.clear
    ensures Dissolves(CutUnder(s, k, o))
  {
    var u := s.u;
    assert Len(u) == 1 + Len(u.next) && Len(u.next) == 1 + Len(u.next.next);
    assert Drop(u, 1) == u.next && Drop(u, 0) == u;
    var run := ax.Other();
    assert Member(u.b, run);
    MemberAxis(u.b, run);
    ToRest(u, Under(s.b.rect), run, o);
    assert Valid(u.next, Rest(run, Beyond(u.b.rect, run, s.b.rect)), o) && Member(u.next.b, run);
    MemberAxis(u.next.b, run);
    assert Readable(u) && Readable(u.next) && Piece(u, 1 - k).b == if k == 0 then u.next.b else u.b;
    HoldsAxis(u, ax, o);
    HoldsAxis(u.next, ax, o);
    if k == 0 {
      RelocateHead(u.next, run, u.b.On(run).at, u.b.On(run).len + u.next.b.On(run).len, o);
    } else {
      ScaleBones(u.u, run, u.next.b.On(run).len + u.b.On(run).len, u.b.On(run).len, o);
      BonesHead(u.u, CutRun(u, k, o).u);
    }
  }

  /** What a transparent member of a sequence holds when it does not dissolve. */
  lemma HoldsAxis(m: Menu, ax: Axis, o: Area)
    requires m.Node? && Member(m.b, ax.Other()) && Valid(m.u, Under(m.b.rect), o) && Readable(m)
    ensures m.b.clear ==> m.u.Node? && m.u.b.Runs(ax)
  {
  }

  lemma RelocateHead(m: Menu, ax: Axis, at: int, len: int, o: Area)
    requires GrowSafe(m, ax) && m.u.Node?
    ensures var u := Relocate(m, ax, at, len, o).u;
            u.Node? && u.b.hor == m.u.b.hor && u.b.ver == m.u.b.ver
  {
    var s := m.b.On(ax);
    MoveOnKeepsSafe(m.u, ax, s.len, at - s.at, o);
    MoveOnBones(m.u, ax, at - s.at, o);
    ScaleBones(MoveOn(m.u, ax, at - s.at, o), ax, len, s.len, o);
    BonesHead(m.u, Relocate(m, ax, at, len, o).u);
  }
}
