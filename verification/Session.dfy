/** Whole editing sessions: the state of the menu editor, its commands, and what every
  * sequence of commands keeps (med3/med3.c, main loop).
  */
module Session {
  import opened MenuTree
  import opened Edits
  import opened Resizes
  import opened FirstEdge
  import opened Paths
  import opened ReturnValues
  import SaveLoad
  import RoundTrip
  import Reading

  const MAXCUT := 500

  /** The menu, the stack of cut buttons and the table of return values. */
  datatype State = State(menu: Menu, cuts: seq<Menu>, t: Tables) {
    function LastCut(): Menu
      requires cuts != []
    {
      cuts[|cuts| - 1]
    }
  }

  /** What is done to the part of the menu that starts at one button: the button itself,
    * for a cut the owner of the sequence, for an edge the button before it, for the edge of the first
    * button of a sequence, which the search for an edge can return as well, the owner.
    */
  datatype Edit =
    | DivideButton(ax: Axis, press: int, x: int)
    | CoverRun(n: nat)
    | UncoverButton
    | CutButton(k: nat)
    | PasteButton
    | DragEdge(ax: Axis, x: int)
    | DragFirstEdge(ax: Axis, x: int)
    | DragSide(ax: Axis, side: Side, x: int)
    | SpaceEvenly(n: nat)
    | AddBound(r: Rect)
    | AddFree(x1: int, y1: int, x2: int, y2: int)
    | ChooseCell(cell: nat)
    | ChooseLayer(layer: nat)

  /** `ReadFile(m, from)` reads a file that the editor wrote of menu `m`, when its editing area was `from`. */
  datatype Command =
    | New(x: int, y: int)
    | CutRoot
    | ReadFile(m: Menu, from: Area)
    | EditAt(path: seq<Step>, e: Edit)

  /** What the user interface guarantees when it starts a command on part `m`.  The current
    * button is always one whose caption is on display, hence opaque.
    */
  predicate Offers(s: State, m: Menu, e: Edit, o: Area) {
    m.Node? &&
    match e
    case DivideButton(_, _, _) => !m.b.clear
    case CoverRun(n) => 1 <= n <= Len(m)
    case UncoverButton => CanUncover(m) && !m.b.clear
    case CutButton(k) => k < Len(m.u) && !Piece(m.u, k).b.clear
    case PasteButton => !m.b.clear && s.cuts != []
    case DragEdge(ax, _) => Member(m.b, ax) && m.next.Node?
    case DragFirstEdge(ax, _) => m.u.Node? && Member(m.u.b, ax)
    case DragSide(_, _, _) => m.b.ndiv
    case SpaceEvenly(n) => 2 <= n <= Len(m)
    case AddBound(r) => m.u.Nil? && !m.b.clear && Good(r, o)
    case AddFree(_, _, _, _) => m.u.Nil? && !m.b.clear
    case ChooseCell(cell) => !m.b.clear && cell < CELLS
    case ChooseLayer(layer) => !m.b.clear && layer < LAYERS
  }

  /** The command divides by no zero length. */
  predicate Safe(s: State, m: Menu, e: Edit, o: Area)
    requires Offers(s, m, e, o)
  {
    match e
    case DivideButton(ax, _, _) => GrowSafe(m, ax)
    case CutButton(k) => CutUnderSafe(m, k)
    case PasteButton => PasteSafe(s.LastCut())
    case DragEdge(ax, _) => MoveEdgeSafe(m, ax)
    case DragFirstEdge(ax, x) => FirstEdgeSafe(m, ax, x, o)
    case DragSide(ax, _, _) => GrowSafe(m, ax)
    case SpaceEvenly(n) => SpaceSafe(m, n, AxisOf(m.b))
    case _ => true
  }

  /** The command has enough room to work in. */
  predicate Roomy(s: State, m: Menu, e: Edit, o: Area)
    requires Offers(s, m, e, o)
  {
    match e
    case DivideButton(ax, _, _) => m.b.On(ax).len >= 3
    case UncoverButton => m.b.hor || m.b.ver ==> m.u.b.hor || m.u.b.ver
    case DragEdge(ax, _) => m.b.On(ax).len + m.next.b.On(ax).len >= 2
    case DragFirstEdge(ax, x) => EdgeShift(m.b.On(ax), m.u.b.On(ax), x) == 0
    case DragSide(ax, side, _) =>
      if side.Start? then m.b.On(ax).End() >= Origin(o, ax) + 2 else m.b.On(ax).at <= MOST + 1
    case _ => true
  }

  function OtherCell(rv: nat, cell: nat): nat
    requires cell < CELLS
  {
    RvFull(CellOf(rv) / CELLS * CELLS + cell)
  }

  function OtherLayer(rv: nat, layer: nat): nat
    requires layer < LAYERS
  {
    RvFull(layer * CELLS + CellOf(rv) % CELLS)
  }

  function WithRv(m: Menu, rv: nat): Menu
    requires m.Node?
  {
    m.(b := m.b.(rv := rv))
  }

  /** What takes the place of part `m`. */
  function Edited(s: State, m: Menu, e: Edit, o: Area): Menu
    requires s.t.Ok() && Offers(s, m, e, o) && Safe(s, m, e, o)
  {
    match e
    case DivideButton(ax, press, x) => Divide(m, ax, press, x, NextValue(s.t), o)
    case CoverRun(n) => Cover(m, n, NextValue(s.t))
    case UncoverButton => Uncover(m)
    case CutButton(k) => CutUnder(m, k, o)
    case PasteButton => Paste(m, s.LastCut(), o)
    case DragEdge(ax, x) => MoveEdge(m, ax, x, o)
    case DragFirstEdge(ax, x) => MoveFirstEdge(m, ax, x, o)
    case DragSide(ax, side, x) => MoveSide(m, ax, side, x, o)
    case SpaceEvenly(n) => Equispace(m, n, o)
    case AddBound(r) => AddSubmenu(m, r, false, NextValue(s.t))
    case AddFree(x1, y1, x2, y2) => AddSubmenu(m, FreeRect(x1, y1, x2, y2, o), true, NextValue(s.t))
    case ChooseCell(cell) => WithRv(m, OtherCell(m.b.rv, cell))
    case ChooseLayer(layer) => WithRv(m, OtherLayer(m.b.rv, layer))
  }

  /** Commands that create a button, or make one opaque, ask for a return value. */
  predicate AsksForValue(m: Menu, e: Edit) {
    e.DivideButton? || e.AddBound? || e.AddFree? || (e.CoverRun? && m.Node? && (e.n > 1 || m.b.clear))
  }

  /** The counters after the edit. */
  function Counted(s: State, m: Menu, e: Edit, o: Area): (t: Tables)
    requires s.t.Ok() && Offers(s, m, e, o)
    ensures t.Ok()
  {
    if AsksForValue(m, e) then AfterNext(s.t)
    else
      match e
      case UncoverButton => FreeValue(s.t, m.b.rv)
      case CutButton(k) => if |s.cuts| < MAXCUT then MoveValues(s.t, Piece(m.u, k), false) else s.t
      case PasteButton => FreeValue(FreeValues(MoveValues(s.t, s.LastCut(), true), m.u), m.b.rv)
      case ChooseCell(cell) => TakeValue(FreeValue(s.t, m.b.rv), OtherCell(m.b.rv, cell))
      case ChooseLayer(layer) => TakeValue(FreeValue(s.t, m.b.rv), OtherLayer(m.b.rv, layer))
      case _ => s.t
  }

  /** The stack of cut buttons after the edit; a cut on a full stack loses the button. */
  function Stacked(s: State, m: Menu, e: Edit, o: Area): seq<Menu>
    requires Offers(s, m, e, o)
  {
    if e.CutButton? && |s.cuts| < MAXCUT then s.cuts + [Piece(m.u, e.k)]
    else if e.PasteButton? then s.cuts[..|s.cuts| - 1]
    else s.cuts
  }

  /** `newbmen` after `getbox`. */
  function NewMenu(x: int, y: int, rv: nat, o: Area): Menu {
    var w, h := (if x < o.x + 5 then 5 else x - o.x) + 1, (if y < o.y + 5 then 5 else y - o.y) + 1;
    Node(Blank(Rect(Span(o.x, w), Span(o.y, h)), rv).(first := true, ndiv := true, free := true), Nil, Nil)
  }

  /** The editor, working in area `from`, can have written a file of menu `m` that can be loaded. */
  predicate Fileable(m: Menu, from: Area) {
    m.Node? && Valid(m, Top, from) && SaveLoad.Holding(m)
  }

  /** The menu that is made of a file. */
  function ReadBack(m: Menu, from: Area, o: Area): (r: Menu)
    requires Fileable(m, from)
    ensures Reading.Comes(m, r, o.x - m.b.rect.h.at, o.y - m.b.rect.v.at)
    ensures Valid(r, Top, o) <==> Within(m, Reading.Corner(m))
  {
    Reading.ReadIs(m, from, o);
    var r := RoundTrip.Read(RoundTrip.Written(m), o);
    Reading.ComesTiledIff(m, r, from, Reading.Corner(m), o.x - m.b.rect.h.at, o.y - m.b.rect.v.at, o);
    r
  }

  predicate Offered(s: State, c: Command, o: Area) {
    match c
    case New(_, _) => true
    case ReadFile(m, from) => Fileable(m, from)
    case CutRoot => s.menu.Node? && !s.menu.b.clear
    case EditAt(path, e) => Has(s.menu, path) && Offers(s, At(s.menu, path), e, o)
  }

  predicate NoTrap(s: State, c: Command, o: Area)
    requires Offered(s, c, o)
  {
    c.EditAt? ==> Safe(s, At(s.menu, c.path), c.e, o)
  }

  /** An edit has enough room, and no part of a menu that is read is left of or above its corner. */
  predicate HasRoom(s: State, c: Command, o: Area)
    requires Offered(s, c, o)
  {
    && (c.EditAt? ==> Roomy(s, At(s.menu, c.path), c.e, o))
    && (c.ReadFile? ==> Within(c.m, Reading.Corner(c.m)))
  }

  lemma EditedIsNode(s: State, m: Menu, e: Edit, o: Area)
    requires s.t.Ok() && Offers(s, m, e, o) && Safe(s, m, e, o)
    ensures Edited(s, m, e, o).Node?
  {
  }

  function ApplyNew(cuts: seq<Menu>, t: Tables, x: int, y: int, o: Area): (r: State)
    requires t.Ok()
    ensures r.t.Ok()
  {
    State(NewMenu(x, y, NextValue(t), o), cuts, AfterNext(t))
  }

  function ApplyCutRoot(s: State, piece: Menu): (r: State)
    requires s.t.Ok()
    ensures r.t.Ok()
  {
    if |s.cuts| < MAXCUT then State(Nil, s.cuts + [piece], MoveValues(s.t, piece, false)) else s.(menu := Nil)
  }

  /** `bmread`: the cut buttons stay, and the values of the new menu are counted. */
  function ApplyRead(s: State, m: Menu): (r: State)
    requires s.t.Ok()
    ensures r.t.Ok()
  {
    State(m, s.cuts, RoundTrip.TakeValues(Tables(Zeros(), s.t.cut), m))
  }

  function ApplyEdit(s: State, path: seq<Step>, e: Edit, o: Area): (r: State)
    requires s.t.Ok() && Has(s.menu, path) && Offers(s, At(s.menu, path), e, o) && Safe(s, At(s.menu, path), e, o)
    ensures r.t.Ok()
  {
    var m := At(s.menu, path);
    EditedIsNode(s, m, e, o);
    State(Put(s.menu, path, Edited(s, m, e, o)), Stacked(s, m, e, o), Counted(s, m, e, o))
  }

  function Apply(s: State, c: Command, o: Area): (r: State)
    requires s.t.Ok() && Offered(s, c, o) && NoTrap(s, c, o)
    ensures r.t.Ok()
  {
    if c.New? then ApplyNew(s.cuts, Tables(Zeros(), s.t.cut), c.x, c.y, o)
    else if c.CutRoot? then ApplyCutRoot(s, Node(s.menu.b, s.menu.u, Nil))
    else if c.ReadFile? then ApplyRead(s, ReadBack(c.m, c.from, o))
    else ApplyEdit(s, c.path, c.e, o)
  }

  // ---------------------------------------------------------------- tiling

  predicate Tiled(s: State, o: Area) {
    Valid(s.menu, Top, o) && forall i | 0 <= i < |s.cuts| :: ValidPiece(s.cuts[i], o)
  }

  /** The edited part is valid in its place exactly when the command had room. */
  lemma EditedValid(s: State, m: Menu, e: Edit, p: Place, o: Area)
    requires s.t.Ok() && Offers(s, m, e, o) && Safe(s, m, e, o) && Tiled(s, o) && Valid(m, p, o)
    ensures Valid(Edited(s, m, e, o), p, o) <==> Roomy(s, m, e, o)
  {
    match e
    case DivideButton(ax, press, x) => DivideValid(m, p, ax, press, x, NextValue(s.t), o);
    case CoverRun(n) => CoverValid(m, p, n, NextValue(s.t), o);
    case UncoverButton => UncoverValid(m, p, o);
    case CutButton(k) => CutUnderValid(m, p, k, o);
    case PasteButton => PasteValid(m, p, s.LastCut(), o);
    case DragEdge(ax, x) => MoveEdgeValid(m, p, ax, x, o);
    case DragFirstEdge(ax, x) => MoveFirstEdgeValid(m, p, ax, x, o);
    case DragSide(ax, side, x) => MoveSideValid(m, p, ax, side, x, o);
    case SpaceEvenly(n) => EquispaceValid(m, p, n, o);
    case AddBound(r) => AddSubmenuValid(m, p, r, false, NextValue(s.t), o);
    case AddFree(x1, y1, x2, y2) => AddSubmenuValid(m, p, FreeRect(x1, y1, x2, y2, o), true, NextValue(s.t), o);
    case ChooseCell(cell) => ReplaceUnder(m, p, Edited(s, m, e, o).b, m.u, o);
    case ChooseLayer(layer) => ReplaceUnder(m, p, Edited(s, m, e, o).b, m.u, o);
  }

  lemma StackedValid(s: State, m: Menu, e: Edit, p: Place, o: Area)
    requires Offers(s, m, e, o) && Tiled(s, o) && Valid(m, p, o)
    ensures forall i | 0 <= i < |Stacked(s, m, e, o)| :: ValidPiece(Stacked(s, m, e, o)[i], o)
  {
    if e.CutButton? {
      PieceValid(m.u, e.k, Under(m.b.rect), o);
    }
  }

  /** One command keeps every sequence tiled exactly when it had room to work in. */
  lemma ApplyTiled(s: State, c: Command, o: Area)
    requires s.t.Ok() && Offered(s, c, o) && NoTrap(s, c, o) && Tiled(s, o)
    ensures Tiled(Apply(s, c, o), o) <==> HasRoom(s, c, o)
  {
    if c.EditAt? {
      var m, p := At(s.menu, c.path), PlaceAt(s.menu, c.path, Top);
      EditedIsNode(s, m, c.e, o);
      AtValid(s.menu, c.path, Top, o);
      EditedValid(s, m, c.e, p, o);
      PutValid(s.menu, c.path, Edited(s, m, c.e, o), Top, o);
      StackedValid(s, m, c.e, p, o);
    } else if c.New? {
      assert Valid(Apply(s, c, o).menu.u, Under(Apply(s, c, o).menu.b.rect), o);
    }
  }

  // ---------------------------------------------------------------- sessions

  /** Every command of the session is offered and does not trap. */
  predicate Runs(s: State, cs: seq<Command>, o: Area)
    requires s.t.Ok()
    decreases |cs|
  {
    cs == [] || (Offered(s, cs[0], o) && NoTrap(s, cs[0], o) && Runs(Apply(s, cs[0], o), cs[1..], o))
  }

  /** Every command of the session has room. */
  predicate RoomyRun(s: State, cs: seq<Command>, o: Area)
    requires s.t.Ok() && Runs(s, cs, o)
    decreases |cs|
  {
    cs == [] || (HasRoom(s, cs[0], o) && RoomyRun(Apply(s, cs[0], o), cs[1..], o))
  }

  /** The menu and the cut buttons are tiled before and after every command of the session. */
  predicate TiledRun(s: State, cs: seq<Command>, o: Area)
    requires s.t.Ok() && Runs(s, cs, o)
    decreases |cs|
  {
    Tiled(s, o) && (cs == [] || TiledRun(Apply(s, cs[0], o), cs[1..], o))
  }

  function After(s: State, cs: seq<Command>, o: Area): (r: State)
    requires s.t.Ok() && Runs(s, cs, o)
    ensures r.t.Ok()
    decreases |cs|
  {
    if cs == [] then s else After(Apply(s, cs[0], o), cs[1..], o)
  }

  const START := State(Nil, [], Tables(Zeros(), Zeros()))

  /** A session that begins tiled is tiled throughout exactly when every command has room. */
  lemma {:induction false} AfterTiled(s: State, cs: seq<Command>, o: Area)
    requires s.t.Ok() && Tiled(s, o) && Runs(s, cs, o)
    ensures TiledRun(s, cs, o) <==> RoomyRun(s, cs, o)
    ensures TiledRun(s, cs, o) ==> Tiled(After(s, cs, o), o)
    decreases |cs|
  {
    if cs != [] {
      ApplyTiled(s, cs[0], o);
      if HasRoom(s, cs[0], o) { AfterTiled(Apply(s, cs[0], o), cs[1..], o); }
    }
  }

  /** After any session whose commands had room the menu is tiled at every level and `bmcheck` does not abort. */
  lemma SessionTiled(cs: seq<Command>, o: Area)
    requires Runs(START, cs, o) && RoomyRun(START, cs, o)
    ensures Valid(After(START, cs, o).menu, Top, o) && Check(After(START, cs, o).menu, true)
  {
    AfterTiled(START, cs, o);
    ValidChecks(After(START, cs, o).menu, Top, o);
  }

  /** Covering a part of a sequence, or all of it, and uncovering the new button gives back the very same state: the
    * menu, the cut buttons and, while a cell is unused, the counters.
    */
  lemma CoverThenUncover(s: State, path: seq<Step>, n: nat, o: Area)
    requires s.t.Ok() && Tiled(s, o) && n >= 2 && HasUnused(s.t) && Offered(s, EditAt(path, CoverRun(n)), o)
    ensures var covered := Apply(s, EditAt(path, CoverRun(n)), o);
            && Offered(covered, EditAt(path, UncoverButton), o) && NoTrap(covered, EditAt(path, UncoverButton), o)
            && Apply(covered, EditAt(path, UncoverButton), o) == s
  {
    var m, rv := At(s.menu, path), NextValue(s.t);
    AtValid(s.menu, path, Top, o);
    UncoverCover(m, PlaceAt(s.menu, path, Top), n, rv, o);
    PutTwice(s.menu, path, Cover(m, n, rv), m);
    NextThenFree(s.t);
  }
}
