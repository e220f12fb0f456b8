/** The counters of the return value table over whole sessions: they are never below the
  * number of opaque buttons that use a value, so no value in use is handed out again.
  */
module ValueSafety {
  import opened MenuTree
  import opened Edits
  import opened Resizes
  import opened Labels
  import opened Paths
  import opened ReturnValues
  import opened Session
  import RoundTrip

  predicate Opaque(piece: Menu) { piece.Node? && piece.next.Nil? && !piece.b.clear }

  /** No cell is counted too low, neither for the menu nor for the cut buttons. */
  predicate Covered(s: State) {
    s.t.Ok() &&
    (forall i | 0 <= i < |s.cuts| :: Opaque(s.cuts[i])) &&
    forall c | 0 <= c < ALL :: Held(s.menu, c) <= s.t.main[c] && HeldCuts(s.cuts, c) <= s.t.cut[c]
  }

  predicate FitsCut(t: Tables, piece: Menu)
    requires t.Ok()
  {
    forall c | 0 <= c < ALL :: t.cut[c] + Held(piece, c) <= 255
  }

  predicate FitsMain(t: Tables, piece: Menu)
    requires t.Ok()
  {
    forall c | 0 <= c < ALL :: t.main[c] + Held(piece, c) <= 255
  }

  predicate CanTake(t: Tables, from: nat, to: nat)
    requires t.Ok()
  {
    t.main[CellOf(to)] < 255 || CellOf(to) == CellOf(from)
  }

  /** A free cell is left when one is asked for, and no counter wraps around. */
  predicate Countable(s: State, m: Menu, e: Edit, o: Area)
    requires s.t.Ok() && Offers(s, m, e, o)
  {
    (AsksForValue(m, e) ==> HasUnused(s.t)) &&
    match e
    case CutButton(k) => |s.cuts| < MAXCUT ==> FitsCut(s.t, Piece(m.u, k))
    case PasteButton => FitsMain(s.t, s.LastCut())
    case ChooseCell(cell) => CanTake(s.t, m.b.rv, OtherCell(m.b.rv, cell))
    case ChooseLayer(layer) => CanTake(s.t, m.b.rv, OtherLayer(m.b.rv, layer))
    case _ => true
  }

  predicate CountsFit(s: State, c: Command, o: Area)
    requires s.t.Ok() && Offered(s, c, o)
  {
    if c.New? then HasUnused(Tables(Zeros(), s.t.cut))
    else if c.CutRoot? then |s.cuts| < MAXCUT ==> FitsCut(s.t, Node(s.menu.b, s.menu.u, Nil))
    else if c.ReadFile? then FitsMain(Tables(Zeros(), s.t.cut), ReadBack(c.m, c.from, o))
    else Countable(s, At(s.menu, c.path), c.e, o)
  }

  // ---------------------------------------------------------------- one edit

  lemma NextEffect(t: Tables, c: nat)
    requires t.Ok() && HasUnused(t) && c < ALL
    ensures AfterNext(t).cut == t.cut
    ensures AfterNext(t).main[c] == t.main[c] + if CellOf(NextValue(t)) == c then 1 else 0
  {
    CellOfRvFull(FirstUnused(t, 0));
  }

  /** Commands that ask for a value add exactly one button with it. */
  lemma AskedHeld(s: State, m: Menu, e: Edit, o: Area, c: nat, f: Label -> bool)
    requires s.t.Ok() && Offers(s, m, e, o) && Safe(s, m, e, o) && AsksForValue(m, e) && c < ALL
    requires forall l: Label :: f(l) <==> CellOf(l.rv) == c
    ensures Held(Edited(s, m, e, o), c) == Held(m, c) + if CellOf(NextValue(s.t)) == c then 1 else 0
  {
    var rv, d := NextValue(s.t), Edited(s, m, e, o);
    HeldIsCount(m, c, f);
    HeldIsCount(d, c, f);
    if e.DivideButton? {
      DivideCount(m, e.ax, e.press, e.x, rv, o, f);
    } else if e.CoverRun? {
      CoverCount(m, e.n, rv, f);
    } else {
      assert Count(d.u, f) == One(LabelOf(d.u.b), f) + Count(Nil, f) + Count(Nil, f);
    }
  }

  lemma PasteHeld(s: State, m: Menu, o: Area, c: nat, f: Label -> bool)
    requires Covered(s) && Offers(s, m, PasteButton, o) && Safe(s, m, PasteButton, o) && c < ALL
    requires Held(m, c) <= s.t.main[c] && Held(s.LastCut(), c) <= s.t.cut[c]
    requires s.t.main[c] + Held(s.LastCut(), c) <= 255
    requires forall l: Label :: f(l) <==> CellOf(l.rv) == c
    ensures Held(Edited(s, m, PasteButton, o), c) + s.t.main[c] ==
            Held(m, c) + Counted(s, m, PasteButton, o).main[c]
    ensures Counted(s, m, PasteButton, o).cut[c] == s.t.cut[c] - Held(s.LastCut(), c)
  {
    var last := s.LastCut();
    HeldIsCount(m, c, f);
    HeldIsCount(m.u, c, f);
    HeldIsCount(last, c, f);
    HeldIsCount(Edited(s, m, PasteButton, o), c, f);
    PasteCount(m, last, o, f);
    MoveValuesEffect(s.t, last, true, c);
    FreeValuesEffect(MoveValues(s.t, last, true), m.u, c);
  }

  /** The uses of a cell that a cut loses without freeing them: the value of an opaque owner whose sequence collapses,
    * and all of a button that does not fit on the stack. /
    */
  function Lost(s: State, m: Menu, e: Edit, o: Area, c: nat): nat
    requires Offers(s, m, e, o)
  {
    if !e.CutButton? then 0
    else (if Len(m.u) == 2 then Uses(m.b, c) else 0) + if |s.cuts| < MAXCUT then 0 else Held(Piece(m.u, e.k), c)
  }

  lemma CutHeld(s: State, m: Menu, k: nat, o: Area, c: nat, f: Label -> bool)
    requires s.t.Ok() && Offers(s, m, CutButton(k), o) && Safe(s, m, CutButton(k), o) && c < ALL
    requires Held(m, c) <= s.t.main[c]
    requires |s.cuts| < MAXCUT ==> s.t.cut[c] + Held(Piece(m.u, k), c) <= 255
    requires forall l: Label :: f(l) <==> CellOf(l.rv) == c
    ensures Held(Edited(s, m, CutButton(k), o), c) + s.t.main[c] + Lost(s, m, CutButton(k), o, c) ==
            Held(m, c) + Counted(s, m, CutButton(k), o).main[c]
    ensures Counted(s, m, CutButton(k), o).cut[c] ==
            s.t.cut[c] + if |s.cuts| < MAXCUT then Held(Piece(m.u, k), c) else 0
  {
    HeldIsCount(m, c, f);
    HeldIsCount(Piece(m.u, k), c, f);
    HeldIsCount(Edited(s, m, CutButton(k), o), c, f);
    CutUnderCount(m, k, o, f);
    if |s.cuts| < MAXCUT {
      MoveValuesEffect(s.t, Piece(m.u, k), false, c);
    }
  }

  predicate Resizing(e: Edit) { e.DragEdge? || e.DragFirstEdge? || e.DragSide? || e.SpaceEvenly? }

  lemma ResizedHeld(s: State, m: Menu, e: Edit, o: Area, c: nat, f: Label -> bool)
    requires s.t.Ok() && Offers(s, m, e, o) && Safe(s, m, e, o) && Resizing(e)
    requires forall l: Label :: f(l) <==> CellOf(l.rv) == c
    ensures Held(Edited(s, m, e, o), c) == Held(m, c)
  {
    HeldIsCount(m, c, f);
    HeldIsCount(Edited(s, m, e, o), c, f);
    if e.DragEdge? {
      MoveEdgeCount(m, e.ax, e.x, o, f);
    } else if e.DragFirstEdge? {
      MoveFirstEdgeCount(m, e.ax, e.x, o, f);
    } else if e.DragSide? {
      MoveSideCount(m, e.ax, e.side, e.x, o, f);
    } else {
      var ax := AxisOf(m.b);
      SpaceRunCount(m, ax, Marks(m.b.On(ax).at, SumLen(m, e.n, ax), e.n), 0, e.n, o, f);
    }
  }

  lemma UncoverHeld(s: State, m: Menu, o: Area, c: nat, f: Label -> bool)
    requires s.t.Ok() && Offers(s, m, UncoverButton, o) && c < ALL && Held(m, c) <= s.t.main[c]
    requires forall l: Label :: f(l) <==> CellOf(l.rv) == c
    ensures Held(Uncover(m), c) + s.t.main[c] == Held(m, c) + FreeValue(s.t, m.b.rv).main[c]
  {
    HeldIsCount(m, c, f);
    HeldIsCount(Uncover(m), c, f);
    UncoverCount(m, f);
  }

  lemma ChosenHeld(t: Tables, m: Menu, rv: nat, c: nat)
    requires t.Ok() && m.Node? && !m.b.clear && c < ALL && Held(m, c) <= t.main[c] && CanTake(t, m.b.rv, rv)
    ensures Held(WithRv(m, rv), c) + t.main[c] == Held(m, c) + TakeValue(FreeValue(t, m.b.rv), rv).main[c]
  {
  }

  /** In every cell the counter changes exactly as the use of it does, but for what a cut loses. */
  lemma EditedHeld(s: State, m: Menu, e: Edit, o: Area, c: nat, f: Label -> bool)
    requires Covered(s) && Offers(s, m, e, o) && Safe(s, m, e, o) && Countable(s, m, e, o) && c < ALL
    requires Held(m, c) <= s.t.main[c]
    requires forall l: Label :: f(l) <==> CellOf(l.rv) == c
    ensures Held(Edited(s, m, e, o), c) + s.t.main[c] + Lost(s, m, e, o, c) == Held(m, c) + Counted(s, m, e, o).main[c]
  {
    if AsksForValue(m, e) {
      AskedHeld(s, m, e, o, c, f);
      NextEffect(s.t, c);
    } else if e.PasteButton? {
      CutsSplit(s, c);
      PasteHeld(s, m, o, c, f);
    } else if e.CutButton? {
      CutHeld(s, m, e.k, o, c, f);
    } else if Resizing(e) {
      ResizedHeld(s, m, e, o, c, f);
    } else if e.UncoverButton? {
      UncoverHeld(s, m, o, c, f);
    } else if e.ChooseCell? {
      ChosenHeld(s.t, m, OtherCell(m.b.rv, e.cell), c);
    } else if e.ChooseLayer? {
      ChosenHeld(s.t, m, OtherLayer(m.b.rv, e.layer), c);
    }
  }

  lemma CutsSplit(s: State, c: nat)
    requires s.cuts != []
    ensures HeldCuts(s.cuts, c) == HeldCuts(s.cuts[..|s.cuts| - 1], c) + Held(s.LastCut(), c)
  {
  }

  lemma StackedHeld(s: State, m: Menu, e: Edit, o: Area, c: nat, f: Label -> bool)
    requires Covered(s) && Offers(s, m, e, o) && Safe(s, m, e, o) && Countable(s, m, e, o) && c < ALL
    requires Held(m, c) <= s.t.main[c]
    requires forall l: Label :: f(l) <==> CellOf(l.rv) == c
    ensures HeldCuts(Stacked(s, m, e, o), c) + s.t.cut[c] == HeldCuts(s.cuts, c) + Counted(s, m, e, o).cut[c]
  {
    if AsksForValue(m, e) {
      NextEffect(s.t, c);
    } else if e.PasteButton? {
      StackedPaste(s, m, o, c, f);
    } else if e.CutButton? {
      StackedCut(s, m, e.k, o, c, f);
    }
  }

  lemma StackedPaste(s: State, m: Menu, o: Area, c: nat, f: Label -> bool)
    requires Covered(s) && Offers(s, m, PasteButton, o) && Safe(s, m, PasteButton, o) && Countable(s, m, PasteButton, o)
    requires c < ALL && Held(m, c) <= s.t.main[c] && forall l: Label :: f(l) <==> CellOf(l.rv) == c
    ensures HeldCuts(Stacked(s, m, PasteButton, o), c) + s.t.cut[c] ==
            HeldCuts(s.cuts, c) + Counted(s, m, PasteButton, o).cut[c]
  {
    CutsSplit(s, c);
    PasteHeld(s, m, o, c, f);
  }

  lemma StackedCut(s: State, m: Menu, k: nat, o: Area, c: nat, f: Label -> bool)
    requires Covered(s) && Offers(s, m, CutButton(k), o) && Safe(s, m, CutButton(k), o)
    requires Countable(s, m, CutButton(k), o)
    requires c < ALL && Held(m, c) <= s.t.main[c] && forall l: Label :: f(l) <==> CellOf(l.rv) == c
    ensures HeldCuts(Stacked(s, m, CutButton(k), o), c) + s.t.cut[c] ==
            HeldCuts(s.cuts, c) + Counted(s, m, CutButton(k), o).cut[c]
  {
    CutHeld(s, m, k, o, c, f);
    assert (s.cuts + [Piece(m.u, k)])[..|s.cuts|] == s.cuts;
  }

  // ---------------------------------------------------------------- sessions

  lemma {:induction false} AtHeld(t: Menu, p: seq<Step>, c: nat)
    requires Has(t, p)
    ensures Held(At(t, p), c) <= Held(t, c)
  {
    if p != [] { AtHeld(if p[0].Down? then t.u else t.next, p[1..], c); }
  }

  lemma PutHeld(t: Menu, p: seq<Step>, s: Menu, c: nat, f: Label -> bool)
    requires Has(t, p) && s.Node?
    requires forall l: Label :: f(l) <==> CellOf(l.rv) == c
    ensures Held(Put(t, p, s), c) + Held(At(t, p), c) == Held(t, c) + Held(s, c)
  {
    HeldIsCount(t, c, f);
    HeldIsCount(s, c, f);
    HeldIsCount(At(t, p), c, f);
    HeldIsCount(Put(t, p, s), c, f);
    PutCount(t, p, s, f);
  }

  /** Over an edit anywhere in the menu, both tables follow the use of every cell exactly, but for what a cut loses. */
  lemma EditExact(s: State, path: seq<Step>, e: Edit, o: Area, c: nat, f: Label -> bool)
    requires Covered(s) && Offered(s, EditAt(path, e), o) && NoTrap(s, EditAt(path, e), o)
    requires CountsFit(s, EditAt(path, e), o) && c < ALL
    requires forall l: Label :: f(l) <==> CellOf(l.rv) == c
    ensures var r, m := ApplyEdit(s, path, e, o), At(s.menu, path);
            && Held(r.menu, c) + s.t.main[c] + Lost(s, m, e, o, c) == Held(s.menu, c) + r.t.main[c]
            && HeldCuts(r.cuts, c) + s.t.cut[c] == HeldCuts(s.cuts, c) + r.t.cut[c]
  {
    var m := At(s.menu, path);
    EditedIsNode(s, m, e, o);
    AtHeld(s.menu, path, c);
    EditedHeld(s, m, e, o, c, f);
    StackedHeld(s, m, e, o, c, f);
    PutHeld(s.menu, path, Edited(s, m, e, o), c, f);
  }

  lemma EditCovered(s: State, path: seq<Step>, e: Edit, o: Area, c: nat, f: Label -> bool)
    requires Covered(s) && Offered(s, EditAt(path, e), o) && NoTrap(s, EditAt(path, e), o)
    requires CountsFit(s, EditAt(path, e), o) && c < ALL
    requires forall l: Label :: f(l) <==> CellOf(l.rv) == c
    ensures var r := ApplyEdit(s, path, e, o);
            Held(r.menu, c) <= r.t.main[c] && HeldCuts(r.cuts, c) <= r.t.cut[c]
  {
    EditExact(s, path, e, o, c, f);
  }

  lemma CutRootCovered(s: State, c: nat)
    requires Covered(s) && s.menu.Node? && c < ALL
    requires |s.cuts| < MAXCUT ==> FitsCut(s.t, Node(s.menu.b, s.menu.u, Nil))
    ensures var r := ApplyCutRoot(s, Node(s.menu.b, s.menu.u, Nil));
            Held(r.menu, c) <= r.t.main[c] && HeldCuts(r.cuts, c) <= r.t.cut[c]
  {
    if |s.cuts| < MAXCUT {
      var piece := Node(s.menu.b, s.menu.u, Nil);
      assert (s.cuts + [piece])[..|s.cuts|] == s.cuts;
      assert Held(piece, c) <= Held(s.menu, c) by { assert Held(Nil, c) == 0; }
      MoveValuesEffect(s.t, piece, false, c);
    }
  }

  lemma StackedOpaque(s: State, c: Command, o: Area)
    requires Covered(s) && Offered(s, c, o) && NoTrap(s, c, o)
    ensures forall i | 0 <= i < |Apply(s, c, o).cuts| :: Opaque(Apply(s, c, o).cuts[i])
  {
  }

  /** One command keeps all counters high enough. */
  lemma ApplyCovered(s: State, c: Command, o: Area)
    requires Covered(s) && Offered(s, c, o) && NoTrap(s, c, o) && CountsFit(s, c, o)
    ensures Covered(Apply(s, c, o))
  {
    var r := Apply(s, c, o);
    StackedOpaque(s, c, o);
    forall k | 0 <= k < ALL
      ensures Held(r.menu, k) <= r.t.main[k] && HeldCuts(r.cuts, k) <= r.t.cut[k]
    {
      if c.EditAt? {
        EditCovered(s, c.path, c.e, o, k, InCell(k));
      } else if c.New? {
        NextEffect(Tables(Zeros(), s.t.cut), k);
        assert Held(r.menu.u, k) == 0 && Held(r.menu.next, k) == 0;
      } else if c.ReadFile? {
        RoundTrip.TakeValuesEffect(Tables(Zeros(), s.t.cut), r.menu, k);
      } else {
        CutRootCovered(s, k);
      }
    }
  }

  /** A free cell is left whenever one is asked for, and no counter wraps around. */
  predicate CountedRun(s: State, cs: seq<Command>, o: Area)
    requires s.t.Ok() && Runs(s, cs, o)
    decreases |cs|
  {
    cs == [] || (CountsFit(s, cs[0], o) && CountedRun(Apply(s, cs[0], o), cs[1..], o))
  }

  /** So does every session, whether its commands had room or not. */
  lemma {:induction false} AfterCovered(s: State, cs: seq<Command>, o: Area)
    requires Covered(s) && Runs(s, cs, o) && CountedRun(s, cs, o)
    ensures Covered(After(s, cs, o))
    decreases |cs|
  {
    if cs != [] {
      ApplyCovered(s, cs[0], o);
      AfterCovered(Apply(s, cs[0], o), cs[1..], o);
    }
  }

  predicate Carries(b: Button, rv: nat) { !b.clear && b.rv == rv }

  /** Some opaque button of `m` has return value `rv`. */
  predicate InUse(m: Menu, rv: nat) {
    m.Node? && (Carries(m.b, rv) || InUse(m.u, rv) || InUse(m.next, rv))
  }

  lemma {:induction false} InUseHeld(m: Menu, rv: nat)
    requires InUse(m, rv)
    ensures Held(m, CellOf(rv)) > 0
  {
    if !Carries(m.b, rv) {
      if InUse(m.u, rv) { InUseHeld(m.u, rv); } else { InUseHeld(m.next, rv); }
    }
  }

  lemma {:induction false} HeldCutsIncludes(cuts: seq<Menu>, i: nat, c: nat)
    requires i < |cuts|
    ensures Held(cuts[i], c) <= HeldCuts(cuts, c)
  {
    if i < |cuts| - 1 { HeldCutsIncludes(cuts[..|cuts| - 1], i, c); }
  }

  /** After any session in which free cells remain and no counter wraps, the next value that
    * is handed out is not the value of any opaque button of the menu or of any cut button.
    */
  lemma NextIsFresh(cs: seq<Command>, o: Area)
    requires Runs(START, cs, o) && CountedRun(START, cs, o) && HasUnused(After(START, cs, o).t)
    ensures var s := After(START, cs, o);
            var rv := NextValue(s.t);
            !InUse(s.menu, rv) && forall i | 0 <= i < |s.cuts| :: !InUse(s.cuts[i], rv)
  {
    StartCovered();
    AfterCovered(START, cs, o);
    var s := After(START, cs, o);
    var c, rv := FirstUnused(s.t, 0), NextValue(s.t);
    CellOfRvFull(c);
    if InUse(s.menu, rv) { InUseHeld(s.menu, rv); }
    forall i | 0 <= i < |s.cuts| ensures !InUse(s.cuts[i], rv) {
      HeldCutsIncludes(s.cuts, i, c);
      if InUse(s.cuts[i], rv) { InUseHeld(s.cuts[i], rv); }
    }
  }

  lemma StartCovered()
    ensures Covered(START)
  {
  }
}
