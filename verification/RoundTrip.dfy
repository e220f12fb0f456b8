/** A saved menu comes back when it is loaded (med3/rw.c: bmwrite, bmread). */
module RoundTrip {
  import opened Wrappers
  import opened MenuTree
  import opened SaveLoad
  import opened ReturnValues

  // ---------------------------------------------------------------- marks

  /** The first-of-a-sequence marks are where they belong. */
  predicate Marked(m: Menu, first: bool) {
    m.Nil? || (m.b.first == first && Marked(m.u, true) && Marked(m.next, false))
  }

  predicate Unmarked(m: Menu) {
    m.Nil? || (!m.b.first && Unmarked(m.u) && Unmarked(m.next))
  }

  lemma {:induction false} ValidMarked(m: Menu, p: Place, o: Area)
    requires Valid(m, p, o)
    ensures Marked(m, !p.Rest?)
    decreases m
  {
    if m.Node? {
      ValidMarked(m.u, Under(m.b.rect), o);
      if m.next.Node? {
        var ax := if p.Rest? then p.ax else AxisOf(m.b);
        ValidMarked(m.next, Rest(ax, Beyond(m.b.rect, ax, Space(p))), o);
      }
    }
  }

  lemma {:induction false} AppendUnmarked(m: Menu, n: Menu)
    requires Unmarked(m) && Unmarked(n)
    ensures Unmarked(Append(m, n))
  {
    if m.Node? { AppendUnmarked(m.next, n); }
  }

  lemma AdoptUnmarked(m: Menu, ax: Axis, r: Rect)
    requires m.Node? && Unmarked(m)
    ensures Unmarked(Adopt(m, ax, r))
  {
    assert Unmarked(Nil);
  }

  lemma HalvesUnmarked(r: Rect, ax: Axis, pos: int, m: Menu, n: Menu)
    requires m.Node? && n.Node? && Unmarked(m) && Unmarked(n)
    ensures Unmarked(Halves(r, ax, pos, m, n))
  {
    var s := r.On(ax);
    var r1, r2 := r.With(ax, Span(s.at, pos - s.at)), r.With(ax, Span(pos, s.End() - pos));
    AdoptUnmarked(m, ax, r1);
    AdoptUnmarked(n, ax, r2);
    AppendUnmarked(Adopt(m, ax, r1), Adopt(n, ax, r2));
  }

  lemma {:induction false} InsideUnmarked(l: Lib)
    requires Loadable(l)
    ensures Unmarked(Inside(l))
    decreases l, 0
  {
    if l.hor || l.ver {
      LoadUnmarked(l.topleft, false);
      LoadUnmarked(l.botrite, false);
      HalvesUnmarked(l.rect, if l.ver then V else H, l.pos, Load(l.topleft, false), Load(l.botrite, false));
    } else if l.isub {
      LoadUnmarked(l.topleft, true);
    }
  }

  lemma {:induction false} LoadUnmarked(l: Lib, ndiv: bool)
    requires Loadable(l)
    ensures Unmarked(Load(l, ndiv))
    decreases l, 1
  {
    InsideUnmarked(l);
    assert Unmarked(Nil);
  }

  lemma {:induction false} TidyMarks(m: Menu)
    requires Unmarked(m)
    ensures Marked(Tidy(m), true) && Bare(Tidy(m)) == Bare(m)
    decreases m, 1
  {
    if m.Node? {
      TidyRunMarks(m);
    }
  }

  lemma {:induction false} TidyRunMarks(m: Menu)
    requires Unmarked(m)
    ensures Marked(TidyRun(m), false) && Bare(TidyRun(m)) == Bare(m)
    decreases m, 0
  {
    if m.Node? {
      TidyMarks(m.u);
      TidyRunMarks(m.next);
      SameShape(Tidy(m.u), m.u);
    }
  }

  /** Everything that saving and loading keeps: geometry, directions, marks, transparency,
    * nesting and, for opaque buttons, caption, return value and style.
    */
  function Kept(m: Menu): Menu {
    if m.Nil? then Nil
    else Node(BareButton(m.b, m.u.Node? && m.u.next.Nil?).(first := m.b.first), Kept(m.u), Kept(m.next))
  }

  lemma {:induction false} SameKept(m: Menu, n: Menu, first: bool)
    requires Bare(m) == Bare(n) && Marked(m, first) && Marked(n, first)
    ensures Kept(m) == Kept(n)
    decreases m
  {
    SameShape(m, n);
    if m.Node? {
      assert Bare(m).u == Bare(m.u) && Bare(n).u == Bare(n.u) && Bare(m).next == Bare(m.next)
             && Bare(n).next == Bare(n.next);
      SameKept(m.u, n.u, true);
      SameKept(m.next, n.next, false);
      assert Bare(m).b == BareButton(m.b, m.u.Node? && m.u.next.Nil?);
      assert Bare(n).b == BareButton(n.b, n.u.Node? && n.u.next.Nil?);
      BareFirst(m.b, n.b, m.u.Node? && m.u.next.Nil?, n.u.Node? && n.u.next.Nil?);
    }
  }

  lemma BareFirst(b: Button, c: Button, lb: bool, lc: bool)
    requires BareButton(b, lb) == BareButton(c, lc) && b.first == c.first
    ensures BareButton(b, lb).(first := b.first) == BareButton(c, lc).(first := c.first)
  {
  }

  lemma KeptFlags(m: Menu, n: Menu)
    requires m.Node? && Kept(m) == Kept(n)
    ensures n.Node? && m.b.rect == n.b.rect && Kept(m.u) == Kept(n.u) && Kept(m.next) == Kept(n.next)
    ensures m.b.hor == n.b.hor && m.b.ver == n.b.ver && m.b.first == n.b.first && m.b.ndiv == n.b.ndiv
    ensures m.b.free == n.b.free && m.next.Node? == n.next.Node?
  {
    KeptHead(m);
    KeptHead(n);
  }

  /** Menus of which the same is kept have the same transparent buttons, and labels that differ at most in whether a
    * style is relative to the cursor. /
    */
  lemma KeptLabels(m: Menu, n: Menu)
    requires m.Node? && Kept(m) == Kept(n)
    ensures n.Node? && m.b.clear == n.b.clear
    ensures !m.b.clear ==> m.b.rv == n.b.rv && m.b.caption == n.b.caption
    ensures !m.b.clear ==> m.b.style == n.b.style.(crel := m.b.style.crel)
    ensures !m.b.clear && m.u.Node? && m.u.next.Nil? ==> n.u.Node? && n.u.next.Nil? && m.b.style == n.b.style
  {
    KeptFlags(m, n);
    KeptOwn(m);
    KeptOwn(n);
    if m.u.Node? { KeptFlags(m.u, n.u); }
  }

  lemma KeptOwn(m: Menu)
    requires m.Node?
    ensures var b, lone := Kept(m).b, m.u.Node? && m.u.next.Nil?;
            && b.clear == m.b.clear
            && (!m.b.clear ==> b.rv == m.b.rv && b.caption == m.b.caption
                               && b.style == m.b.style.(crel := m.b.style.crel && lone))
  {
  }

  lemma KeptHead(m: Menu)
    requires m.Node?
    ensures var b := Kept(m).b;
            && b.hor == m.b.hor && b.ver == m.b.ver && b.first == m.b.first && b.ndiv == m.b.ndiv && b.free == m.b.free
            && b.rect == m.b.rect
    ensures Kept(m).Node? && Kept(m).u == Kept(m.u) && Kept(m).next == Kept(m.next)
    ensures Kept(m).next.Node? == m.next.Node?
  {
  }

  // ---------------------------------------------------------------- the round trip

  lemma {:induction false} AppendMarked(m: Menu, n: Menu, first: bool)
    requires m.Node? && Marked(m, first) && Marked(n, false)
    ensures Marked(Append(m, n), first)
  {
    if m.next.Node? { AppendMarked(m.next, n, false); } else { assert Append(m.next, n) == n; }
  }

  lemma {:induction false} FlatMarked(m: Menu, first: bool)
    requires Marked(m, first)
    ensures Marked(Flat(m), first)
  {
    if m.Node? {
      FlatMarked(m.u, true);
      FlatMarked(m.next, false);
      if Dissolves(m) { AppendMarked(WithFirst(Flat(m.u), first), Flat(m.next), first); }
    }
  }

  /** Loading a saved menu gives back the menu, with its single buttons marked as indivisible and with transparent
    * buttons that hold a sequence of their own direction dissolved.
    */
  lemma LoadSave(t: Menu, o: Area)
    requires t.Node? && Valid(t, Top, o) && Holding(t)
    ensures Loadable(Save(t, 1, true, true))
    ensures Kept(Tidy(Load(Save(t, 1, true, true), true))) == Kept(Flat(Mark(t, true)))
  {
    var l := Save(t, 1, true, true);
    SingleBack(t, Top, true, true, o);
    LoadUnmarked(l, true);
    TidyMarks(Load(l, true));
    MarkValid(t, true, Top, o);
    ValidMarked(Mark(t, true), Top, o);
    FlatMarked(Mark(t, true), true);
    SameKept(Tidy(Load(l, true)), Flat(Mark(t, true)), true);
  }

  // ---------------------------------------------------------------- position

  function ShiftLib(l: Lib, dx: int, dy: int): Lib {
    if l.NoLib? then NoLib
    else
      l.(rect := l.rect.Shift(dx, dy), pos := l.pos + (if l.ver then dy else 0) + (if l.hor then dx else 0),
         topleft := ShiftLib(l.topleft, dx, dy), botrite := ShiftLib(l.botrite, dx, dy))
  }

  /** `mplace` with a root: the corner of the menu goes to one unit before (x, y). */
  function PlaceLib(l: Lib, x: int, y: int): Lib
    requires l.Lib?
  {
    ShiftLib(l, x - l.rect.h.at - 1, y - l.rect.v.at - 1)
  }

  /** What is written to the menu file, and what is made of it when it is read. */
  function Written(t: Menu): Lib
    requires t.Node?
  {
    PlaceLib(Save(t, 1, true, true), 0, 0)
  }

  function Read(l: Lib, o: Area): Menu
    requires Loadable(l) && Loadable(PlaceLib(l, o.x + 1, o.y + 1))
  {
    Tidy(Load(PlaceLib(l, o.x + 1, o.y + 1), true))
  }

  lemma {:induction false} ShiftLoadable(l: Lib, dx: int, dy: int)
    requires Loadable(l)
    ensures Loadable(ShiftLib(l, dx, dy))
  {
    if l.hor || l.ver {
      ShiftLoadable(l.topleft, dx, dy);
      ShiftLoadable(l.botrite, dx, dy);
    } else if l.isub {
      ShiftLoadable(l.topleft, dx, dy);
    }
  }

  lemma {:induction false} ShiftTwice(l: Lib, dx: int, dy: int, ex: int, ey: int)
    ensures ShiftLib(ShiftLib(l, dx, dy), ex, ey) == ShiftLib(l, dx + ex, dy + ey)
  {
    if l.Lib? {
      ShiftTwice(l.topleft, dx, dy, ex, ey);
      ShiftTwice(l.botrite, dx, dy, ex, ey);
    }
  }

  lemma {:induction false} ShiftAppend(m: Menu, n: Menu, dx: int, dy: int)
    ensures ShiftMenu(Append(m, n), dx, dy) == Append(ShiftMenu(m, dx, dy), ShiftMenu(n, dx, dy))
  {
    if m.Node? { ShiftAppend(m.next, n, dx, dy); }
  }

  lemma ShiftAdopt(m: Menu, ax: Axis, r: Rect, dx: int, dy: int)
    requires m.Node?
    ensures ShiftMenu(Adopt(m, ax, r), dx, dy) == Adopt(ShiftMenu(m, dx, dy), ax, r.Shift(dx, dy))
  {
    if m.b.Runs(ax.Other()) { assert ShiftMenu(Nil, dx, dy) == Nil; }
  }

  lemma ShiftPieces(r: Rect, ax: Axis, pos: int, dx: int, dy: int)
    ensures var r', pos' := r.Shift(dx, dy), pos + (if ax.H? then dx else dy);
            && r.With(ax, Span(r.On(ax).at, pos - r.On(ax).at)).Shift(dx, dy)
               == r'.With(ax, Span(r'.On(ax).at, pos' - r'.On(ax).at))
            && r.With(ax, Span(pos, r.On(ax).End() - pos)).Shift(dx, dy)
               == r'.With(ax, Span(pos', r'.On(ax).End() - pos'))
  {
  }

  lemma ShiftBoth(m: Menu, n: Menu, ax: Axis, r1: Rect, r2: Rect, dx: int, dy: int)
    requires m.Node? && n.Node?
    ensures ShiftMenu(Append(Adopt(m, ax, r1), Adopt(n, ax, r2)), dx, dy) ==
            Append(Adopt(ShiftMenu(m, dx, dy), ax, r1.Shift(dx, dy)), Adopt(ShiftMenu(n, dx, dy), ax, r2.Shift(dx, dy)))
  {
    ShiftAppend(Adopt(m, ax, r1), Adopt(n, ax, r2), dx, dy);
    ShiftAdopt(m, ax, r1, dx, dy);
    ShiftAdopt(n, ax, r2, dx, dy);
  }

  lemma ShiftHalves(r: Rect, ax: Axis, pos: int, m: Menu, n: Menu, dx: int, dy: int)
    requires m.Node? && n.Node?
    ensures ShiftMenu(Halves(r, ax, pos, m, n), dx, dy) ==
            Halves(r.Shift(dx, dy), ax, pos + (if ax.H? then dx else dy), ShiftMenu(m, dx, dy), ShiftMenu(n, dx, dy))
  {
    var s := r.On(ax);
    var r1, r2 := r.With(ax, Span(s.at, pos - s.at)), r.With(ax, Span(pos, s.End() - pos));
    ShiftPieces(r, ax, pos, dx, dy);
    ShiftBoth(m, n, ax, r1, r2, dx, dy);
    HalvesIs(r, ax, pos, m, n, r1, r2);
    HalvesIs(r.Shift(dx, dy), ax, pos + (if ax.H? then dx else dy), ShiftMenu(m, dx, dy), ShiftMenu(n, dx, dy),
             r1.Shift(dx, dy), r2.Shift(dx, dy));
  }

  lemma HalvesIs(r: Rect, ax: Axis, pos: int, m: Menu, n: Menu, r1: Rect, r2: Rect)
    requires m.Node? && n.Node?
    requires r1 == r.With(ax, Span(r.On(ax).at, pos - r.On(ax).at)) && r2 == r.With(ax, Span(pos, r.On(ax).End() - pos))
    ensures Halves(r, ax, pos, m, n) == Append(Adopt(m, ax, r1), Adopt(n, ax, r2))
  {
  }

  /** Every saved node is divided in at most one direction. */
  predicate OneWay(l: Lib) {
    l.NoLib? || (!(l.hor && l.ver) && OneWay(l.topleft) && OneWay(l.botrite))
  }

  lemma {:induction false} SaveOneWay(m: Menu, n: nat, fg: bool, root: bool)
    requires 1 <= n <= Len(m)
    ensures OneWay(Save(m, n, fg, root))
    decreases Size(m), n
  {
    if n > 1 {
      DropSize(m, n / 2);
      SaveOneWay(m, n / 2, fg, false);
      SaveOneWay(Drop(m, n / 2), n - n / 2, fg, false);
    } else if m.u.Node? {
      var u, fg' := m.u, ColourUnder(m.b, fg, root);
      if u.next.Nil? {
        SaveOneWay(u, 1, fg', false);
      } else {
        assert Len(u.next) > 0;
        DropSize(u, Len(u) / 2);
        SaveOneWay(u, Len(u) / 2, fg', false);
        SaveOneWay(Drop(u, Len(u) / 2), Len(u) - Len(u) / 2, fg', false);
      }
    }
  }

  lemma {:induction false} InsideShift(l: Lib, dx: int, dy: int)
    requires Loadable(l) && OneWay(l)
    ensures Loadable(ShiftLib(l, dx, dy)) && Inside(ShiftLib(l, dx, dy)) == ShiftMenu(Inside(l), dx, dy)
    decreases l, 0
  {
    ShiftLoadable(l, dx, dy);
    if l.hor || l.ver {
      LoadShift(l.topleft, false, dx, dy);
      LoadShift(l.botrite, false, dx, dy);
      ShiftHalves(l.rect, if l.ver then V else H, l.pos, Load(l.topleft, false), Load(l.botrite, false), dx, dy);
    } else if l.isub {
      LoadShift(l.topleft, true, dx, dy);
    }
  }

  /** Loading a menu that was moved gives the moved menu. */
  lemma {:induction false} LoadShift(l: Lib, ndiv: bool, dx: int, dy: int)
    requires Loadable(l) && OneWay(l)
    ensures Loadable(ShiftLib(l, dx, dy))
    ensures Load(ShiftLib(l, dx, dy), ndiv) == ShiftMenu(Load(l, ndiv), dx, dy)
    decreases l, 1
  {
    InsideShift(l, dx, dy);
    assert ShiftMenu(Nil, dx, dy) == Nil;
  }

  lemma {:induction false} ShiftTidyRun(m: Menu, dx: int, dy: int)
    ensures TidyRun(ShiftMenu(m, dx, dy)) == ShiftMenu(TidyRun(m), dx, dy)
    decreases m, 0
  {
    if m.Node? {
      ShiftTidy(m.u, dx, dy);
      ShiftTidyRun(m.next, dx, dy);
    }
  }

  lemma {:induction false} ShiftTidy(m: Menu, dx: int, dy: int)
    ensures Tidy(ShiftMenu(m, dx, dy)) == ShiftMenu(Tidy(m), dx, dy)
    decreases m, 1
  {
    if m.Node? { ShiftTidyRun(m, dx, dy); }
  }

  lemma {:induction false} ShiftKept(m: Menu, dx: int, dy: int)
    ensures Kept(ShiftMenu(m, dx, dy)) == ShiftMenu(Kept(m), dx, dy)
  {
    if m.Node? {
      ShiftKept(m.u, dx, dy);
      ShiftKept(m.next, dx, dy);
    }
  }

  /** A menu that is written and read again comes back as it does from its saved form, with its corner at the origin of
    * the editing area.
    */
  lemma ReadWritten(t: Menu, l: Lib, o: Area)
    requires t.Node? && l == Save(t, 1, true, true) && Loadable(l)
    ensures Loadable(Written(t)) && Loadable(PlaceLib(Written(t), o.x + 1, o.y + 1))
    ensures Kept(Read(Written(t), o)) ==
            ShiftMenu(Kept(Tidy(Load(l, true))), o.x - t.b.rect.h.at, o.y - t.b.rect.v.at)
  {
    var dx, dy := o.x - t.b.rect.h.at, o.y - t.b.rect.v.at;
    SaveOneWay(t, 1, true, true);
    WrittenPlaced(t, l, dx, dy, o);
    ReadShifted(l, dx, dy);
  }

  lemma WrittenPlaced(t: Menu, l: Lib, dx: int, dy: int, o: Area)
    requires t.Node? && l == Save(t, 1, true, true) && dx == o.x - t.b.rect.h.at && dy == o.y - t.b.rect.v.at
    requires Loadable(l)
    ensures Loadable(Written(t)) && PlaceLib(Written(t), o.x + 1, o.y + 1) == ShiftLib(l, dx, dy)
    ensures Loadable(ShiftLib(l, dx, dy))
  {
    SavedRect(t, true, true);
    PlacedTwice(l, o.x + 1, o.y + 1);
    ShiftLoadable(l, dx, dy);
  }

  lemma ReadShifted(l: Lib, dx: int, dy: int)
    requires Loadable(l) && OneWay(l)
    ensures Loadable(ShiftLib(l, dx, dy))
    ensures Kept(Tidy(Load(ShiftLib(l, dx, dy), true))) == ShiftMenu(Kept(Tidy(Load(l, true))), dx, dy)
  {
    LoadShift(l, true, dx, dy);
    ShiftTidy(Load(l, true), dx, dy);
    ShiftKept(Tidy(Load(l, true)), dx, dy);
  }

  /** Placing twice is moving once. */
  lemma PlacedTwice(l: Lib, x: int, y: int)
    requires l.Lib? && Loadable(l)
    ensures Loadable(PlaceLib(l, 0, 0))
    ensures PlaceLib(PlaceLib(l, 0, 0), x, y) == ShiftLib(l, x - l.rect.h.at - 1, y - l.rect.v.at - 1)
  {
    ShiftLoadable(l, -l.rect.h.at - 1, -l.rect.v.at - 1);
    ShiftTwice(l, -l.rect.h.at - 1, -l.rect.v.at - 1, x, y);
  }

  /** The file has the corner of the menu one unit before the origin. */
  lemma WrittenCorner(t: Menu)
    requires t.Node?
    ensures Written(t).rect == Rect(Span(-1, t.b.rect.h.len), Span(-1, t.b.rect.v.len))
  {
    SavedRect(t, true, true);
  }

  lemma SavedRect(t: Menu, fg: bool, root: bool)
    requires t.Node?
    ensures Save(t, 1, fg, root).rect == t.b.rect
  {
    if t.u.Node? && t.u.next.Node? { assert Len(t.u.next) > 0; }
  }

  // ---------------------------------------------------------------- what a read leaves behind

  /** The return values `bmtidy` marks as taken. */
  function TakeValues(t: Tables, m: Menu): (r: Tables)
    requires t.Ok()
    ensures r.Ok() && r.cut == t.cut
    decreases m
  {
    if m.Nil? then t
    else TakeValues(TakeValues(if m.b.clear then t else TakeValue(t, m.b.rv), m.u), m.next)
  }

  lemma {:induction false} TakeValuesEffect(t: Tables, m: Menu, c: nat)
    requires t.Ok() && c < ALL && t.main[c] + Held(m, c) <= 255
    ensures TakeValues(t, m).main[c] == t.main[c] + Held(m, c)
    decreases m
  {
    if m.Node? {
      var t1 := if m.b.clear then t else TakeValue(t, m.b.rv);
      TakeValuesEffect(t1, m.u, c);
      TakeValuesEffect(TakeValues(t1, m.u), m.next, c);
      assert TakeValues(t, m) == TakeValues(TakeValues(t1, m.u), m.next);
    }
  }

  // ---------------------------------------------------------------- balance

  function Pow2(n: nat): nat { if n == 0 then 1 else 2 * Pow2(n - 1) }

  function Max(a: nat, b: nat): nat { if a < b then b else a }

  /** How many levels of nodes divided along `ax` lie above the buttons of a sequence. */
  function RunHeight(l: Lib, ax: Axis): nat {
    if l.Lib? && l.cap.None? && (if ax.H? then l.hor else l.ver) then
      1 + Max(RunHeight(l.topleft, ax), RunHeight(l.botrite, ax))
    else 0
  }

  lemma {:induction false} Pow2Mono(a: nat, b: nat)
    requires a <= b
    ensures Pow2(a) <= Pow2(b)
    decreases b
  {
    if a < b { Pow2Mono(a, b - 1); }
  }

  /** `h` is the least height whose power of two reaches `n`. */
  predicate IsLog(h: nat, n: nat) { n <= Pow2(h) && (h > 0 ==> Pow2(h - 1) < n) }

  lemma LogOfHalves(n: nat, h1: nat, h2: nat)
    requires n >= 2 && IsLog(h1, n / 2) && IsLog(h2, n - n / 2)
    ensures h1 <= h2 && IsLog(1 + h2, n)
  {
    if h1 > h2 { Pow2Mono(h2, h1 - 1); }
  }

  /** No transparent button of the sequence holds a sequence of the same direction. */
  predicate Crosswise(m: Menu, ax: Axis) {
    m.Nil? || ((m.b.clear && m.u.Node? && m.u.next.Node? ==> AxisOf(m.u.b) == ax.Other()) && Crosswise(m.next, ax))
  }

  lemma {:induction false} CrosswiseDrop(m: Menu, ax: Axis, h: nat)
    requires h <= Len(m) && Crosswise(m, ax)
    ensures Crosswise(Drop(m, h), ax)
  {
    if h > 0 { CrosswiseDrop(m.next, ax, h - 1); }
  }

  /** A sequence of `n` buttons is saved as a binary tree of the least possible height. */
  lemma {:induction false} SavedBalanced(m: Menu, n: nat, p: Place, ax: Axis, fg: bool, o: Area)
    requires InRun(m, p, ax, o) && Crosswise(m, ax) && 1 <= n <= Len(m)
    ensures IsLog(RunHeight(Save(m, n, fg, false), ax), n)
    decreases Size(m), n, 1
  {
    if n > 1 {
      var h := n / 2;
      HalvesBalanced(m, h, n, p, ax, fg, o);
      SavedHigher(m, h, n, p, ax, fg, o);
      LogOfHalves(n, RunHeight(Save(m, h, fg, false), ax), RunHeight(Save(Drop(m, h), n - h, fg, false), ax));
    } else {
      SavedSingleFlat(m, ax, fg);
    }
  }

  lemma {:induction false} HalvesBalanced(m: Menu, h: nat, n: nat, p: Place, ax: Axis, fg: bool, o: Area)
    requires InRun(m, p, ax, o) && Crosswise(m, ax) && 1 <= h < n <= Len(m)
    ensures IsLog(RunHeight(Save(m, h, fg, false), ax), h)
    ensures IsLog(RunHeight(Save(Drop(m, h), n - h, fg, false), ax), n - h)
    decreases Size(m), n, 0
  {
    var q := DropInRun(m, h, p, ax, o);
    DropSize(m, h);
    CrosswiseDrop(m, ax, h);
    SavedBalanced(m, h, p, ax, fg, o);
    SavedBalanced(Drop(m, h), n - h, q, ax, fg, o);
  }

  /** The saved form of a part of a sequence is one higher than the higher half. */
  lemma SavedHigher(m: Menu, h: nat, n: nat, p: Place, ax: Axis, fg: bool, o: Area)
    requires InRun(m, p, ax, o) && 2 <= n <= Len(m) && h == n / 2
    ensures RunHeight(Save(m, n, fg, false), ax) ==
            1 + Max(RunHeight(Save(m, h, fg, false), ax), RunHeight(Save(Drop(m, h), n - h, fg, false), ax))
  {
    SavedSplit(m, h, n, p, ax, fg, o);
  }

  /** How many buttons of a sequence along `ax` a saved node stands for. */
  function RunLeaves(l: Lib, ax: Axis): nat {
    if l.Lib? && l.cap.None? && (if ax.H? then l.hor else l.ver) then
      RunLeaves(l.topleft, ax) + RunLeaves(l.botrite, ax)
    else 1
  }

  /** Every node of the tree stands for as many buttons as were saved in it. */
  lemma {:induction false} SavedLeaves(m: Menu, n: nat, p: Place, ax: Axis, fg: bool, o: Area)
    requires InRun(m, p, ax, o) && Crosswise(m, ax) && 1 <= n <= Len(m)
    ensures RunLeaves(Save(m, n, fg, false), ax) == n
    decreases Size(m), n, 1
  {
    if n > 1 {
      var h := n / 2;
      HalvesLeaves(m, h, n, p, ax, fg, o);
      SavedSplit(m, h, n, p, ax, fg, o);
    } else {
      SingleLeaf(m, ax, fg);
    }
  }

  lemma {:induction false} HalvesLeaves(m: Menu, h: nat, n: nat, p: Place, ax: Axis, fg: bool, o: Area)
    requires InRun(m, p, ax, o) && Crosswise(m, ax) && 1 <= h < n <= Len(m)
    ensures RunLeaves(Save(m, h, fg, false), ax) == h
    ensures RunLeaves(Save(Drop(m, h), n - h, fg, false), ax) == n - h
    decreases Size(m), n, 0
  {
    var q := DropInRun(m, h, p, ax, o);
    DropSize(m, h);
    CrosswiseDrop(m, ax, h);
    SavedLeaves(m, h, p, ax, fg, o);
    SavedLeaves(Drop(m, h), n - h, q, ax, fg, o);
  }

  lemma SingleLeaf(m: Menu, ax: Axis, fg: bool)
    requires m.Node? && Crosswise(m, ax)
    ensures RunLeaves(Save(m, 1, fg, false), ax) == 1
  {
    if m.u.Node? && m.u.next.Node? { SavedDirection(m, fg, false); }
  }

  lemma SavedSplit(m: Menu, h: nat, n: nat, p: Place, ax: Axis, fg: bool, o: Area)
    requires InRun(m, p, ax, o) && 2 <= n <= Len(m) && h == n / 2
    ensures var l := Save(m, n, fg, false);
            && l.Lib? && l.cap.None? && (if ax.H? then l.hor else l.ver)
            && l.topleft == Save(m, h, fg, false) && l.botrite == Save(Drop(m, h), n - h, fg, false)
  {
    MemberAxis(m.b, ax);
    BoundsAreExtent(m, n, p, ax, o);
    SplitIs(m, n, ax, fg, None, m.b.rv, Style(m.b.style.font, false, !fg, false, false), false);
  }

  /** The halves of a saved sequence stand for equally many buttons, or the second for one more. */
  lemma SavedEvenly(m: Menu, n: nat, p: Place, ax: Axis, fg: bool, o: Area)
    requires InRun(m, p, ax, o) && Crosswise(m, ax) && 2 <= n <= Len(m)
    ensures var l := Save(m, n, fg, false);
            RunLeaves(l.topleft, ax) <= RunLeaves(l.botrite, ax) <= RunLeaves(l.topleft, ax) + 1
  {
    var h := n / 2;
    SavedSplit(m, h, n, p, ax, fg, o);
    HalvesLeaves(m, h, n, p, ax, fg, o);
  }

  /** A single button is no part of a tree along the sequence. */
  lemma SavedSingleFlat(m: Menu, ax: Axis, fg: bool)
    requires m.Node? && Crosswise(m, ax)
    ensures IsLog(RunHeight(Save(m, 1, fg, false), ax), 1)
  {
    assert Pow2(0) == 1;
    if m.u.Node? && m.u.next.Node? { SavedDirection(m, fg, false); }
  }

  /** A single button that holds a sequence is saved with the direction of the sequence. */
  lemma SavedDirection(t: Menu, fg: bool, root: bool)
    requires t.Node? && t.u.Node? && t.u.next.Node?
    ensures Save(t, 1, fg, root).hor == t.u.b.hor && Save(t, 1, fg, root).ver == !t.u.b.hor
  {
    assert Len(t.u.next) > 0;
  }

  // ---------------------------------------------------------------- line colours

  /** Every node has the line colour of the nearest node above it that has a caption, its own if it has one. */
  predicate Coloured(l: Lib, fg: bool) {
    l.NoLib? ||
    var here := if l.cap.Some? then !l.style.bgline else fg;
    l.style.bgline == !here && Coloured(l.topleft, here) && Coloured(l.botrite, here)
  }

  /** The line colour under which a menu is saved; a transparent free root has its own. */
  function OwnColour(m: Menu, n: nat, fg: bool, root: bool): bool
    requires m.Node?
  {
    if n == 1 && root && m.b.clear && m.b.free then !m.b.style.bgline else fg
  }

  lemma {:induction false} SavedColours(m: Menu, n: nat, fg: bool, root: bool)
    requires 1 <= n <= Len(m)
    ensures Coloured(Save(m, n, fg, root), OwnColour(m, n, fg, root))
    decreases Size(m), n, 1
  {
    if n > 1 {
      HalvesColours(m, n, fg);
    } else if m.u.Node? {
      var fg' := ColourUnder(m.b, fg, root);
      if m.u.next.Nil? {
        SavedColours(m.u, 1, fg', false);
      } else {
        assert Len(m.u.next) > 0;
        HalvesColours(m.u, Len(m.u), fg');
      }
    }
  }

  lemma {:induction false} HalvesColours(m: Menu, n: nat, fg: bool)
    requires 2 <= n <= Len(m)
    ensures Coloured(Save(m, n / 2, fg, false), fg) && Coloured(Save(Drop(m, n / 2), n - n / 2, fg, false), fg)
    decreases Size(m), n, 0
  {
    DropSize(m, n / 2);
    SavedColours(m, n / 2, fg, false);
    SavedColours(Drop(m, n / 2), n - n / 2, fg, false);
  }
}
