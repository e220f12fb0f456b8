/** Saving and loading a menu (med3/rw.c): the conversion to the binary menus of the menu
  * library and back.
  */
module SaveLoad {
  import opened Wrappers
  import opened MenuTree

  /** A node of a library menu.  `rect` stands for me_xstart, me_xend, me_ystart, me_yend;
    * `hor` and `ver` are the two division flags.
    */
  datatype Lib =
    | NoLib
    | Lib(rect: Rect, hor: bool, ver: bool, pos: int, cap: Option<string>, rv: nat, style: Style,
          isub: bool, free: bool, topleft: Lib, botrite: Lib)

  // ---------------------------------------------------------------- saving

  /** `bmsize`: the rectangle from the first to the last of `n` buttons. */
  function Bounds(m: Menu, n: nat): Rect
    requires 1 <= n <= Len(m)
  {
    assert Len(Drop(m, n - 1)) > 0;
    var last := Drop(m, n - 1).b.rect;
    Rect(Span(m.b.rect.h.at, last.h.End() - m.b.rect.h.at), Span(m.b.rect.v.at, last.v.End() - m.b.rect.v.at))
  }

  lemma {:induction false} DropSize(m: Menu, n: nat)
    requires n <= Len(m)
    ensures Size(Drop(m, n)) + n <= Size(m)
  {
    if n > 0 { DropSize(m.next, n - 1); }
  }

  /** The style of a saved single button.  A transparent button inherits the line colour. */
  function SavedStyle(b: Button, lone: bool, fg: bool): Style {
    b.style.(bgline := !fg, crel := b.style.crel && lone)
  }

  /** The line colour (true for foreground) under a single button. */
  function ColourUnder(b: Button, fg: bool, root: bool): bool {
    if !b.clear || (b.free && root) then !b.style.bgline else fg
  }

  /** `bmtom` on the `n` buttons from `m` on: a sequence is split in two halves, a single
    * button is saved with the menu under it.
    */
  function Save(m: Menu, n: nat, fg: bool, root: bool): (l: Lib)
    requires 1 <= n <= Len(m)
    ensures l.Lib?
    decreases Size(m), n
  {
    if n > 1 then
      DropSize(m, n / 2);
      SaveSplit(m, n, Bounds(m, n), fg, None, m.b.rv, Style(m.b.style.font, false, !fg, false, false), false)
    else
      var b, u := m.b, m.u;
      var fg' := ColourUnder(b, fg, root);
      var cap := if b.clear then None else Some(b.caption);
      if u.Nil? then
        Lib(b.rect, false, false, 0, cap, b.rv, SavedStyle(b, false, fg'), false, b.free, NoLib, NoLib)
      else if u.next.Nil? then
        Lib(b.rect, false, false, 0, cap, b.rv, SavedStyle(b, true, fg'), true, b.free, Save(u, 1, fg', false), NoLib)
      else
        assert Len(u.next) > 0;
        SaveSplit(u, Len(u), b.rect, fg', cap, b.rv, SavedStyle(b, false, fg'), b.free)
  }

  /** A divided node with rectangle `r` for the `n` buttons from `u` on. */
  function SaveSplit(u: Menu, n: nat, r: Rect, fg: bool, cap: Option<string>, rv: nat, style: Style,
                     free: bool): (l: Lib)
    requires 2 <= n <= Len(u)
    ensures l.Lib?
    decreases Size(u), n, 0
  {
    DropSize(u, n / 2);
    var ax := AxisOf(u.b);
    Lib(r, u.b.hor, !u.b.hor, r.On(ax).at + Bounds(u, n / 2).On(ax).len, cap, rv, style, false, free,
        Save(u, n / 2, fg, false), Save(Drop(u, n / 2), n - n / 2, fg, false))
  }

  // ---------------------------------------------------------------- loading

  /** Every undivided node has a caption; the C code would follow a null pointer otherwise. */
  predicate Loadable(m: Lib) {
    m.Lib? &&
    if m.hor || m.ver then Loadable(m.topleft) && Loadable(m.botrite)
    else m.cap.Some? && (m.isub ==> Loadable(m.topleft))
  }

  /** One half of a divided node: a sequence in the other direction gets a transparent
    * button of its own, everything else joins the sequence.
    */
  function Adopt(m: Menu, ax: Axis, r: Rect): (k: Menu)
    requires m.Node?
    ensures k.Node?
  {
    if m.b.Runs(ax.Other()) then
      Node(Button(r, false, false, true, false, false, false, PLAIN, 0, "").Along(ax), m, Nil)
    else
      m.(b := m.b.Along(ax))
  }

  function Halves(r: Rect, ax: Axis, pos: int, m1: Menu, m2: Menu): (k: Menu)
    requires m1.Node? && m2.Node?
    ensures k.Node?
  {
    var s := r.On(ax);
    Append(Adopt(m1, ax, r.With(ax, Span(s.at, pos - s.at))), Adopt(m2, ax, r.With(ax, Span(pos, s.End() - pos))))
  }

  /** The menu that is loaded for the inside of a node. */
  function Inside(m: Lib): (k: Menu)
    requires Loadable(m)
    ensures m.hor || m.ver ==> k.Node?
    decreases m, 0
  {
    if m.hor || m.ver then
      Halves(m.rect, if m.ver then V else H, m.pos, Load(m.topleft, false), Load(m.botrite, false))
    else if m.isub then Load(m.topleft, true)
    else Nil
  }

  /** `mtobm`. */
  function Load(m: Lib, ndiv: bool): (k: Menu)
    requires Loadable(m)
    ensures k.Node?
    decreases m, 1
  {
    if (m.hor || m.ver) && m.cap.None? && !ndiv then Inside(m)
    else
      Node(Button(m.rect, false, false, m.cap.None?, false, ndiv, m.free, m.style,
                  if m.cap.Some? then m.rv else 0, if m.cap.Some? then m.cap.value else ""), Inside(m), Nil)
  }

  /** The flags `bmtidy` sets. */
  function Tidy(m: Menu): Menu
    decreases m, 1
  {
    if m.Nil? then Nil else WithFirst(TidyRun(m), true)
  }

  function TidyRun(m: Menu): (k: Menu)
    ensures k.Node? == m.Node?
    decreases m, 0
  {
    if m.Nil? then Nil else Node(m.b, Tidy(m.u), TidyRun(m.next))
  }

  // ---------------------------------------------------------------- what is preserved

  /** Every transparent button holds two or more buttons. */
  predicate Holding(m: Menu) {
    m.Nil? || ((m.b.clear ==> m.u.Node? && m.u.next.Node?) && Holding(m.u) && Holding(m.next))
  }

  /** Is `m` a transparent member of a sequence that holds a sequence of the same direction? */
  predicate Dissolves(m: Menu)
    requires m.Node?
  {
    m.b.clear && !m.b.ndiv && m.u.Node? && ((m.b.hor && m.u.b.hor) || (m.b.ver && m.u.b.ver))
  }

  /** `m` with each of these replaced by the buttons it holds. */
  function Flat(m: Menu): (k: Menu)
    ensures k.Node? == m.Node?
  {
    if m.Nil? then Nil
    else if Dissolves(m) then Append(WithFirst(Flat(m.u), m.b.first), Flat(m.next))
    else Node(m.b, Flat(m.u), Flat(m.next))
  }

  /** Every transparent button holds a sequence, of the other direction when it is a member of one itself. */
  predicate Readable(m: Menu) {
    m.Nil? || ((m.b.clear ==> m.u.Node? && m.u.next.Node? && !Dissolves(m)) && Readable(m.u) && Readable(m.next))
  }

  /** Is `m` the only button of a submenu? */
  predicate Lone(m: Menu) { m.Node? && m.next.Nil? }

  /** Every single button below another one is indivisible, and every transparent one holds two or more. */
  predicate Closed(m: Menu) {
    m.Nil? ||
    ((m.b.clear ==> m.u.Node? && m.u.next.Node?) && (Lone(m.u) ==> m.u.b.ndiv) && Closed(m.u) && Closed(m.next))
  }

  predicate Savable(m: Menu) { Readable(m) && Closed(m) }

  /** `m` with every single button of a submenu marked as indivisible; `lone` says whether `m` itself is one. */
  function Mark(m: Menu, lone: bool): (k: Menu)
    ensures k.Node? == m.Node?
  {
    if m.Nil? then Nil
    else Node(m.b.(ndiv := m.b.ndiv || lone), Mark(m.u, Lone(m.u)), Mark(m.next, false))
  }

  /** A button without what need not survive: the first-of-a-sequence mark, whatever a
    * transparent button carries, and a cursor-relative style without an indivisible submenu.
    */
  function BareButton(b: Button, lone: bool): Button {
    var b' := b.(first := false);
    if b.clear then b'.(style := PLAIN, rv := 0, caption := "")
    else b'.(style := b.style.(crel := b.style.crel && lone))
  }

  function Bare(m: Menu): Menu {
    if m.Nil? then Nil
    else Node(BareButton(m.b, m.u.Node? && m.u.next.Nil?), Bare(m.u), Bare(m.next))
  }

  lemma {:induction false} BareAppend(m: Menu, n: Menu)
    ensures Bare(Append(m, n)) == Append(Bare(m), Bare(n))
  {
    if m.Node? { BareAppend(m.next, n); }
  }

  lemma {:induction false} TakeSplit(m: Menu, h: nat, n: nat)
    requires h <= n <= Len(m)
    ensures Append(Take(m, h), Take(Drop(m, h), n - h)) == Take(m, n)
  {
    if h > 0 { TakeSplit(m.next, h - 1, n - 1); }
  }

  lemma {:induction false} ClosedDrop(m: Menu, h: nat)
    requires h <= Len(m) && Closed(m)
    ensures Closed(Drop(m, h))
  {
    if h > 0 { ClosedDrop(m.next, h - 1); }
  }

  lemma {:induction false} AppendAgain(a: Menu, b: Menu, c: Menu)
    ensures Append(Append(a, b), c) == Append(a, Append(b, c))
  {
    if a.Node? { AppendAgain(a.next, b, c); }
  }

  lemma {:induction false} FlatAppend(m: Menu, n: Menu)
    ensures Flat(Append(m, n)) == Append(Flat(m), Flat(n))
  {
    if m.Node? {
      FlatAppend(m.next, n);
      if Dissolves(m) { AppendAgain(WithFirst(Flat(m.u), m.b.first), Flat(m.next), Flat(n)); }
    }
  }

  /** The first button of a sequence and the one that takes its place have the same direction. */
  lemma {:induction false} FlatHead(m: Menu, ax: Axis, o: Area)
    requires m.Node? && Member(m.b, ax) && Valid(m.u, Under(m.b.rect), o)
    ensures Flat(m).b.Runs(ax) && !Flat(m).b.Runs(ax.Other())
  {
    if Dissolves(m) {
      FlatHead(m.u, ax, o);
      assert Flat(m).b == WithFirst(Flat(m.u), m.b.first).b;
    }
  }

  lemma {:induction false} FlatLone(m: Menu)
    requires Lone(m) ==> !Dissolves(m)
    ensures Lone(Flat(m)) == Lone(m)
  {
    if m.Node? && Dissolves(m) {
      var k := WithFirst(Flat(m.u), m.b.first);
      assert Flat(m) == Node(k.b, k.u, Append(k.next, Flat(m.next)));
      assert Append(k.next, Flat(m.next)).Node? == (k.next.Node? || m.next.Node?);
    }
  }

  lemma FlatOne(m: Menu)
    requires m.Node? && !Dissolves(m)
    ensures Flat(Node(m.b, m.u, Nil)) == Node(m.b, Flat(m.u), Nil)
  {
  }

  /** `m` stands at `p` as a member of a sequence along `ax`. */
  predicate InRun(m: Menu, p: Place, ax: Axis, o: Area) {
    m.Node? && Valid(m, p, o) && !p.Top? && Member(m.b, ax) && (p.Rest? ==> p.ax == ax)
  }

  /** The extent that `n` buttons of a sequence cover. */
  function Extent(m: Menu, n: nat, ax: Axis): Rect
    requires m.Node? && n <= Len(m)
  {
    m.b.rect.With(ax, Span(m.b.On(ax).at, SumLen(m, n, ax)))
  }

  lemma {:induction false} BoundsAreExtent(m: Menu, n: nat, p: Place, ax: Axis, o: Area)
    requires InRun(m, p, ax, o) && 1 <= n <= Len(m)
    ensures Bounds(m, n) == Extent(m, n, ax)
    decreases n
  {
    ToRest(m, p, ax, o);
    if n == 1 {
      assert SumLen(m.next, 0, ax) == 0;
    } else {
      assert Len(m.next) > 0 && Drop(m, n - 1) == Drop(m.next, n - 2);
      BoundsAreExtent(m.next, n - 1, Rest(ax, Beyond(m.b.rect, ax, Space(p))), ax, o);
    }
  }

  lemma {:induction false} DropInRun(m: Menu, h: nat, p: Place, ax: Axis, o: Area) returns (q: Place)
    requires InRun(m, p, ax, o) && 1 <= h < Len(m)
    ensures InRun(Drop(m, h), q, ax, o)
    ensures Drop(m, h).b.rect == m.b.rect.With(ax, Span(m.b.On(ax).at + SumLen(m, h, ax), Drop(m, h).b.On(ax).len))
  {
    ToRest(m, p, ax, o);
    q := Rest(ax, Beyond(m.b.rect, ax, Space(p)));
    assert Len(m.next) > 0;
    if h > 1 {
      q := DropInRun(m.next, h - 1, q, ax, o);
    }
  }

  lemma {:induction false} SumLenSplit(m: Menu, h: nat, n: nat, ax: Axis)
    requires h <= n <= Len(m)
    ensures SumLen(m, n, ax) == SumLen(m, h, ax) + SumLen(Drop(m, h), n - h, ax)
  {
    if h > 0 { SumLenSplit(m.next, h - 1, n - 1, ax); }
  }

  // ---------------------------------------------------------------- the way back

  /** `l` is divided the way `SaveSplit` divides it. */
  predicate IsSplit(l: Lib, m: Menu, n: nat, ax: Axis, fg: bool)
    requires 2 <= n <= Len(m)
  {
    l.Lib? && l.rect == Extent(m, n, ax) && l.hor == ax.H? && l.ver == ax.V? &&
    l.pos == m.b.On(ax).at + Bounds(m, n / 2).On(ax).len &&
    l.topleft == Save(m, n / 2, fg, false) && l.botrite == Save(Drop(m, n / 2), n - n / 2, fg, false)
  }

  lemma SplitIs(m: Menu, n: nat, ax: Axis, fg: bool, cap: Option<string>, rv: nat, style: Style, free: bool)
    requires 2 <= n <= Len(m) && Member(m.b, ax)
    ensures var l := SaveSplit(m, n, Extent(m, n, ax), fg, cap, rv, style, free);
            IsSplit(l, m, n, ax, fg) && l.cap == cap && l.rv == rv && l.style == style && l.free == free
  {
    MemberAxis(m.b, ax);
  }

  lemma HalvesBack(m: Menu, h: nat, n: nat, ax: Axis, k1: Menu, k2: Menu)
    requires 1 <= h < n <= Len(m) && k1.Node? && k2.Node?
    requires Drop(m, h).b.rect == m.b.rect.With(ax, Span(m.b.On(ax).at + SumLen(m, h, ax), Drop(m, h).b.On(ax).len))
    requires Bare(Adopt(k1, ax, Extent(m, h, ax))) == Bare(Flat(Take(m, h)))
    requires Bare(Adopt(k2, ax, Extent(Drop(m, h), n - h, ax))) == Bare(Flat(Take(Drop(m, h), n - h)))
    ensures Bare(Halves(Extent(m, n, ax), ax, m.b.On(ax).at + SumLen(m, h, ax), k1, k2)) == Bare(Flat(Take(m, n)))
  {
    var r, m2, pos := Extent(m, n, ax), Drop(m, h), m.b.On(ax).at + SumLen(m, h, ax);
    SumLenSplit(m, h, n, ax);
    assert r.With(ax, Span(r.On(ax).at, pos - r.On(ax).at)) == Extent(m, h, ax);
    assert r.With(ax, Span(pos, r.On(ax).End() - pos)) == Extent(m2, n - h, ax);
    TakeSplit(m, h, n);
    FlatAppend(Take(m, h), Take(m2, n - h));
    BareAppend(Flat(Take(m, h)), Flat(Take(m2, n - h)));
    BareAppend(Adopt(k1, ax, Extent(m, h, ax)), Adopt(k2, ax, Extent(m2, n - h, ax)));
  }

  lemma InsideIs(l: Lib, ax: Axis)
    requires l.Lib? && l.hor == ax.H? && l.ver == ax.V? && Loadable(l.topleft) && Loadable(l.botrite)
    ensures Loadable(l)
    ensures Inside(l) == Halves(l.rect, ax, l.pos, Load(l.topleft, false), Load(l.botrite, false))
  {
  }

  /** A part of a sequence, saved as `l`, comes back, with what it dissolves dissolved. */
  ghost predicate ComesBack(l: Lib, m: Menu, n: nat, ax: Axis)
    requires 1 <= n <= Len(m)
  {
    Loadable(l) && Bare(Adopt(Load(l, false), ax, Extent(m, n, ax))) == Bare(Flat(Take(m, n)))
  }

  lemma JoinBack(m: Menu, h: nat, n: nat, p: Place, ax: Axis, l: Lib, o: Area)
    requires InRun(m, p, ax, o) && 1 <= h < n <= Len(m)
    requires l.Lib? && l.rect == Extent(m, n, ax) && l.hor == ax.H? && l.ver == ax.V?
    requires l.pos == m.b.On(ax).at + Bounds(m, h).On(ax).len
    requires ComesBack(l.topleft, m, h, ax) && ComesBack(l.botrite, Drop(m, h), n - h, ax)
    ensures Loadable(l) && Bare(Inside(l)) == Bare(Flat(Take(m, n)))
  {
    var q := DropInRun(m, h, p, ax, o);
    BoundsAreExtent(m, h, p, ax, o);
    assert l.pos == m.b.On(ax).at + SumLen(m, h, ax);
    InsideIs(l, ax);
    HalvesBack(m, h, n, ax, Load(l.topleft, false), Load(l.botrite, false));
  }

  /** The two halves of a saved sequence are put together again. */
  lemma {:induction false} MarkedSplitBack(m: Menu, n: nat, p: Place, ax: Axis, l: Lib, fg: bool, o: Area)
    requires InRun(m, p, ax, o) && Closed(m) && 2 <= n <= Len(m) && IsSplit(l, m, n, ax, fg)
    ensures Loadable(l) && Bare(Inside(l)) == Bare(Flat(Take(m, n)))
    decreases Size(m), n, 0
  {
    var h := n / 2;
    var q := DropInRun(m, h, p, ax, o);
    DropSize(m, h);
    ClosedDrop(m, h);
    MarkedBack(m, h, p, ax, l.topleft, fg, o);
    MarkedBack(Drop(m, h), n - h, q, ax, l.botrite, fg, o);
    JoinBack(m, h, n, p, ax, l, o);
  }

  /** What is under a button comes back under it. */
  lemma {:induction false} MarkedInsideBack(m: Menu, fg: bool, root: bool, o: Area)
    requires m.Node? && Valid(m.u, Under(m.b.rect), o) && Closed(m)
    ensures Loadable(Save(m, 1, fg, root)) && Bare(Inside(Save(m, 1, fg, root))) == Bare(Flat(m.u))
    decreases Size(m), 1, 0
  {
    var u, l, fg' := m.u, Save(m, 1, fg, root), ColourUnder(m.b, fg, root);
    if u.Node? {
      if u.next.Nil? {
        MarkedSingleBack(u, Under(m.b.rect), fg', false, o);
      } else {
        assert Len(u.next) > 0;
        var ax := AxisOf(u.b);
        FillsOwner(u, m.b.rect, ax, o);
        var cap, style := if m.b.clear then None else Some(m.b.caption), SavedStyle(m.b, false, fg');
        assert l == SaveSplit(u, Len(u), m.b.rect, fg', cap, m.b.rv, style, m.b.free);
        SplitIs(u, Len(u), ax, fg', cap, m.b.rv, style, m.b.free);
        MarkedSplitBack(u, Len(u), Under(m.b.rect), ax, l, fg', o);
        TakeAll(u);
      }
    }
  }

  lemma {:induction false} TakeAll(m: Menu)
    ensures Take(m, Len(m)) == m
  {
    if m.Node? { TakeAll(m.next); }
  }

  /** A sequence covers its owner exactly. */
  lemma {:induction false} FillsOwner(u: Menu, r: Rect, ax: Axis, o: Area)
    requires u.Node? && Valid(u, Under(r), o) && Member(u.b, ax)
    ensures Extent(u, Len(u), ax) == r
  {
    ToRest(u, Under(r), ax, o);
    RestFilled(u.next, ax, Beyond(u.b.rect, ax, r), o);
  }

  lemma {:induction false} RestFilled(m: Menu, ax: Axis, r: Rect, o: Area)
    requires Valid(m, Rest(ax, r), o)
    ensures SumLen(m, Len(m), ax) == r.On(ax).len
  {
    if m.Node? { RestFilled(m.next, ax, Beyond(m.b.rect, ax, r), o); }
  }

  /** An indivisible button comes back with everything under it. */
  lemma {:induction false} MarkedSingleBack(m: Menu, p: Place, fg: bool, root: bool, o: Area)
    requires m.Node? && !p.Rest? && Valid(m, p, o) && Closed(m) && m.b.ndiv && m.next.Nil?
    ensures Loadable(Save(m, 1, fg, root)) && Bare(Load(Save(m, 1, fg, root), true)) == Bare(Flat(m))
    decreases Size(m), 1, 1
  {
    MarkedInsideBack(m, fg, root, o);
    SameShape(Inside(Save(m, 1, fg, root)), Flat(m.u));
    FlatLone(m.u);
  }

  lemma SameShape(a: Menu, b: Menu)
    requires Bare(a) == Bare(b)
    ensures a.Node? == b.Node? && (a.Node? ==> a.next.Node? == b.next.Node?)
  {
    if a.Node? && b.Node? { assert Bare(a).next == Bare(a.next) && Bare(b).next == Bare(b.next); }
  }

  /** The first `n` buttons of a sequence come back, once they are adopted into it. */
  lemma {:induction false} MarkedBack(m: Menu, n: nat, p: Place, ax: Axis, l: Lib, fg: bool, o: Area)
    requires InRun(m, p, ax, o) && Closed(m) && 1 <= n <= Len(m) && l == Save(m, n, fg, false)
    ensures ComesBack(l, m, n, ax)
    decreases Size(m), n, 1
  {
    MemberAxis(m.b, ax);
    if n > 1 {
      BoundsAreExtent(m, n, p, ax, o);
      SplitIs(m, n, ax, fg, None, m.b.rv, Style(m.b.style.font, false, !fg, false, false), false);
      MarkedSplitBack(m, n, p, ax, l, fg, o);
      FlatHead(Take(m, n), ax, o);
      AdoptSame(Load(l, false), Flat(Take(m, n)), ax, Extent(m, n, ax));
    } else {
      MarkedInsideBack(m, fg, false, o);
      OneBack(m, p, ax, l, fg, o);
    }
  }

  lemma TakeOne(m: Menu, ax: Axis)
    requires m.Node?
    ensures Take(m, 1) == Node(m.b, m.u, Nil) && Extent(m, 1, ax) == m.b.rect
  {
    assert Take(m.next, 0) == Nil && SumLen(m.next, 0, ax) == 0;
  }

  /** What the node of a single button holds. */
  lemma SavedSingle(m: Menu, fg: bool)
    requires m.Node?
    ensures var l := Save(m, 1, fg, false);
            && l.rect == m.b.rect && l.cap == (if m.b.clear then None else Some(m.b.caption)) && l.rv == m.b.rv
            && l.free == m.b.free && l.style == SavedStyle(m.b, m.u.Node? && m.u.next.Nil?, ColourUnder(m.b, fg, false))
            && (l.hor || l.ver <==> m.u.Node? && m.u.next.Node?)
  {
    if m.u.Node? && m.u.next.Node? { assert Len(m.u.next) > 0; }
  }

  lemma OneBack(m: Menu, p: Place, ax: Axis, l: Lib, fg: bool, o: Area)
    requires InRun(m, p, ax, o) && Closed(m) && 1 <= Len(m) && Member(m.b, ax) && l == Save(m, 1, fg, false)
    requires Loadable(l) && Bare(Inside(l)) == Bare(Flat(m.u))
    ensures ComesBack(l, m, 1, ax)
  {
    MemberAxis(m.b, ax);
    SavedSingle(m, fg);
    TakeOne(m, ax);
    if !m.b.clear {
      OpaqueBack(m, ax, l);
    } else {
      HeldAxis(m, ax, o);
      if Dissolves(m) { DissolvedBack(m, ax, l); } else { ClearBack(m, ax, l); }
    }
  }

  /** The direction of the sequence that a member of a sequence holds. */
  lemma HeldAxis(m: Menu, ax: Axis, o: Area)
    requires m.Node? && Member(m.b, ax) && m.b.clear && m.u.Node? && m.u.next.Node? && Valid(m.u, Under(m.b.rect), o)
    ensures if Dissolves(m) then Flat(m.u).b.Runs(ax) && !Flat(m.u).b.Runs(ax.Other()) else Flat(m.u).b.Runs(ax.Other())
  {
    FlatHead(m.u, AxisOf(m.u.b), o);
  }

  /** A transparent button comes back around the sequence it held. */
  lemma ClearBack(m: Menu, ax: Axis, l: Lib)
    requires m.Node? && m.b.clear && m.u.Node? && m.u.next.Node? && Member(m.b, ax) && !Dissolves(m)
    requires Flat(m.u).b.Runs(ax.Other())
    requires Loadable(l) && l.rect == m.b.rect && l.cap.None? && (l.hor || l.ver) && Bare(Inside(l)) == Bare(Flat(m.u))
    ensures Bare(Adopt(Load(l, false), ax, m.b.rect)) == Bare(Flat(Node(m.b, m.u, Nil)))
  {
    FlatLone(m.u);
    FlatOne(m);
    AdoptOther(Inside(l), Node(m.b, Flat(m.u), Nil), ax);
  }

  /** One that holds a sequence of its own direction does not come back, but what it held does. */
  lemma DissolvedBack(m: Menu, ax: Axis, l: Lib)
    requires m.Node? && Dissolves(m) && Member(m.b, ax) && Flat(m.u).b.Runs(ax) && !Flat(m.u).b.Runs(ax.Other())
    requires Loadable(l) && l.cap.None? && (l.hor || l.ver) && Bare(Inside(l)) == Bare(Flat(m.u))
    ensures Bare(Adopt(Load(l, false), ax, m.b.rect)) == Bare(Flat(Node(m.b, m.u, Nil)))
  {
    var k := WithFirst(Flat(m.u), m.b.first);
    AdoptSame(Inside(l), Flat(m.u), ax, m.b.rect);
    AppendNil(k);
    assert Flat(Node(m.b, m.u, Nil)) == Append(k, Flat(Nil));
  }

  lemma {:induction false} AppendNil(m: Menu)
    ensures Append(m, Nil) == m
  {
    if m.Node? { AppendNil(m.next); }
  }

  lemma OpaqueBack(m: Menu, ax: Axis, l: Lib)
    requires m.Node? && !m.b.clear && Member(m.b, ax) && Loadable(l) && Bare(Inside(l)) == Bare(Flat(m.u))
    requires l.rect == m.b.rect && l.cap == Some(m.b.caption) && l.rv == m.b.rv && l.free == m.b.free
    requires l.style == SavedStyle(m.b, m.u.Node? && m.u.next.Nil?, !m.b.style.bgline) && (Lone(m.u) ==> m.u.b.ndiv)
    ensures Bare(Adopt(Load(l, false), ax, m.b.rect)) == Bare(Flat(Node(m.b, m.u, Nil)))
  {
    SameShape(Inside(l), Flat(m.u));
    FlatLone(m.u);
    FlatOne(m);
    var k := Load(l, false);
    assert k.u == Inside(l) && k.next == Nil && Bare(Nil) == Nil;
    assert Adopt(k, ax, m.b.rect) == k.(b := k.b.Along(ax));
  }

  /** A sequence in the same direction is adopted as it is. */
  lemma AdoptSame(k: Menu, m: Menu, ax: Axis, r: Rect)
    requires k.Node? && m.Node? && Bare(k) == Bare(m) && m.b.Runs(ax) && !m.b.Runs(ax.Other())
    ensures Adopt(k, ax, r) == k
  {
    assert Bare(k).b.hor == k.b.hor && Bare(m).b.hor == m.b.hor;
    assert Bare(k).b.ver == k.b.ver && Bare(m).b.ver == m.b.ver;
  }

  /** A sequence in the other direction is what a transparent button held. */
  lemma AdoptOther(k: Menu, m: Menu, ax: Axis)
    requires k.Node? && m.Node? && m.b.clear && m.u.Node? && m.u.next.Node? && m.next.Nil? && Bare(k) == Bare(m.u)
    requires Member(m.b, ax) && m.u.b.Runs(ax.Other())
    ensures Bare(Adopt(k, ax, m.b.rect)) == Bare(m)
  {
    SameShape(k, m.u);
    assert Bare(k).b.hor == k.b.hor && Bare(m.u).b.hor == m.u.b.hor;
    assert Bare(k).b.ver == k.b.ver && Bare(m.u).b.ver == m.u.b.ver;
    assert Adopt(k, ax, m.b.rect).u == k;
    assert Bare(Nil) == Nil;
  }

  // ---------------------------------------------------------------- marking the single buttons

  lemma {:induction false} MarkDrop(m: Menu, lone: bool, h: nat)
    requires h <= Len(m)
    ensures Len(Mark(m, lone)) == Len(m) && Size(Mark(m, lone)) == Size(m)
    ensures Drop(Mark(m, lone), h) == Mark(Drop(m, h), lone && h == 0)
    decreases m
  {
    if m.Node? {
      MarkDrop(m.u, Lone(m.u), 0);
      MarkDrop(m.next, false, if h > 0 then h - 1 else 0);
    }
  }

  lemma MarkBounds(m: Menu, lone: bool, n: nat)
    requires 1 <= n <= Len(m)
    ensures Len(Mark(m, lone)) == Len(m) && Bounds(Mark(m, lone), n) == Bounds(m, n)
  {
    MarkDrop(m, lone, n - 1);
    assert Len(Drop(m, n - 1)) > 0;
    BoundsSame(m, Mark(m, lone), n);
  }

  lemma BoundsSame(m: Menu, k: Menu, n: nat)
    requires 1 <= n <= Len(m) == Len(k) && m.Node? && k.Node? && k.b.rect == m.b.rect
    requires Drop(m, n - 1).Node? && Drop(k, n - 1).Node? && Drop(k, n - 1).b.rect == Drop(m, n - 1).b.rect
    ensures Bounds(k, n) == Bounds(m, n)
  {
  }

  /** Saving does not look at the mark. */
  lemma {:induction false} MarkSave(m: Menu, lone: bool, n: nat, fg: bool, root: bool)
    requires 1 <= n <= Len(m)
    ensures Len(Mark(m, lone)) == Len(m) && Save(Mark(m, lone), n, fg, root) == Save(m, n, fg, root)
    decreases Size(m), n, 2
  {
    MarkDrop(m, lone, 0);
    if n > 1 {
      MarkBounds(m, lone, n);
      var style := Style(m.b.style.font, false, !fg, false, false);
      MarkSplit(m, lone, n, Bounds(m, n), fg, None, m.b.rv, style, false);
    } else if Lone(m.u) {
      MarkSave(m.u, true, 1, ColourUnder(m.b, fg, root), false);
    } else if m.u.Node? {
      assert Len(m.u.next) > 0;
      var fg', cap := ColourUnder(m.b, fg, root), if m.b.clear then None else Some(m.b.caption);
      MarkSplit(m.u, false, Len(m.u), m.b.rect, fg', cap, m.b.rv, SavedStyle(m.b, false, fg'), m.b.free);
    }
  }

  lemma {:induction false} MarkSplit(u: Menu, lone: bool, n: nat, r: Rect, fg: bool, cap: Option<string>, rv: nat,
                                     style: Style, free: bool)
    requires 2 <= n <= Len(u)
    ensures Len(Mark(u, lone)) == Len(u)
    ensures SaveSplit(Mark(u, lone), n, r, fg, cap, rv, style, free) == SaveSplit(u, n, r, fg, cap, rv, style, free)
    decreases Size(u), n, 1
  {
    var h := n / 2;
    MarkHalves(u, lone, h, n, fg);
    MarkBounds(u, lone, h);
    SplitSame(u, Mark(u, lone), h, n, r, fg, cap, rv, style, free);
  }

  lemma {:induction false} MarkHalves(u: Menu, lone: bool, h: nat, n: nat, fg: bool)
    requires 1 <= h < n <= Len(u)
    ensures Len(Mark(u, lone)) == Len(u)
    ensures Save(Mark(u, lone), h, fg, false) == Save(u, h, fg, false)
    ensures Save(Drop(Mark(u, lone), h), n - h, fg, false) == Save(Drop(u, h), n - h, fg, false)
    decreases Size(u), n, 0
  {
    DropSize(u, h);
    MarkDrop(u, lone, h);
    MarkSave(u, lone, h, fg, false);
    MarkSave(Drop(u, h), false, n - h, fg, false);
  }

  lemma SplitSame(u: Menu, v: Menu, h: nat, n: nat, r: Rect, fg: bool, cap: Option<string>, rv: nat, style: Style,
                  free: bool)
    requires 2 <= n <= Len(u) == Len(v) && h == n / 2 && u.Node? && v.Node? && v.b.hor == u.b.hor
    requires Bounds(v, h) == Bounds(u, h) && Save(v, h, fg, false) == Save(u, h, fg, false)
    requires Save(Drop(v, h), n - h, fg, false) == Save(Drop(u, h), n - h, fg, false)
    ensures SaveSplit(v, n, r, fg, cap, rv, style, free) == SaveSplit(u, n, r, fg, cap, rv, style, free)
  {
  }

  /** Marking keeps the tiling. */
  lemma {:induction false} MarkValid(m: Menu, lone: bool, p: Place, o: Area)
    requires Valid(m, p, o) && (lone ==> Lone(m) && !p.Rest?)
    ensures Valid(Mark(m, lone), p, o)
    decreases m
  {
    if m.Node? {
      MarkValid(m.u, Lone(m.u), Under(m.b.rect), o);
      if p.Rest? || m.next.Node? {
        var ax := if p.Rest? then p.ax else AxisOf(m.b);
        MarkValid(m.next, false, Rest(ax, Beyond(m.b.rect, ax, Space(p))), o);
      }
      MarkedNodeValid(m, lone, p, o);
    }
  }

  lemma MarkedNodeValid(m: Menu, lone: bool, p: Place, o: Area)
    requires m.Node? && Valid(m, p, o) && (lone ==> Lone(m) && !p.Rest?)
    requires Valid(Mark(m.u, Lone(m.u)), Under(m.b.rect), o)
    requires p.Rest? || m.next.Node? ==>
               var ax := if p.Rest? then p.ax else AxisOf(m.b);
               !p.Top? && Valid(Mark(m.next, false), Rest(ax, Beyond(m.b.rect, ax, Space(p))), o)
    ensures Valid(Mark(m, lone), p, o)
  {
  }

  lemma {:induction false} MarkClosed(m: Menu, lone: bool)
    requires Holding(m)
    ensures Closed(Mark(m, lone))
  {
    if m.Node? {
      MarkClosed(m.u, Lone(m.u));
      MarkClosed(m.next, false);
    }
  }

  /** Nothing is marked that was not, if every single button below another is indivisible already. */
  lemma {:induction false} MarkSame(m: Menu, lone: bool)
    requires Closed(m) && (lone && m.Node? ==> m.b.ndiv)
    ensures Holding(m) && Mark(m, lone) == m
  {
    if m.Node? {
      MarkSame(m.u, Lone(m.u));
      MarkSame(m.next, false);
    }
  }

  // ---------------------------------------------------------------- the way back for every menu that can be loaded

  /** The first `n` buttons of a sequence come back, once they are adopted into it. */
  lemma BackAgain(m: Menu, n: nat, p: Place, ax: Axis, l: Lib, fg: bool, o: Area)
    requires InRun(m, p, ax, o) && Holding(m) && 1 <= n <= Len(m) && l == Save(m, n, fg, false)
    ensures Len(Mark(m, false)) == Len(m) && ComesBack(l, Mark(m, false), n, ax)
  {
    MarkSave(m, false, n, fg, false);
    MarkValid(m, false, p, o);
    MarkClosed(m, false);
    MarkedBack(Mark(m, false), n, p, ax, l, fg, o);
  }

  /** The two halves of a saved sequence are put together again. */
  lemma SplitBack(m: Menu, n: nat, p: Place, ax: Axis, l: Lib, fg: bool, o: Area)
    requires InRun(m, p, ax, o) && Holding(m) && 2 <= n <= Len(m) && IsSplit(l, m, n, ax, fg)
    ensures Len(Mark(m, false)) == Len(m) && Loadable(l) && Bare(Inside(l)) == Bare(Flat(Take(Mark(m, false), n)))
  {
    var h := n / 2;
    HalvesAgain(m, h, n, p, ax, l.topleft, l.botrite, fg, o);
    MarkedJoin(m, h, n, p, ax, l, o);
  }

  lemma HalvesAgain(m: Menu, h: nat, n: nat, p: Place, ax: Axis, l1: Lib, l2: Lib, fg: bool, o: Area)
    requires InRun(m, p, ax, o) && Holding(m) && 1 <= h < n <= Len(m)
    requires l1 == Save(m, h, fg, false) && l2 == Save(Drop(m, h), n - h, fg, false)
    ensures Len(Mark(m, false)) == Len(m) && Len(Mark(Drop(m, h), false)) == Len(Drop(m, h))
    ensures ComesBack(l1, Mark(m, false), h, ax) && ComesBack(l2, Mark(Drop(m, h), false), n - h, ax)
  {
    var q := DropInRun(m, h, p, ax, o);
    HoldingDrop(m, h);
    BackAgain(m, h, p, ax, l1, fg, o);
    BackAgain(Drop(m, h), n - h, q, ax, l2, fg, o);
  }

  lemma MarkedJoin(m: Menu, h: nat, n: nat, p: Place, ax: Axis, l: Lib, o: Area)
    requires InRun(m, p, ax, o) && 1 <= h < n <= Len(m) && l.Lib? && l.hor == ax.H? && l.ver == ax.V?
    requires l.rect == Extent(m, n, ax) && l.pos == m.b.On(ax).at + Bounds(m, h).On(ax).len
    requires Len(Mark(m, false)) == Len(m) && Len(Mark(Drop(m, h), false)) == Len(Drop(m, h))
    requires ComesBack(l.topleft, Mark(m, false), h, ax) && ComesBack(l.botrite, Mark(Drop(m, h), false), n - h, ax)
    ensures Loadable(l) && Bare(Inside(l)) == Bare(Flat(Take(Mark(m, false), n)))
  {
    MarkDrop(m, false, h);
    MarkValid(m, false, p, o);
    MarkBounds(m, false, h);
    MarkExtent(m, n, ax);
    JoinBack(Mark(m, false), h, n, p, ax, l, o);
  }

  lemma {:induction false} HoldingDrop(m: Menu, h: nat)
    requires h <= Len(m) && Holding(m)
    ensures Holding(Drop(m, h))
  {
    if h > 0 { HoldingDrop(m.next, h - 1); }
  }

  lemma {:induction false} MarkSum(m: Menu, n: nat, ax: Axis)
    requires n <= Len(m)
    ensures Len(Mark(m, false)) == Len(m) && SumLen(Mark(m, false), n, ax) == SumLen(m, n, ax)
  {
    MarkDrop(m, false, 0);
    if n > 0 { MarkSum(m.next, n - 1, ax); }
  }

  lemma MarkExtent(m: Menu, n: nat, ax: Axis)
    requires m.Node? && n <= Len(m)
    ensures Len(Mark(m, false)) == Len(m) && Extent(Mark(m, false), n, ax) == Extent(m, n, ax)
  {
    MarkSum(m, n, ax);
  }

  /** What is under a button comes back under it. */
  lemma InsideBack(m: Menu, fg: bool, root: bool, o: Area)
    requires m.Node? && Valid(m.u, Under(m.b.rect), o) && Holding(m)
    ensures Loadable(Save(m, 1, fg, root)) && Bare(Inside(Save(m, 1, fg, root))) == Bare(Flat(Mark(m.u, Lone(m.u))))
  {
    MarkSave(m, false, 1, fg, root);
    MarkValid(m.u, Lone(m.u), Under(m.b.rect), o);
    MarkClosed(m, false);
    MarkedInsideBack(Mark(m, false), fg, root, o);
  }

  /** The single button of a submenu comes back with everything under it, and indivisible. */
  lemma SingleBack(m: Menu, p: Place, fg: bool, root: bool, o: Area)
    requires Lone(m) && !p.Rest? && Valid(m, p, o) && Holding(m)
    ensures Loadable(Save(m, 1, fg, root)) && Bare(Load(Save(m, 1, fg, root), true)) == Bare(Flat(Mark(m, true)))
  {
    MarkSave(m, true, 1, fg, root);
    MarkValid(m, true, p, o);
    MarkClosed(m, true);
    MarkedSingleBack(Mark(m, true), p, fg, root, o);
  }
}
