/** What reading a file leaves behind (med3/rw.c: bmread): where the menu is tiled, what its buttons carry, and what the
  * counters of the return values are.
  */
module Reading {
  import opened MenuTree
  import opened SaveLoad
  import opened RoundTrip
  import opened ReturnValues
  import opened Labels
  import opened Placement

  // ---------------------------------------------------------------- the editing area

  /** The corner of the menu itself. */
  function Corner(m: Menu): Area
    requires m.Node?
  {
    Area(m.b.rect.h.at, m.b.rect.v.at)
  }

  function ShiftPlace(p: Place, dx: int, dy: int): Place {
    match p
    case Top => Top
    case Under(r) => Under(r.Shift(dx, dy))
    case Rest(ax, r) => Rest(ax, r.Shift(dx, dy))
  }

  /** Moving a menu together with the editing area. */
  lemma {:induction false} ShiftValid(m: Menu, p: Place, o: Area, dx: int, dy: int)
    requires Valid(m, p, o)
    ensures Valid(ShiftMenu(m, dx, dy), ShiftPlace(p, dx, dy), Area(o.x + dx, o.y + dy))
    decreases m
  {
    if m.Node? {
      ShiftValid(m.u, Under(m.b.rect), o, dx, dy);
      if p.Rest? || m.next.Node? {
        var ax := if p.Rest? then p.ax else AxisOf(m.b);
        ShiftValid(m.next, Rest(ax, Beyond(m.b.rect, ax, Space(p))), o, dx, dy);
        ShiftBeyond(m.b.rect, ax, Space(p), dx, dy);
      }
    }
  }

  lemma ShiftBeyond(b: Rect, ax: Axis, r: Rect, dx: int, dy: int)
    ensures Beyond(b, ax, r).Shift(dx, dy) == Beyond(b.Shift(dx, dy), ax, r.Shift(dx, dy))
  {
  }

  lemma {:induction false} ShiftWithin(m: Menu, c: Area, dx: int, dy: int)
    ensures Within(ShiftMenu(m, dx, dy), Area(c.x + dx, c.y + dy)) <==> Within(m, c)
  {
    if m.Node? {
      ShiftWithin(m.u, c, dx, dy);
      ShiftWithin(m.next, c, dx, dy);
    }
  }

  lemma {:induction false} AppendWithin(m: Menu, n: Menu, c: Area)
    ensures Within(Append(m, n), c) <==> Within(m, c) && Within(n, c)
  {
    if m.Node? { AppendWithin(m.next, n, c); }
  }

  /** A button that dissolves reaches no farther than the first of the buttons it holds. */
  lemma {:induction false} FlatWithin(m: Menu, p: Place, o: Area, c: Area)
    requires Valid(m, p, o)
    ensures Within(Flat(m), c) <==> Within(m, c)
    decreases m
  {
    if m.Node? {
      FlatWithin(m.u, Under(m.b.rect), o, c);
      if m.next.Node? {
        var ax := if p.Rest? then p.ax else AxisOf(m.b);
        FlatWithin(m.next, Rest(ax, Beyond(m.b.rect, ax, Space(p))), o, c);
      }
      if Dissolves(m) {
        AppendWithin(WithFirst(Flat(m.u), m.b.first), Flat(m.next), c);
        assert Within(WithFirst(Flat(m.u), m.b.first), c) == Within(Flat(m.u), c);
      }
    }
  }

  lemma {:induction false} MarkWithin(m: Menu, lone: bool, c: Area)
    ensures Within(Mark(m, lone), c) <==> Within(m, c)
  {
    if m.Node? {
      MarkWithin(m.u, Lone(m.u), c);
      MarkWithin(m.next, false, c);
    }
  }

  lemma {:induction false} KeptWithin(m: Menu, c: Area)
    ensures Within(Kept(m), c) <==> Within(m, c)
  {
    if m.Node? {
      KeptWithin(m.u, c);
      KeptWithin(m.next, c);
    }
  }

  // ---------------------------------------------------------------- tiling

  /** The members of a button that dissolves tile its room among its neighbours. */
  lemma FlatJoin(b: Button, u: Menu, next: Menu, ax: Axis, r: Rect, o: Area)
    requires Member(b, ax) && Fits(b.rect, ax, r) && u.Node? && u.b.Runs(ax)
    requires Valid(u, Under(b.rect), o) && Valid(next, Rest(ax, Beyond(b.rect, ax, r)), o)
    ensures Valid(Append(WithFirst(u, false), next), Rest(ax, r), o)
  {
    assert Member(u.b, ax);
    ToRest(u, Under(b.rect), ax, o);
    AppendValid(WithFirst(u, false), next, ax, b.rect, r.On(ax).len - b.On(ax).len, o);
    assert Beyond(b.rect, ax, r) == b.rect.With(ax, Span(b.On(ax).End(), r.On(ax).len - b.On(ax).len));
    assert b.rect.With(ax, Span(b.On(ax).at, r.On(ax).len)) == r;
  }

  /** The first button of a sequence and what follows it. */
  lemma FlatStep(m: Menu, ax: Axis, r: Rect, o: Area)
    requires m.Node? && Member(m.b, ax) && Fits(m.b.rect, ax, r) && Good(m.b.rect, o)
    requires Valid(m.u, Under(m.b.rect), o) && Valid(Flat(m.u), Under(m.b.rect), o)
    requires Valid(Flat(m.next), Rest(ax, Beyond(m.b.rect, ax, r)), o)
    ensures Valid(WithFirst(Flat(m), false), Rest(ax, r), o)
  {
    if Dissolves(m) {
      FlatHead(m.u, ax, o);
      FlatJoin(m.b, Flat(m.u), Flat(m.next), ax, r, o);
      assert WithFirst(Append(WithFirst(Flat(m.u), m.b.first), Flat(m.next)), false)
             == Append(WithFirst(Flat(m.u), false), Flat(m.next));
    } else {
      ValidRestIntro(Node(m.b.(first := false), Flat(m.u), Flat(m.next)), ax, r, o);
    }
  }

  lemma {:induction false} FlatFirst(m: Menu)
    requires m.Node?
    ensures Flat(m).b.first == m.b.first
  {
  }

  lemma FlatNext(m: Menu)
    requires m.Node? && m.next.Node?
    ensures Flat(m).next.Node?
  {
    if Dissolves(m) {
      var k := WithFirst(Flat(m.u), m.b.first);
      assert Flat(m) == Node(k.b, k.u, Append(k.next, Flat(m.next)));
    }
  }

  /** Dissolving keeps the tiling. */
  lemma {:induction false} FlatValid(m: Menu, p: Place, o: Area)
    requires Valid(m, p, o)
    ensures Valid(Flat(m), p, o)
    decreases m
  {
    if m.Node? {
      FlatValid(m.u, Under(m.b.rect), o);
      if m.b.hor || m.b.ver {
        var ax := AxisOf(m.b);
        FlatValid(m.next, Rest(ax, Beyond(m.b.rect, ax, Space(p))), o);
        FlatStep(m, ax, Space(p), o);
        FlatFirst(m);
        if p.Under? { FlatNext(m); }
        FromRest(WithFirst(Flat(m), false), p, ax, o);
      }
    }
  }

  /** A menu with the layout of a valid one, over valid parts. */
  lemma SameHeadValid(m: Menu, n: Menu, p: Place, o: Area)
    requires m.Node? && n.Node? && Valid(m, p, o) && n.b.rect == m.b.rect && m.next.Node? == n.next.Node?
    requires m.b.hor == n.b.hor && m.b.ver == n.b.ver && m.b.first == n.b.first && m.b.ndiv == n.b.ndiv
    requires m.b.free == n.b.free
    requires Valid(n.u, Under(m.b.rect), o)
    requires p.Rest? || m.next.Node? ==>
               var ax := if p.Rest? then p.ax else AxisOf(m.b);
               !p.Top? && Valid(n.next, Rest(ax, Beyond(m.b.rect, ax, Space(p))), o)
    ensures Valid(n, p, o)
  {
  }

  lemma {:induction false} KeptValid(m: Menu, n: Menu, p: Place, o: Area)
    requires Kept(m) == Kept(n) && Valid(m, p, o)
    ensures Valid(n, p, o)
    decreases m
  {
    if m.Node? {
      KeptFlags(m, n);
      KeptValid(m.u, n.u, Under(m.b.rect), o);
      if p.Rest? || m.next.Node? {
        var ax := if p.Rest? then p.ax else AxisOf(m.b);
        KeptValid(m.next, n.next, Rest(ax, Beyond(m.b.rect, ax, Space(p))), o);
      }
      SameHeadValid(m, n, p, o);
    }
  }

  // ---------------------------------------------------------------- labels

  /** The number of opaque buttons whose label, as far as a file keeps it, satisfies `f`. */
  function FileCount(m: Menu, f: Label -> bool): nat {
    if m.Nil? then 0 else OwnCount(m.b, Lone(m.u), f) + FileCount(m.u, f) + FileCount(m.next, f)
  }

  function OwnCount(b: Button, lone: bool, f: Label -> bool): nat {
    if b.clear then 0 else One(LabelOf(BareButton(b, lone)), f)
  }

  lemma {:induction false} FileCountIs(m: Menu, f: Label -> bool)
    ensures FileCount(m, f) == Count(Kept(m), f)
  {
    if m.Node? {
      FileCountIs(m.u, f);
      FileCountIs(m.next, f);
    }
  }

  lemma {:induction false} AppendFileCount(m: Menu, n: Menu, f: Label -> bool)
    ensures FileCount(Append(m, n), f) == FileCount(m, f) + FileCount(n, f)
  {
    if m.Node? { AppendFileCount(m.next, n, f); }
  }

  /** The buttons that dissolve have no label to lose. */
  lemma {:induction false} FlatCount(m: Menu, p: Place, o: Area, f: Label -> bool)
    requires Valid(m, p, o)
    ensures FileCount(Flat(m), f) == FileCount(m, f)
    decreases m
  {
    if m.Node? {
      FlatCount(m.u, Under(m.b.rect), o, f);
      if m.next.Node? {
        var ax := if p.Rest? then p.ax else AxisOf(m.b);
        FlatCount(m.next, Rest(ax, Beyond(m.b.rect, ax, Space(p))), o, f);
      }
      if Dissolves(m) {
        AppendFileCount(WithFirst(Flat(m.u), m.b.first), Flat(m.next), f);
      } else {
        FlatLone(m.u);
      }
    }
  }

  lemma {:induction false} MarkCount(m: Menu, lone: bool, f: Label -> bool)
    ensures FileCount(Mark(m, lone), f) == FileCount(m, f)
  {
    if m.Node? {
      MarkCount(m.u, Lone(m.u), f);
      MarkCount(m.next, false, f);
    }
  }

  lemma {:induction false} ShiftCount(m: Menu, dx: int, dy: int, f: Label -> bool)
    ensures Count(ShiftMenu(m, dx, dy), f) == Count(m, f)
  {
    if m.Node? {
      ShiftCount(m.u, dx, dy, f);
      ShiftCount(m.next, dx, dy, f);
    }
  }

  lemma {:induction false} KeptHeld(m: Menu, c: nat)
    ensures Held(Kept(m), c) == Held(m, c)
  {
    if m.Node? {
      KeptHeld(m.u, c);
      KeptHeld(m.next, c);
    }
  }

  // ---------------------------------------------------------------- reading

  /** `r` is what comes back of `t`, moved by (dx, dy). */
  predicate Comes(t: Menu, r: Menu, dx: int, dy: int) {
    Kept(r) == ShiftMenu(Kept(Flat(Mark(t, true))), dx, dy)
  }

  /** What a read makes of any tiled menu that can be loaded. */
  lemma ReadIs(t: Menu, from: Area, o: Area)
    requires t.Node? && Valid(t, Top, from) && Holding(t)
    ensures Loadable(Written(t)) && Loadable(PlaceLib(Written(t), o.x + 1, o.y + 1))
    ensures Comes(t, Read(Written(t), o), o.x - t.b.rect.h.at, o.y - t.b.rect.v.at)
  {
    LoadSave(t, from);
    ReadWritten(t, Save(t, 1, true, true), o);
  }

  /** It is tiled if and only if no part of the written menu was left of or above its corner. */
  lemma ComesTiledIff(t: Menu, r: Menu, from: Area, c: Area, dx: int, dy: int, o: Area)
    requires t.Node? && Valid(t, Top, from) && Comes(t, r, dx, dy) && o == Area(c.x + dx, c.y + dy)
    ensures Valid(r, Top, o) <==> Within(t, c)
  {
    var k, o' := Flat(Mark(t, true)), Area(from.x + dx, from.y + dy);
    FlatMarkWithin(t, from, c);
    ShiftValid(k, Top, from, dx, dy);
    ShiftKept(k, dx, dy);
    KeptValid(ShiftMenu(k, dx, dy), r, Top, o');
    ValidWithin(r, Top, o', o);
    KeptWithin(r, o);
    KeptWithin(k, c);
    ShiftWithin(Kept(k), c, dx, dy);
  }

  lemma FlatMarkWithin(t: Menu, from: Area, c: Area)
    requires Lone(t) && Valid(t, Top, from)
    ensures Valid(Flat(Mark(t, true)), Top, from)
    ensures Within(Flat(Mark(t, true)), c) <==> Within(t, c)
  {
    MarkValid(t, true, Top, from);
    FlatValid(Mark(t, true), Top, from);
    FlatWithin(Mark(t, true), Top, from, c);
    MarkWithin(t, true, c);
  }

  /** It carries every return value, style and caption that the written one did, as far as a file keeps them. */
  lemma ComesCount(t: Menu, r: Menu, from: Area, dx: int, dy: int, f: Label -> bool)
    requires t.Node? && Valid(t, Top, from) && Comes(t, r, dx, dy)
    ensures Count(Kept(r), f) == Count(Kept(t), f)
  {
    MarkValid(t, true, Top, from);
    FlatCount(Mark(t, true), Top, from, f);
    MarkCount(t, true, f);
    FileCountIs(Flat(Mark(t, true)), f);
    FileCountIs(t, f);
    ShiftCount(Kept(Flat(Mark(t, true))), dx, dy, f);
  }

  lemma ComesHeld(t: Menu, r: Menu, from: Area, dx: int, dy: int, c: nat, f: Label -> bool)
    requires t.Node? && Valid(t, Top, from) && Comes(t, r, dx, dy) && forall l: Label :: f(l) <==> CellOf(l.rv) == c
    ensures Held(r, c) == Held(t, c)
  {
    ComesCount(t, r, from, dx, dy, f);
    KeptHeld(r, c);
    KeptHeld(t, c);
    HeldIsCount(Kept(r), c, f);
    HeldIsCount(Kept(t), c, f);
  }

  /** What a read leaves behind: when the menu is tiled, which labels it has, and counters that are exact for every
    * value that at most 255 buttons share.
    */
  lemma ReadLeaves(t: Menu, from: Area, o: Area, cut: seq<nat>)
    requires t.Node? && Valid(t, Top, from) && Holding(t) && Tables(Zeros(), cut).Ok()
    ensures Loadable(Written(t)) && Loadable(PlaceLib(Written(t), o.x + 1, o.y + 1))
    ensures Left(t, Read(Written(t), o), o, cut)
  {
    var dx, dy := o.x - t.b.rect.h.at, o.y - t.b.rect.v.at;
    ReadIs(t, from, o);
    ComesLeft(t, Read(Written(t), o), from, dx, dy, o, cut);
  }

  /** Menu `r`, read in area `o` from a file of `t`, and the counters for it. */
  ghost predicate Left(t: Menu, r: Menu, o: Area, cut: seq<nat>)
    requires t.Node? && Tables(Zeros(), cut).Ok()
  {
    && (Valid(r, Top, o) <==> Within(t, Corner(t)))
    && (forall f: Label -> bool :: Count(Kept(r), f) == Count(Kept(t), f))
    && (forall c | 0 <= c < ALL && Held(t, c) <= 255 ::
          TakeValues(Tables(Zeros(), cut), r).main[c] == Held(t, c))
  }

  lemma ComesLeft(t: Menu, r: Menu, from: Area, dx: int, dy: int, o: Area, cut: seq<nat>)
    requires t.Node? && Valid(t, Top, from) && Comes(t, r, dx, dy) && Tables(Zeros(), cut).Ok()
    requires o == Area(t.b.rect.h.at + dx, t.b.rect.v.at + dy)
    ensures Left(t, r, o, cut)
  {
    ComesTiledIff(t, r, from, Corner(t), dx, dy, o);
    forall f: Label -> bool ensures Count(Kept(r), f) == Count(Kept(t), f) {
      ComesCount(t, r, from, dx, dy, f);
    }
    forall c | 0 <= c < ALL && Held(t, c) <= 255
      ensures TakeValues(Tables(Zeros(), cut), r).main[c] == Held(t, c)
    {
      ComesHeld(t, r, from, dx, dy, c, InCell(c));
      TakeValuesEffect(Tables(Zeros(), cut), r, c);
    }
  }
}
