/** Exactly which menus saving and loading gives back (med3/rw.c), and as what. */
module Faithful {
  import opened Wrappers
  import opened MenuTree
  import opened SaveLoad
  import opened RoundTrip
  import opened Edits
  import opened Paths

  // ---------------------------------------------------------------- which files can be loaded

  lemma {:induction false} HoldingSplit(m: Menu, h: nat, n: nat)
    requires h <= n <= Len(m)
    ensures Holding(Take(m, n)) <==> Holding(Take(m, h)) && Holding(Take(Drop(m, h), n - h))
    ensures Take(m, Len(m)) == m
    decreases m
  {
    if m.Node? {
      HoldingSplit(m.next, if h > 0 then h - 1 else 0, if n > 0 then n - 1 else 0);
    }
  }

  lemma TakeFirst(m: Menu)
    requires m.Node?
    ensures Take(m, 1) == Node(m.b, m.u, Nil)
  {
    assert Take(m.next, 0) == Nil;
  }

  /** A saved menu can be loaded exactly when every transparent button in it holds two or more. */
  lemma {:induction false} LoadableIff(m: Menu, n: nat, fg: bool, root: bool)
    requires 1 <= n <= Len(m)
    ensures Loadable(Save(m, n, fg, root)) <==> Holding(Take(m, n))
    decreases Size(m), n, 1
  {
    if n > 1 {
      var style := Style(m.b.style.font, false, !fg, false, false);
      SplitLoadable(m, n, Bounds(m, n), fg, None, m.b.rv, style, false);
    } else {
      TakeFirst(m);
      var fg', cap := ColourUnder(m.b, fg, root), if m.b.clear then None else Some(m.b.caption);
      if Lone(m.u) {
        LoadableIff(m.u, 1, fg', false);
        TakeFirst(m.u);
      } else if m.u.Node? {
        assert Len(m.u.next) > 0;
        SplitLoadable(m.u, Len(m.u), m.b.rect, fg', cap, m.b.rv, SavedStyle(m.b, false, fg'), m.b.free);
        HoldingSplit(m.u, 0, 0);
      }
    }
  }

  lemma {:induction false} SplitLoadable(u: Menu, n: nat, r: Rect, fg: bool, cap: Option<string>, rv: nat, style: Style,
                                         free: bool)
    requires 2 <= n <= Len(u)
    ensures Loadable(SaveSplit(u, n, r, fg, cap, rv, style, free)) <==> Holding(Take(u, n))
    decreases Size(u), n, 0
  {
    DropSize(u, n / 2);
    LoadableIff(u, n / 2, fg, false);
    LoadableIff(Drop(u, n / 2), n - n / 2, fg, false);
    HoldingSplit(u, n / 2, n);
  }

  /** A whole menu is loaded exactly when every transparent button holds two or more. */
  lemma RootLoadable(t: Menu)
    requires Lone(t)
    ensures Loadable(Save(t, 1, true, true)) <==> Holding(t)
  {
    LoadableIff(t, 1, true, true);
    TakeFirst(t);
  }

  // ---------------------------------------------------------------- what dissolves

  /** Nothing in `m` dissolves. */
  predicate Firm(m: Menu) { m.Nil? || (!Dissolves(m) && Firm(m.u) && Firm(m.next)) }

  lemma {:induction false} AppendSize(m: Menu, n: Menu)
    ensures Size(Append(m, n)) == Size(m) + Size(n)
  {
    if m.Node? { AppendSize(m.next, n); }
  }

  /** Every button that dissolves is missing afterwards. */
  lemma {:induction false} FlatSize(m: Menu)
    ensures Size(Flat(m)) <= Size(m)
    ensures Size(Flat(m)) == Size(m) <==> Firm(m)
    ensures Firm(m) ==> Flat(m) == m
  {
    if m.Node? {
      FlatSize(m.u);
      FlatSize(m.next);
      if Dissolves(m) { AppendSize(WithFirst(Flat(m.u), m.b.first), Flat(m.next)); }
    }
  }

  lemma {:induction false} KeptSize(m: Menu)
    ensures Size(Kept(m)) == Size(m)
  {
    if m.Node? {
      KeptSize(m.u);
      KeptSize(m.next);
    }
  }

  lemma {:induction false} ReadableIff(m: Menu)
    ensures Readable(m) <==> Holding(m) && Firm(m)
  {
    if m.Node? {
      ReadableIff(m.u);
      ReadableIff(m.next);
    }
  }

  /** Only buttons without a direction gain a mark. */
  lemma {:induction false} FirmMark(m: Menu, lone: bool, p: Place, o: Area)
    requires Valid(m, p, o) && (lone ==> Lone(m) && !p.Rest?)
    ensures Firm(Mark(m, lone)) <==> Firm(m)
    decreases m
  {
    if m.Node? {
      FirmMark(m.u, Lone(m.u), Under(m.b.rect), o);
      if m.next.Node? {
        var ax := if p.Rest? then p.ax else AxisOf(m.b);
        FirmMark(m.next, false, Rest(ax, Beyond(m.b.rect, ax, Space(p))), o);
      }
      assert Dissolves(Mark(m, lone)) == Dissolves(m);
    }
  }

  /** A menu that marking leaves alone has its single buttons marked. */
  lemma {:induction false} KeptMark(m: Menu, lone: bool)
    requires Kept(Mark(m, lone)) == Kept(m) && Holding(m)
    ensures Closed(m) && (lone && m.Node? ==> m.b.ndiv)
    decreases m
  {
    if m.Node? {
      KeptFlags(Mark(m, lone), m);
      KeptMark(m.u, Lone(m.u));
      KeptMark(m.next, false);
    }
  }

  // ---------------------------------------------------------------- the exact conditions

  /** For every tiled menu: the saved form can be loaded and gives back the menu with single buttons below others marked
    * as indivisible if and only if transparent buttons hold sequences, of the other direction as members of one.
    */
  lemma LoadMarkIff(t: Menu, o: Area)
    requires t.Node? && Valid(t, Top, o)
    ensures var l := Save(t, 1, true, true);
            Loadable(l) && Kept(Tidy(Load(l, true))) == Kept(Mark(t, true)) <==> Readable(t)
  {
    RootLoadable(t);
    ReadableIff(t);
    FirmMark(t, true, Top, o);
    FlatSize(Mark(t, true));
    if Holding(t) {
      LoadSave(t, o);
      KeptSize(Flat(Mark(t, true)));
      KeptSize(Mark(t, true));
    }
  }

  /** For every tiled menu: the saved form can be loaded and gives back the menu if and only if, in addition, single
    * buttons below others are indivisible.
    */
  lemma LoadSaveIff(t: Menu, o: Area)
    requires t.Node? && Valid(t, Top, o)
    ensures var l := Save(t, 1, true, true);
            Loadable(l) && Kept(Tidy(Load(l, true))) == Kept(t) <==> Savable(t)
  {
    LoadMarkIff(t, o);
    if Savable(t) {
      MarkSame(t, true);
    } else if Loadable(Save(t, 1, true, true)) && Kept(Tidy(Load(Save(t, 1, true, true), true))) == Kept(t) {
      Unchanged(t, o);
    }
  }

  lemma Unchanged(t: Menu, o: Area)
    requires t.Node? && Valid(t, Top, o) && Loadable(Save(t, 1, true, true))
    requires Kept(Tidy(Load(Save(t, 1, true, true), true))) == Kept(t)
    ensures Savable(t)
  {
    RootLoadable(t);
    LoadSave(t, o);
    KeptSize(Flat(Mark(t, true)));
    KeptSize(t);
    MarkDrop(t, true, 0);
    FlatSize(Mark(t, true));
    FirmMark(t, true, Top, o);
    ReadableIff(t);
    KeptMark(t, true);
  }

  // ---------------------------------------------------------------- menus that change

  /** A part of a savable menu is savable. */
  lemma {:induction false} SavableAt(t: Menu, p: seq<Step>)
    requires Has(t, p) && Savable(t)
    ensures Savable(At(t, p))
  {
    if p != [] { SavableAt(if p[0].Down? then t.u else t.next, p[1..]); }
  }

  /** `t` after the whole sequence under the button at `p` is covered. */
  function CoveredAt(t: Menu, p: seq<Step>, rv: nat): Menu
    requires Has(t, p) && At(t, p).u.Node?
  {
    var s := At(t, p);
    Put(t, p, s.(u := Cover(s.u, Len(s.u), rv)))
  }

  /** Covering the whole of a sequence, anywhere in a menu, makes a single button that is not indivisible: the menu is
    * tiled, and does not come back as it was.
    */
  lemma CoverAllChanges(t: Menu, p: seq<Step>, rv: nat, o: Area)
    requires t.Node? && Valid(t, Top, o) && Has(t, p) && At(t, p).u.Node? && At(t, p).u.next.Node?
    ensures var c := CoveredAt(t, p, rv);
            var l := Save(c, 1, true, true);
            Valid(c, Top, o) && !(Loadable(l) && Kept(Tidy(Load(l, true))) == Kept(c))
  {
    var s := At(t, p);
    var d := s.(u := Cover(s.u, Len(s.u), rv));
    var c := Put(t, p, d);
    AtValid(t, p, Top, o);
    CoverAllValid(s, PlaceAt(t, p, Top), rv, o);
    PutValid(t, p, d, Top, o);
    AtPut(t, p, d);
    if Savable(c) { SavableAt(c, p); }
    LoadSaveIff(c, o);
  }

  lemma CoverAllValid(s: Menu, p: Place, rv: nat, o: Area)
    requires s.Node? && s.u.Node? && s.u.next.Node? && Valid(s, p, o)
    ensures var d := s.(u := Cover(s.u, Len(s.u), rv));
            Valid(d, p, o) && !Savable(d)
  {
    assert Len(s.u.next) > 0 && Len(Drop(s.u, Len(s.u))) == 0;
    CoverValid(s.u, Under(s.b.rect), Len(s.u), rv, o);
  }

  function Whole(first: bool, ndiv: bool): Button {
    Button(Rect(Span(0, 10), Span(0, 10)), false, false, false, first, ndiv, false, PLAIN, 0, "")
  }

  /** An opaque root with one single button under it, not indivisible. */
  function LoneMenu(): Menu { Node(Whole(true, true), Node(Whole(true, false), Nil, Nil), Nil) }

  /** The file can be read, and everything comes back but the mark. */
  lemma LoneMenuChanges()
    ensures var t, o := LoneMenu(), Area(0, 0);
            var l := Save(t, 1, true, true);
            && Valid(t, Top, o) && Readable(t) && !Savable(t) && Loadable(l)
            && Kept(Tidy(Load(l, true))) == Kept(Mark(t, true)) && Kept(Tidy(Load(l, true))) != Kept(t)
  {
    var t, o := LoneMenu(), Area(0, 0);
    assert Valid(t.u, Under(t.b.rect), o) && Valid(t, Top, o);
    assert Readable(t.u) && Readable(t);
    LoadMarkIff(t, o);
    LoadSaveIff(t, o);
  }
}
