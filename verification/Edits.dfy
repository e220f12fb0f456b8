/** The editing commands (med3/bmdiv.c, med3/bmenu.c, med3/box.c, med3/bmstack.c), each as
  * a change to the part of the tree that starts at one button.
  *
  * What the mouse supplies (a position, a number of selected buttons, a side) is a
  * parameter, before the clamping that the program applies to it.  A command that would
  * divide by zero is excluded by a `ScaleSafe` condition.
  */
module Edits {
  import opened MenuTree
  import opened Scaling

  function Clamp(x: int, least: int, most: int): int {
    var y := if x < least then least else x;
    if y > most then most else y
  }

  // ---------------------------------------------------------------- divide

  /** The length of the first piece when a span is cut at the clamped position `x`. */
  function CutAt(s: Span, x: int): int { Clamp(x, s.at + 3, s.at + s.len - 4) + 1 - s.at }

  function Blank(rect: Rect, rv: nat): Button {
    Button(rect, false, false, false, false, false, false, PLAIN, rv, "")
  }

  /** What goes under the first piece of a divided button: its old submenu `u`, scaled,
    * unless the first piece is the new one.
    */
  function LowContents(u: Menu, ax: Axis, len: int, c: int, early: bool, o: Area): Menu
    requires ScaleSafe(u, ax, len)
  {
    if early then Nil else Scale(u, ax, c, len, o)
  }

  function HighContents(u: Menu, ax: Axis, len: int, c: int, early: bool, o: Area): Menu
    requires ScaleSafe(u, ax, len)
  {
    MoveOnKeepsSafe(u, ax, len, c, o);
    if early then Scale(MoveOn(u, ax, c, o), ax, len - c, len, o) else Nil
  }

  function Inherit(b: Button, from: Button): Button {
    b.(rv := from.rv, style := from.style, caption := from.caption)
  }

  predicate GoesUnder(b: Button, ax: Axis) { b.Runs(ax.Other()) || b.ndiv }

  function PieceRect(r: Rect, ax: Axis, from: int, to: int): Rect {
    r.With(ax, Span(r.On(ax).at + from, to - from))
  }

  /** The dividing half of `bmdivide`.  The piece on the side of `press` is the new one and
    * gets `rv`; the other piece keeps the old contents with its submenu rescaled.
    */
  function Divide(s: Menu, ax: Axis, press: int, x: int, rv: nat, o: Area): Menu
    requires s.Node? && ScaleSafe(s.u, ax, s.b.On(ax).len)
  {
    var bc, len := s.b, s.b.On(ax).len;
    var c := CutAt(bc.On(ax), x);
    var early := press < TDiv(len, 2);
    var new1 := Blank(PieceRect(bc.rect, ax, 0, c), rv).Along(ax);
    var new2 := Blank(PieceRect(bc.rect, ax, c, len), rv).Along(ax);
    var u1, u2 := LowContents(s.u, ax, len, c, early, o), HighContents(s.u, ax, len, c, early, o);
    var b2 := if early then Inherit(new2, bc) else new2;
    if GoesUnder(bc, ax) then
      var b1 := if early then new1 else Inherit(new1, bc);
      Node(bc.(rv := 0, style := PLAIN, caption := "", clear := true),
           Node(b1.(first := true), u1, Node(b2, u2, Nil)), s.next)
    else
      var kept := bc.(rect := PieceRect(bc.rect, ax, 0, c)).Along(ax);
      Node(if early then kept.(rv := rv, style := PLAIN, caption := "") else kept, u1, Node(b2, u2, s.next))
  }

  /** The submenu of a divided button tiles whichever piece it goes to. */
  lemma DivideKeepsContents(u: Menu, r: Rect, ax: Axis, c: int, early: bool, o: Area)
    requires Valid(u, Under(r), o) && Good(r, o) && ScaleSafe(u, ax, r.On(ax).len)
    requires 0 <= c <= r.On(ax).len
    ensures Valid(LowContents(u, ax, r.On(ax).len, c, early, o), Under(PieceRect(r, ax, 0, c)), o)
    ensures Valid(HighContents(u, ax, r.On(ax).len, c, early, o), Under(PieceRect(r, ax, c, r.On(ax).len)), o)
  {
    var span := r.On(ax);
    ScaleStepValid(u, r, ax, span.at + c, span.len - c, o);
    if span.len > 0 {
      ScaleValid(u, r, ax, c, span.len, o);
      DivExact(c, span.len);
    }
  }

  /** Two pieces of a rectangle, one after the other, take the room of the whole. */
  lemma TwoPieces(r: Rect, ax: Axis, c: int, space: Rect)
    requires Fits(r, ax, space)
    ensures var r1, r2 := PieceRect(r, ax, 0, c), PieceRect(r, ax, c, r.On(ax).len);
            && Fits(r1, ax, space) && Fits(r2, ax, Beyond(r1, ax, space))
            && Beyond(r2, ax, Beyond(r1, ax, space)) == Beyond(r, ax, space)
  {
  }

  /** Two adjoining pieces in place of one member of a sequence leave it tiled. */
  lemma PairValid(d: Menu, p: Place, r: Rect, ax: Axis, c: int, o: Area)
    requires d.Node? && d.next.Node? && !p.Top? && Good(r, o) && 0 <= c <= r.On(ax).len
    requires p.Rest? ==> p.ax == ax
    requires d.b.rect == PieceRect(r, ax, 0, c) && d.next.b.rect == PieceRect(r, ax, c, r.On(ax).len)
    requires Valid(d.u, Under(d.b.rect), o) && Valid(d.next.u, Under(d.next.b.rect), o)
    requires Member(d.b, ax) && Member(d.next.b, ax) && d.b.first == p.Under? && !d.next.b.first
    requires Fits(r, ax, Space(p)) && Valid(d.next.next, Rest(ax, Beyond(r, ax, Space(p))), o)
    ensures Valid(d, p, o)
  {
    TwoPieces(r, ax, c, Space(p));
    ValidRestIntro(d.next, ax, Beyond(d.b.rect, ax, Space(p)), o);
    ValidRestIntro(WithFirst(d, false), ax, Space(p), o);
    FromRest(WithFirst(d, false), p, ax, o);
  }

  /** The pieces of a button that is divided underneath itself. */
  lemma DivideUnderValid(s: Menu, p: Place, ax: Axis, press: int, x: int, rv: nat, o: Area)
    requires Valid(s, p, o) && s.Node? && ScaleSafe(s.u, ax, s.b.On(ax).len) && s.b.On(ax).len >= 3
    requires GoesUnder(s.b, ax)
    ensures Valid(Divide(s, ax, press, x, rv, o), p, o)
  {
    var d, c, len := Divide(s, ax, press, x, rv, o), CutAt(s.b.On(ax), x), s.b.On(ax).len;
    DivideKeepsContents(s.u, s.b.rect, ax, c, press < TDiv(len, 2), o);
    PairValid(d.u, Under(s.b.rect), s.b.rect, ax, c, o);
  }

  /** The pieces of a button that is divided along its sequence. */
  lemma DivideBesideValid(s: Menu, p: Place, ax: Axis, press: int, x: int, rv: nat, o: Area)
    requires Valid(s, p, o) && s.Node? && ScaleSafe(s.u, ax, s.b.On(ax).len) && s.b.On(ax).len >= 3
    requires !GoesUnder(s.b, ax)
    ensures Valid(Divide(s, ax, press, x, rv, o), p, o)
  {
    var d, c, len := Divide(s, ax, press, x, rv, o), CutAt(s.b.On(ax), x), s.b.On(ax).len;
    DivideKeepsContents(s.u, s.b.rect, ax, c, press < TDiv(len, 2), o);
    PairValid(d, p, s.b.rect, ax, c, o);
  }

  lemma DivideTooShort(s: Menu, p: Place, ax: Axis, press: int, x: int, rv: nat, o: Area)
    requires Valid(s, p, o) && s.Node? && ScaleSafe(s.u, ax, s.b.On(ax).len) && s.b.On(ax).len < 3
    ensures !Valid(Divide(s, ax, press, x, rv, o), p, o)
  {
    var d := Divide(s, ax, press, x, rv, o);
    assert GoesUnder(s.b, ax) && Valid(d, p, o) ==> Valid(d.u, Under(d.b.rect), o);
  }

  /** Dividing keeps the invariant exactly for buttons that are at least three units long. */
  lemma DivideValid(s: Menu, p: Place, ax: Axis, press: int, x: int, rv: nat, o: Area)
    requires Valid(s, p, o) && s.Node? && ScaleSafe(s.u, ax, s.b.On(ax).len)
    ensures Valid(Divide(s, ax, press, x, rv, o), p, o) <==> s.b.On(ax).len >= 3
  {
    if s.b.On(ax).len < 3 {
      DivideTooShort(s, p, ax, press, x, rv, o);
    } else if GoesUnder(s.b, ax) {
      DivideUnderValid(s, p, ax, press, x, rv, o);
    } else {
      DivideBesideValid(s, p, ax, press, x, rv, o);
    }
  }

  // ---------------------------------------------------------------- cover and uncover

  /** `rectobut` on `n` buttons starting at `s`.  A single transparent button becomes opaque;
    * a single opaque one is refused.  Otherwise a new button takes the place of the `n`,
    * which go underneath it; it takes its direction from the neighbours it has.
    */
  function Cover(s: Menu, n: nat, rv: nat): Menu
    requires 1 <= n <= Len(s)
  {
    if n == 1 then
      if s.b.clear then s.(b := s.b.(clear := false, caption := "", rv := rv)) else s
    else
      var ax, rest := AxisOf(s.b), Drop(s, n);
      var rect := s.b.rect.With(ax, Span(s.b.On(ax).at, SumLen(s, n, ax)));
      var hor := (rest.Node? && rest.b.hor) || (!s.b.first && s.b.hor);
      var ver := (rest.Node? && rest.b.ver) || (!s.b.first && s.b.ver);
      Node(Blank(rect, rv).(hor := hor, ver := ver, first := s.b.first), WithFirst(Take(s, n), true), rest)
  }

  /** The covered buttons fill the new one, and the rest follows it. */
  lemma CoveredValid(s: Menu, p: Place, n: nat, rv: nat, ax: Axis, o: Area)
    requires Valid(s, p, o) && 2 <= n <= Len(s) && Member(s.b, ax)
    ensures var c := Cover(s, n, rv);
            && !p.Top? && Valid(c.u, Under(c.b.rect), o) && Good(c.b.rect, o) && Fits(c.b.rect, ax, Space(p))
            && Valid(c.next, Rest(ax, Beyond(c.b.rect, ax, Space(p))), o)
  {
    var m := WithFirst(s, false);
    MemberAxis(s.b, ax);
    ToRest(s, p, ax, o);
    TakeDropValid(m, n, ax, Space(p), o);
    TakeAnyFirst(s, n, ax);
    FromRest(Take(m, n), Under(Cover(s, n, rv).b.rect), ax, o);
  }

  /** Whether a sequence is marked as one does not matter to its parts. */
  lemma TakeAnyFirst(s: Menu, n: nat, ax: Axis)
    requires 2 <= n <= Len(s)
    ensures var m := WithFirst(s, false);
            && Len(m) == Len(s) && Take(m, n) == WithFirst(Take(s, n), false) && Drop(m, n) == Drop(s, n)
            && Take(m, n).next.Node? && SumLen(m, n, ax) == SumLen(s, n, ax)
  {
    var m := WithFirst(s, false);
    assert Take(m, n).next == Take(m.next, n - 1) && Take(m.next, n - 1).Node?;
  }

  /** Covering any part of a sequence, or all of it, keeps the invariant. */
  lemma CoverValid(s: Menu, p: Place, n: nat, rv: nat, o: Area)
    requires Valid(s, p, o) && 1 <= n <= Len(s)
    ensures Valid(Cover(s, n, rv), p, o)
  {
    if n > 1 {
      var ax, c := AxisOf(s.b), Cover(s, n, rv);
      assert Member(s.b, ax) by { assert s.next.Node?; }
      ToRest(s, p, ax, o);
      CoveredValid(s, p, n, rv, ax, o);
      if Member(c.b, ax) {
        ValidRestIntro(WithFirst(c, false), ax, Space(p), o);
        FromRest(WithFirst(c, false), p, ax, o);
      }
    }
  }

  /** The command needs a submenu that is not an indivisible one. */
  predicate CanUncover(s: Menu) { s.Node? && s.u.Node? && !s.u.b.ndiv }

  /** `bmuncover`: delete the button and put its submenu in its place, or only make it
    * transparent when the directions differ or the button is indivisible.
    */
  function Uncover(s: Menu): Menu
    requires CanUncover(s)
  {
    if (s.b.hor && s.u.b.ver) || (s.b.ver && s.u.b.hor) || s.b.ndiv then s.(b := s.b.(clear := true))
    else Append(WithFirst(s.u, s.b.first), s.next)
  }

  /** Uncovering keeps the invariant except in one case, where a member of a sequence is
    * replaced by a single button that belongs to no sequence.
    */
  lemma UncoverValid(s: Menu, p: Place, o: Area)
    requires Valid(s, p, o) && CanUncover(s)
    ensures Valid(Uncover(s), p, o) <==> (s.b.hor || s.b.ver ==> s.u.b.hor || s.u.b.ver)
  {
    var b := s.b;
    if b.hor || b.ver {
      var ax := AxisOf(b);
      ToRest(s, p, ax, o);
      if s.u.b.Runs(ax) {
        ToRest(s.u, Under(b.rect), ax, o);
        var v := WithFirst(s.u, false);
        AppendValid(v, s.next, ax, b.rect, Space(p).On(ax).len - b.On(ax).len, o);
        assert Append(v, s.next).next == Append(v.next, s.next) && Append(v.next, s.next).Node?;
        FromRest(Append(v, s.next), p, ax, o);
        assert Uncover(s) == WithFirst(Append(v, s.next), p.Under?);
      } else if s.u.b.Runs(ax.Other()) {
        assert Uncover(s) == s.(b := b.(clear := true));
      } else {
        assert Uncover(s).b == s.u.b.(first := b.first) && Uncover(s).next == Append(s.u.next, s.next);
      }
    } else if !b.ndiv {
      AppendNil(s.u);
    }
  }

  lemma AppendNil(m: Menu)
    ensures Append(m, Nil) == m
  {
  }

  /** Uncover undoes cover, of a part of a sequence or of all of it. */
  lemma UncoverCover(s: Menu, p: Place, n: nat, rv: nat, o: Area)
    requires Valid(s, p, o) && 2 <= n <= Len(s)
    ensures CanUncover(Cover(s, n, rv)) && Uncover(Cover(s, n, rv)) == s
  {
    var c := Cover(s, n, rv);
    TakeLen(s, n);
    assert WithFirst(c.u, s.b.first) == Take(s, n);
    assert s.next.Node?;
    if !s.b.first || n < Len(s) { CoverKeepsAxis(s, p, n, rv, o); }
  }

  lemma CoverKeepsAxis(s: Menu, p: Place, n: nat, rv: nat, o: Area)
    requires Valid(s, p, o) && 2 <= n <= Len(s)
    requires !s.b.first || n < Len(s)
    ensures Cover(s, n, rv).b.hor == s.b.hor && Cover(s, n, rv).b.ver == s.b.ver
  {
    var ax := AxisOf(s.b);
    assert s.next.Node?;
    ToRest(s, p, ax, o);
    TakeDropValid(WithFirst(s, false), n, ax, Space(p), o);
  }
}
