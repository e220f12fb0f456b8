/** The menu editor's button tree (med3/bmenu.h, med3/bmstack.c).
  *
  * A C button points to the next button of its sequence (`but_b`) and to the first button
  * of the menu underneath it (`but_u`).  `Menu` has the same two links; the back link
  * `but_a` is determined by the position in the tree.
  */
module MenuTree {

  /** `H` is a left-to-right sequence (BM_HOR), `V` a top-to-bottom one (BM_VER). */
  datatype Axis = H | V {
    function Other(): Axis { if H? then V else H }
  }

  datatype Span = Span(at: int, len: int) {
    function End(): int { at + len }
  }

  /** `h` holds but_left and but_width, `v` holds but_top and but_height. */
  datatype Rect = Rect(h: Span, v: Span) {
    function On(ax: Axis): Span { if ax.H? then h else v }

    function With(ax: Axis, s: Span): Rect { if ax.H? then this.(h := s) else this.(v := s) }

    function Shift(dx: int, dy: int): Rect {
      Rect(Span(h.at + dx, h.len), Span(v.at + dy, v.len))
    }
  }

  datatype Style = Style(font: nat, popup: bool, bgline: bool, noscale: bool, crel: bool)

  const PLAIN := Style(0, false, false, false, false)

  datatype Button = Button(rect: Rect, hor: bool, ver: bool, clear: bool, first: bool, ndiv: bool, free: bool,
                           style: Style, rv: nat, caption: string) {
    predicate Runs(ax: Axis) { if ax.H? then hor else ver }

    function Along(ax: Axis): Button { if ax.H? then this.(hor := true) else this.(ver := true) }

    function On(ax: Axis): Span { rect.On(ax) }

    function WithSpan(ax: Axis, s: Span): Button { this.(rect := rect.With(ax, s)) }
  }

  datatype Menu = Nil | Node(b: Button, u: Menu, next: Menu)

  function Len(m: Menu): nat { if m.Nil? then 0 else 1 + Len(m.next) }

  /** Number of buttons at all levels. */
  function Size(m: Menu): nat { if m.Nil? then 0 else 1 + Size(m.u) + Size(m.next) }

  function Append(m: Menu, n: Menu): Menu {
    if m.Nil? then n else m.(next := Append(m.next, n))
  }

  function Take(m: Menu, n: nat): Menu
    requires n <= Len(m)
  {
    if n == 0 then Nil else m.(next := Take(m.next, n - 1))
  }

  function Drop(m: Menu, n: nat): (r: Menu)
    requires n <= Len(m)
    ensures Len(r) == Len(m) - n
  {
    if n == 0 then m else Drop(m.next, n - 1)
  }

  /** The top left corner of the editing area (wr_x and wr_y of `mwr`). */
  datatype Area = Area(x: int, y: int)

  predicate Good(r: Rect, o: Area) {
    r.h.at >= o.x && r.v.at >= o.y && r.h.len >= 0 && r.v.len >= 0
  }

  function Origin(o: Area, ax: Axis): int { if ax.H? then o.x else o.y }

  /** No button of `m` is left of or above the corner of `o`. */
  predicate Within(m: Menu, o: Area) {
    m.Nil? || (m.b.rect.h.at >= o.x && m.b.rect.v.at >= o.y && Within(m.u, o) && Within(m.next, o))
  }

  /** All of `m`, moved by the same distance. */
  function ShiftMenu(m: Menu, dx: int, dy: int): (k: Menu)
    ensures k.Node? == m.Node?
  {
    if m.Nil? then Nil
    else Node(m.b.(rect := m.b.rect.Shift(dx, dy)), ShiftMenu(m.u, dx, dy), ShiftMenu(m.next, dx, dy))
  }

  /** Where a menu stands: at the root, under a button, or in what is left of a sequence. */
  datatype Place = Top | Under(owner: Rect) | Rest(ax: Axis, space: Rect)

  predicate Fits(r: Rect, ax: Axis, space: Rect) {
    r.On(ax).at == space.On(ax).at && r.On(ax.Other()) == space.On(ax.Other())
  }

  /** What is left of `space` after `r` has been placed at its beginning. */
  function Beyond(r: Rect, ax: Axis, space: Rect): Rect {
    space.With(ax, Span(r.On(ax).End(), space.On(ax).len - r.On(ax).len))
  }

  predicate Member(b: Button, ax: Axis) {
    b.Runs(ax) && !b.Runs(ax.Other()) && !b.ndiv && !b.free
  }

  function AxisOf(b: Button): Axis { if b.hor then H else V }

  /** Every sequence tiles the rectangle of the button above it, at every level, and
    * every flag is where the program expects it.  An indivisible submenu (BM_NDIV)
    * keeps a rectangle of its own.
    */
  predicate Valid(m: Menu, p: Place, o: Area) {
    match m
    case Nil => p.Rest? ==> p.space.On(p.ax).len == 0
    case Node(b, u, next) =>
      Good(b.rect, o) && Valid(u, Under(b.rect), o) &&
      match p
      case Top => b.first && b.ndiv && !b.hor && !b.ver && next.Nil?
      case Under(r) =>
        b.first &&
        if b.hor || b.ver then
          Member(b, AxisOf(b)) && Fits(b.rect, AxisOf(b), r) && next.Node? &&
          Valid(next, Rest(AxisOf(b), Beyond(b.rect, AxisOf(b), r)), o)
        else
          next.Nil? && (b.ndiv || (b.rect == r && !b.free))
      case Rest(ax, r) =>
        !b.first && Member(b, ax) && Fits(b.rect, ax, r) &&
        Valid(next, Rest(ax, Beyond(b.rect, ax, r)), o)
  }

  lemma MemberAxis(b: Button, ax: Axis)
    requires Member(b, ax)
    ensures AxisOf(b) == ax && (b.hor || b.ver)
  {
  }

  function WithFirst(m: Menu, first: bool): Menu
    requires m.Node?
  {
    m.(b := m.b.(first := first))
  }

  function Space(p: Place): Rect
    requires !p.Top?
  {
    if p.Under? then p.owner else p.space
  }

  lemma ValidRestIntro(m: Menu, ax: Axis, r: Rect, o: Area)
    requires m.Node? && Good(m.b.rect, o) && Valid(m.u, Under(m.b.rect), o)
    requires !m.b.first && Member(m.b, ax) && Fits(m.b.rect, ax, r)
    requires Valid(m.next, Rest(ax, Beyond(m.b.rect, ax, r)), o)
    ensures Valid(m, Rest(ax, r), o)
  {
  }

  /** A sequence seen from any of its members is a rest that happens to begin there. */
  lemma ToRest(m: Menu, p: Place, ax: Axis, o: Area)
    requires Valid(m, p, o) && m.Node? && Member(m.b, ax)
    ensures !p.Top? && (p.Rest? ==> p.ax == ax) && (p.Under? ==> m.next.Node?) && m.b.first == p.Under?
    ensures Valid(WithFirst(m, false), Rest(ax, Space(p)), o)
  {
    MemberAxis(m.b, ax);
    ValidRestIntro(WithFirst(m, false), ax, Space(p), o);
  }

  lemma FromRest(m: Menu, p: Place, ax: Axis, o: Area)
    requires !p.Top? && (p.Rest? ==> p.ax == ax)
    requires m.Node? && (p.Under? ==> m.next.Node?) && Valid(m, Rest(ax, Space(p)), o)
    ensures Valid(WithFirst(m, p.Under?), p, o)
  {
    MemberAxis(WithFirst(m, p.Under?).b, ax);
  }

  // ---------------------------------------------------------------- parts of a sequence

  /** The extent of the first `n` buttons of a sequence. */
  function SumLen(m: Menu, n: nat, ax: Axis): int
    requires n <= Len(m)
  {
    if n == 0 then 0 else m.b.On(ax).len + SumLen(m.next, n - 1, ax)
  }

  lemma {:induction false} TakeDropValid(m: Menu, n: nat, ax: Axis, r: Rect, o: Area)
    requires Valid(m, Rest(ax, r), o) && n <= Len(m)
    ensures SumLen(m, n, ax) >= 0
    ensures var s := r.On(ax);
            && Valid(Take(m, n), Rest(ax, r.With(ax, Span(s.at, SumLen(m, n, ax)))), o)
            && Valid(Drop(m, n), Rest(ax, r.With(ax, Span(s.at + SumLen(m, n, ax), s.len - SumLen(m, n, ax)))), o)
  {
    if n > 0 {
      TakeDropValid(m.next, n - 1, ax, Beyond(m.b.rect, ax, r), o);
    }
  }

  lemma {:induction false} AppendValid(m: Menu, n: Menu, ax: Axis, r: Rect, len: int, o: Area)
    requires Valid(m, Rest(ax, r), o)
    requires Valid(n, Rest(ax, r.With(ax, Span(r.On(ax).End(), len))), o)
    ensures Valid(Append(m, n), Rest(ax, r.With(ax, Span(r.On(ax).at, r.On(ax).len + len))), o)
  {
    if m.Node? {
      AppendValid(m.next, n, ax, Beyond(m.b.rect, ax, r), len, o);
    }
  }

  lemma {:induction false} TakeLen(m: Menu, n: nat)
    requires n <= Len(m)
    ensures Len(Take(m, n)) == n && Append(Take(m, n), Drop(m, n)) == m
  {
    if n > 0 { TakeLen(m.next, n - 1); }
  }

  /** The rest of a sequence as `bmcheck` walks it: `at` is the expected start of the next
    * button along `ax`, `cross` what every button shares on the other axis.
    */
  predicate CheckRest(m: Menu, ax: Axis, at: int, cross: Span) {
    m.Nil? ||
    (m.b.On(ax.Other()) == cross && m.b.On(ax).at == at && !m.b.first && !m.b.ndiv &&
     !m.b.Runs(ax.Other()) && m.b.Runs(ax) && Check(m.u, false) &&
     CheckRest(m.next, ax, at + m.b.On(ax).len, cross))
  }

  /** The run-time check `bmcheck`: true when it returns without aborting. */
  predicate Check(m: Menu, root: bool) {
    m.Nil? ||
    (m.b.first && (root ==> m.b.ndiv) && Check(m.u, false) &&
     if m.b.hor then
       m.next.Node? && CheckRest(m.next, H, m.b.On(H).End(), m.b.On(V))
     else if m.b.ver then
       m.next.Node? && CheckRest(m.next, V, m.b.On(V).End(), m.b.On(H))
     else
       m.next.Nil?)
  }

  lemma {:induction false} ValidRestChecks(m: Menu, ax: Axis, r: Rect, o: Area)
    requires Valid(m, Rest(ax, r), o)
    ensures CheckRest(m, ax, r.On(ax).at, r.On(ax.Other()))
    decreases m
  {
    if m.Node? {
      ValidChecks(m.u, Under(m.b.rect), o);
      ValidRestChecks(m.next, ax, Beyond(m.b.rect, ax, r), o);
    }
  }

  /** The tiling invariant implies that `bmcheck` does not abort. */
  lemma {:induction false} ValidChecks(m: Menu, p: Place, o: Area)
    requires !p.Rest? && Valid(m, p, o)
    ensures Check(m, p.Top?)
    decreases m
  {
    if m.Node? {
      ValidChecks(m.u, Under(m.b.rect), o);
      if m.b.hor || m.b.ver {
        var ax := AxisOf(m.b);
        ValidRestChecks(m.next, ax, Beyond(m.b.rect, ax, p.owner), o);
      }
    }
  }

  // ---------------------------------------------------------------- what the check leaves out

  /** What `bmcheck` does not look at: the limit of the editing area, whether a sequence fills its owner, and some
    * flags.
    */
  predicate Unseen(m: Menu, p: Place, o: Area)
    requires !p.Rest?
    decreases m, 1
  {
    m.Nil? ||
    (Good(m.b.rect, o) && Unseen(m.u, Under(m.b.rect), o) &&
     match p
     case Top => !m.b.hor && !m.b.ver
     case Under(r) =>
       if m.b.hor || m.b.ver then
         && Member(m.b, AxisOf(m.b)) && Fits(m.b.rect, AxisOf(m.b), r)
         && SumLen(m, Len(m), AxisOf(m.b)) == r.On(AxisOf(m.b)).len && UnseenRest(m.next, o)
       else
         m.b.ndiv || (m.b.rect == r && !m.b.free))
  }

  predicate UnseenRest(m: Menu, o: Area)
    decreases m, 0
  {
    m.Nil? || (Good(m.b.rect, o) && !m.b.free && Unseen(m.u, Under(m.b.rect), o) && UnseenRest(m.next, o))
  }

  lemma {:induction false} ValidRestIff(m: Menu, ax: Axis, r: Rect, o: Area)
    ensures Valid(m, Rest(ax, r), o) <==>
            && CheckRest(m, ax, r.On(ax).at, r.On(ax.Other())) && UnseenRest(m, o)
            && SumLen(m, Len(m), ax) == r.On(ax).len
    decreases m, 0
  {
    if m.Node? {
      ValidIff(m.u, Under(m.b.rect), o);
      ValidRestIff(m.next, ax, Beyond(m.b.rect, ax, r), o);
    }
  }

  /** The check finds everything else that can be wrong with a menu. */
  lemma {:induction false} ValidIff(m: Menu, p: Place, o: Area)
    requires !p.Rest?
    ensures Valid(m, p, o) <==> Check(m, p.Top?) && Unseen(m, p, o)
    decreases m, 1
  {
    if m.Node? {
      ValidIff(m.u, Under(m.b.rect), o);
      if p.Under? && (m.b.hor || m.b.ver) {
        var ax := AxisOf(m.b);
        ValidRestIff(m.next, ax, Beyond(m.b.rect, ax, p.owner), o);
      }
    }
  }
}
