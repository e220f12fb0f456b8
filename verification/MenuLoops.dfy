/** The loops of the C routines, which walk along a sequence of buttons and go into the
  * submenu of each, proved to compute the functions of the other modules.
  */
module MenuLoops {
  import opened MenuTree
  import opened Scaling
  import opened Resizes

  /** The buttons a loop has dealt with, followed by the rest of the sequence. */
  function Join(done: seq<(Button, Menu)>, rest: Menu): Menu {
    if done == [] then rest
    else Join(done[..|done| - 1], Node(done[|done| - 1].0, done[|done| - 1].1, rest))
  }

  lemma JoinStep(done: seq<(Button, Menu)>, b: Button, u: Menu, rest: Menu)
    ensures Join(done + [(b, u)], rest) == Join(done, Node(b, u, rest))
  {
    assert (done + [(b, u)])[..|done|] == done;
  }

  /** `movebm`. */
  method MoveMenu(bm: Menu, dx: int, dy: int, o: Area) returns (r: Menu)
    ensures r == Move(bm, dx, dy, o)
    decreases bm
  {
    if bm.Nil? { return Nil; }
    var cx, cy := dx, dy;
    if cx < o.x - bm.b.rect.h.at { cx := o.x - bm.b.rect.h.at; }
    if cy < o.y - bm.b.rect.v.at { cy := o.y - bm.b.rect.v.at; }
    var b, done := bm, [];
    while b.Node?
      invariant b == bm || b < bm
      invariant Join(done, MoveRun(b, cx, cy, o)) == MoveRun(bm, cx, cy, o)
      decreases b
    {
      var u := MoveMenu(b.u, cx, cy, o);
      JoinStep(done, b.b.(rect := b.b.rect.Shift(cx, cy)), u, MoveRun(b.next, cx, cy, o));
      done := done + [(b.b.(rect := b.b.rect.Shift(cx, cy)), u)];
      b := b.next;
    }
    r := Join(done, Nil);
  }

  method MoveAlong(bm: Menu, ax: Axis, d: int, o: Area) returns (r: Menu)
    ensures r == MoveOn(bm, ax, d, o)
  {
    if ax.H? { r := MoveMenu(bm, d, 0, o); } else { r := MoveMenu(bm, 0, d, o); }
  }

  /** `scalebmw` and `scalebmh`. */
  method ScaleMenu(bm: Menu, ax: Axis, num: int, den: int, o: Area) returns (r: Menu)
    requires ScaleSafe(bm, ax, den)
    ensures r == Scale(bm, ax, num, den, o)
    decreases Size(bm), 1
  {
    if bm.Nil? || bm.b.free { return bm; }
    if bm.b.Runs(ax) {
      r := ScaleAlong(bm, ax, num, den, o);
    } else {
      r := ScaleAcross(bm, ax, num, den, o);
    }
  }

  /** What scaling along a sequence does to its first button. */
  lemma AlongFirst(b: Menu, ax: Axis, at: int, start: int, sum: int, w: int, num: int, den: int, o: Area)
    requires b.Node? && den != 0 && RunSafe(b, ax) && w == NewLen(sum + b.b.On(ax).len, at, start, num, den)
    ensures var s := b.b.On(ax);
            && ScaleSafe(MoveOn(b.u, ax, at - s.at, o), ax, s.len)
            && ScaleRun(b, ax, at, start, sum, num, den, o)
               == Node(b.b.WithSpan(ax, Span(at, w)), Scale(MoveOn(b.u, ax, at - s.at, o), ax, w, s.len, o),
                       ScaleRun(b.next, ax, at + w, start, sum + s.len, num, den, o))
  {
    MoveOnKeepsSafe(b.u, ax, b.b.On(ax).len, at - b.b.On(ax).at, o);
  }

  method ScaleAlong(bm: Menu, ax: Axis, num: int, den: int, o: Area) returns (r: Menu)
    requires bm.Node? && den != 0 && RunSafe(bm, ax)
    ensures r == ScaleRun(bm, ax, bm.b.On(ax).at, bm.b.On(ax).at, 0, num, den, o)
    decreases Size(bm), 0
  {
    var at := bm.b.On(ax).at;
    var start, sum, b, done := at, 0, bm, [];
    ghost var all := ScaleRun(bm, ax, at, at, 0, num, den, o);
    while b.Node?
      invariant RunSafe(b, ax) && Size(b) <= Size(bm)
      invariant Join(done, ScaleRun(b, ax, at, start, sum, num, den, o)) == all
      decreases b
    {
      var s := b.b.On(ax);
      var w := TDiv((sum + s.len) * num, den) - at + start;
      AlongFirst(b, ax, at, start, sum, w, num, den, o);
      sum := sum + s.len;
      var u := MoveAndScale(b.u, ax, at - s.at, w, s.len, o);
      JoinStep(done, b.b.WithSpan(ax, Span(at, w)), u, ScaleRun(b.next, ax, at + w, start, sum, num, den, o));
      done := done + [(b.b.WithSpan(ax, Span(at, w)), u)];
      at := at + w;
      b := b.next;
    }
    r := Join(done, Nil);
  }

  /** The submenu of a button that gets a new place and a new length. */
  method MoveAndScale(u: Menu, ax: Axis, d: int, num: int, den: int, o: Area) returns (r: Menu)
    requires ScaleSafe(u, ax, den) && ScaleSafe(MoveOn(u, ax, d, o), ax, den)
    ensures r == Scale(MoveOn(u, ax, d, o), ax, num, den, o)
    decreases Size(u), 2
  {
    r := MoveAlong(u, ax, d, o);
    r := ScaleMenu(r, ax, num, den, o);
  }

  method ScaleAcross(bm: Menu, ax: Axis, num: int, den: int, o: Area) returns (r: Menu)
    requires den != 0 && CrossSafe(bm, ax, den)
    ensures r == ScaleCross(bm, ax, num, den, o)
    decreases Size(bm), 0
  {
    var b, done := bm, [];
    while b.Node?
      invariant CrossSafe(b, ax, den) && Size(b) <= Size(bm)
      invariant Join(done, ScaleCross(b, ax, num, den, o)) == ScaleCross(bm, ax, num, den, o)
      decreases b
    {
      var s := b.b.On(ax);
      var b' := b.b.WithSpan(ax, Span(s.at, TDiv(s.len * num, den)));
      var u := ScaleMenu(b.u, ax, num, den, o);
      JoinStep(done, b', u, ScaleCross(b.next, ax, num, den, o));
      done := done + [(b', u)];
      b := b.next;
    }
    r := Join(done, Nil);
  }

  /** One round of the loop of `equispace`. */
  lemma SpaceStep(done: seq<(Button, Menu)>, b: Menu, ax: Axis, mark: nat -> int, i: nat, n: nat, o: Area)
    requires i < n && n - i <= Len(b) && SpaceSafe(b, n - i, ax)
    ensures b.Node?
    ensures var s, w := b.b.On(ax), mark(i + 1) - mark(i);
            && ScaleSafe(b.u, ax, s.len) && ScaleSafe(MoveOn(b.u, ax, mark(i) - s.at, o), ax, s.len)
            && Join(done + [(b.b.WithSpan(ax, Span(mark(i), w)),
                             Scale(MoveOn(b.u, ax, mark(i) - s.at, o), ax, w, s.len, o))],
                    SpaceRun(b.next, ax, mark, i + 1, n, o))
               == Join(done, SpaceRun(b, ax, mark, i, n, o))
  {
    var s, w := b.b.On(ax), mark(i + 1) - mark(i);
    MoveOnKeepsSafe(b.u, ax, s.len, mark(i) - s.at, o);
    JoinStep(done, b.b.WithSpan(ax, Span(mark(i), w)), Scale(MoveOn(b.u, ax, mark(i) - s.at, o), ax, w, s.len, o),
             SpaceRun(b.next, ax, mark, i + 1, n, o));
  }

  /** The loop of `equispace`, with the expression for the next boundary as `mark`. */
  method SpaceAlong(s: Menu, ax: Axis, mark: nat -> int, n: nat, o: Area) returns (r: Menu)
    requires n <= Len(s) && SpaceSafe(s, n, ax)
    ensures r == SpaceRun(s, ax, mark, 0, n, o)
  {
    ghost var all := SpaceRun(s, ax, mark, 0, n, o);
    var from, b, done, i := mark(0), s, [], 0;
    while i < n
      invariant 0 <= i <= n && n - i <= Len(b) && SpaceSafe(b, n - i, ax) && from == mark(i)
      invariant Join(done, SpaceRun(b, ax, mark, i, n, o)) == all
    {
      SpaceStep(done, b, ax, mark, i, n, o);
      var span, to := b.b.On(ax), mark(i + 1);
      var u := MoveAndScale(b.u, ax, from - span.at, to - from, span.len, o);
      done := done + [(b.b.WithSpan(ax, Span(from, to - from)), u)];
      from := to;
      b := b.next;
      i := i + 1;
    }
    r := Join(done, b);
  }

  /** `equispace` with the buttons already counted. */
  method SpaceButtons(s: Menu, n: nat, o: Area) returns (r: Menu)
    requires 2 <= n <= Len(s) && SpaceSafe(s, n, AxisOf(s.b))
    ensures r == Equispace(s, n, o)
  {
    var ax := AxisOf(s.b);
    r := SpaceAlong(s, ax, Marks(s.b.On(ax).at, SumLen(s, n, ax), n), n, o);
  }

  /** `bmcheck`: whether it returns without aborting. */
  method CheckMenu(bm: Menu, root: bool) returns (ok: bool)
    ensures ok == Check(bm, root)
    decreases bm
  {
    if bm.Nil? { return true; }
    if !bm.b.first || (root && !bm.b.ndiv) { return false; }
    ok := CheckMenu(bm.u, false);
    if !ok { return; }
    if !bm.b.hor && !bm.b.ver { return bm.next.Nil?; }
    if bm.next.Nil? { return false; }
    var ax := AxisOf(bm.b);
    var at, cross, b := bm.b.On(ax).End(), bm.b.On(ax.Other()), bm.next;
    while b.Node?
      invariant b < bm
      invariant CheckRest(bm.next, ax, bm.b.On(ax).End(), bm.b.On(ax.Other())) == CheckRest(b, ax, at, cross)
      decreases b
    {
      if b.b.On(ax.Other()) != cross || b.b.On(ax).at != at || b.b.first || b.b.ndiv ||
         b.b.Runs(ax.Other()) || !b.b.Runs(ax) {
        return false;
      }
      at := at + b.b.On(ax).len;
      var under := CheckMenu(b.u, false);
      if !under { return false; }
      b := b.next;
    }
    return true;
  }
}
