/** Cover and uncover on the links between buttons (med3/box.c: rectobut, med3/bmenu.c:
  * bmuncover), and that together they leave every link as it was.
  */
module Links {
  import opened MenuTree
  import opened Buttons

  /** `run` is linked forwards and backwards, comes after `before` and ends at `after`. */
  ghost predicate Run(run: seq<Butst>, before: Butst, after: Butst?)
    reads run
  {
    |run| > 0 && run[0].a == before && run[|run| - 1].b == after &&
    (forall i, j | 0 <= i < j < |run| :: run[i] != run[j]) &&
    (forall i {:trigger run[i].b} | 0 <= i < |run| - 1 :: run[i].b == run[i + 1]) &&
    (forall i {:trigger run[i].a} | 1 <= i < |run| :: run[i].a == run[i - 1])
  }

  /** What stands before a run points to it: the button above, or the previous button. */
  ghost predicate PointsTo(before: Butst, x: Butst)
    reads before, x
  {
    if x.v.first then before.u == x else before.b == x
  }

  ghost predicate Apart(run: seq<Butst>, before: Butst, after: Butst?) {
    before !in run && after !in run && before != after
  }

  ghost function Opt(x: Butst?): set<Butst> { if x == null then {} else {x} }

  /** `rectobut` for two or more buttons, from `first` up to but not including `last`: a new
    * button takes their place and they go underneath.
    */
  method CoverLinks(first: Butst, last: Butst?, blank: Button, ghost run: seq<Butst>, ghost end: Butst)
    returns (b: Butst)
    requires |run| >= 2 && run[0] == first && end == run[|run| - 1] && first.a != null && Run(run, first.a, last)
    requires Apart(run, first.a, last) && PointsTo(first.a, first) && (last != null ==> last.a == end)
    modifies first`a, first`v, first.a`u, first.a`b, end`b, Opt(last)`a
    ensures fresh(b) && b.a == old(first.a) && b.b == last && b.u == first
    ensures first.a == b && first.v == old(first.v).(first := true) && first.b == old(first.b)
    ensures end.b == null && (last != null ==> last.a == b)
    ensures b.a.u == (if old(first.v.first) then b else old(first.a.u))
    ensures b.a.b == (if old(first.v.first) then old(first.a.b) else b)
    ensures b.v == old(CoverValue(blank, first, last))
  {
    b := new Butst(CoverValue(blank, first, last));
    b.b := last;
    if last != null {
      last.a.b := null;
      last.a := b;
    }
    b.u := first;
    b.a := first.a;
    first.a := b;
    if first.v.first {
      b.a.u := b;
    } else {
      b.a.b := b;
    }
    first.v := first.v.(first := true);
  }

  /** The new button takes its direction from its neighbours in the sequence. */
  function CoverValue(blank: Button, first: Butst, last: Butst?): Button
    requires first.a != null
    reads first, first.a, if last == null then {} else {last}
  {
    var hor, ver := last != null && last.v.hor, last != null && last.v.ver;
    if first.v.first then blank.(hor := hor, ver := ver, first := true)
    else blank.(hor := hor || first.a.v.hor, ver := ver || first.a.v.ver, first := false)
  }

  /** The part of `bmuncover` that replaces the button by its submenu. */
  method UncoverLinks(cb: Butst, ghost run: seq<Butst>, ghost end: Butst)
    requires cb.u != null && |run| > 0 && run[0] == cb.u && end == run[|run| - 1] && cb.a != null && Run(run, cb, null)
    requires Apart(run, cb.a, cb.b) && cb !in run && cb != cb.a && cb != cb.b
    requires PointsTo(cb.a, cb) && (cb.b != null ==> cb.b.a == cb)
    modifies cb.u`a, cb.u`v, cb.a`u, cb.a`b, end`b, Opt(cb.b)`a
    ensures cb.u.a == cb.a && cb.u.v == old(cb.u.v).(first := cb.v.first) && (|run| > 1 ==> cb.u.b == old(cb.u.b))
    ensures end.b == cb.b && (cb.b != null ==> cb.b.a == end)
    ensures cb.a.u == (if cb.v.first then cb.u else old(cb.a.u))
    ensures cb.a.b == (if cb.v.first then old(cb.a.b) else cb.u)
  {
    var b := cb.u;
    b.a := cb.a;
    if cb.v.first {
      b.a.u := b;
      b.v := b.v.(first := true);
    } else {
      b.a.b := b;
      b.v := b.v.(first := false);
    }
    b := LastOf(b, run);
    b.b := cb.b;
    if b.b != null {
      b.b.a := b;
    }
  }

  method LastOf(x: Butst, ghost run: seq<Butst>) returns (b: Butst)
    requires |run| > 0 && run[0] == x && run[|run| - 1].b == null
    requires forall i {:trigger run[i].b} | 0 <= i < |run| - 1 :: run[i].b == run[i + 1]
    ensures b == run[|run| - 1]
  {
    b := x;
    ghost var i := 0;
    while b.b != null
      invariant 0 <= i < |run| && b == run[i]
      decreases |run| - i
    {
      b := b.b;
      i := i + 1;
    }
  }

  /** Covering part of a sequence and uncovering the new button again restores every link
    * and every flag of every button that was there before.
    */
  method CoverAndUncover(first: Butst, last: Butst?, blank: Button, ghost run: seq<Butst>, ghost end: Butst)
    requires |run| >= 2 && run[0] == first && end == run[|run| - 1] && first.a != null && Run(run, first.a, last)
    requires Apart(run, first.a, last) && PointsTo(first.a, first) && (last != null ==> last.a == end)
    modifies first`a, first`v, first.a`u, first.a`b, end`b, Opt(last)`a
    ensures forall y: Butst | old(allocated(y)) ::
              y.a == old(y.a) && y.b == old(y.b) && y.u == old(y.u) && y.v == old(y.v) && y.brk == old(y.brk)
  {
    var b := CoverLinks(first, last, blank, run, end);
    UncoverLinks(b, run, end);
  }
}
