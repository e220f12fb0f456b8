/** Cover and uncover on linked buttons do to the tree of values what module Edits says: the links are those of the new
  * shape, forwards and backwards, and its values are the covered or uncovered menu.
  */
module LinkShapes {
  import opened MenuTree
  import opened Buttons
  import opened Edits
  import opened Links

  // ---------------------------------------------------------------- sequences of objects

  /** The buttons of `run`, each with its submenu, followed by `rest`. */
  ghost function Chain(run: seq<Butst>, subs: seq<Shape>, rest: Shape): Shape
    requires |run| == |subs|
  {
    if run == [] then rest else Cell(run[0], subs[0], Chain(run[1..], subs[1..], rest))
  }

  /** No object of the sequence stands in a submenu, in the rest or twice. */
  ghost predicate Separate(run: seq<Butst>, subs: seq<Shape>, rest: Shape)
    requires |run| == |subs|
  {
    && (forall i, j :: 0 <= i < j < |run| ==> run[i] != run[j])
    && (forall i, j :: 0 <= i < |run| && 0 <= j < |subs| ==> run[i] !in Objs(subs[j]))
    && (forall i :: 0 <= i < |run| ==> run[i] !in Objs(rest))
    && (forall j :: 0 <= j < |subs| ==> Objs(subs[j]) !! Objs(rest))
  }

  /** What the objects of a chain are. */
  lemma {:induction false} ChainObjs(run: seq<Butst>, subs: seq<Shape>, rest: Shape)
    requires |run| == |subs|
    ensures forall i :: 0 <= i < |run| ==> run[i] in Objs(Chain(run, subs, rest))
    ensures forall i :: 0 <= i < |subs| ==> Objs(subs[i]) <= Objs(Chain(run, subs, rest))
    ensures Objs(rest) <= Objs(Chain(run, subs, rest))
    decreases |run|
  {
    if run != [] {
      ChainObjs(run[1..], subs[1..], rest);
      forall i | 0 <= i < |run| ensures run[i] in Objs(Chain(run, subs, rest)) {
        if i > 0 { assert run[i] == run[1..][i - 1]; }
      }
      forall i | 0 <= i < |subs| ensures Objs(subs[i]) <= Objs(Chain(run, subs, rest)) {
        if i > 0 { assert subs[i] == subs[1..][i - 1]; }
      }
    }
  }

  lemma {:induction false} ChainSeparate(run: seq<Butst>, subs: seq<Shape>, rest: Shape)
    requires |run| == |subs| && Distinct(Chain(run, subs, rest))
    ensures Separate(run, subs, rest) && Distinct(rest)
    decreases |run|
  {
    if run != [] {
      var tail := Chain(run[1..], subs[1..], rest);
      ChainSeparate(run[1..], subs[1..], rest);
      ChainObjs(run[1..], subs[1..], rest);
      assert forall i :: 1 <= i < |run| ==> run[i] == run[1..][i - 1] && subs[i] == subs[1..][i - 1];
      assert forall i :: 1 <= i < |run| ==> run[i] in Objs(tail) && Objs(subs[i]) <= Objs(tail);
    }
  }

  /** Cutting off the rest leaves the objects of the sequence. */
  lemma {:induction false} ChainDistinct(run: seq<Butst>, subs: seq<Shape>, rest: Shape)
    requires |run| == |subs| && Distinct(Chain(run, subs, rest))
    ensures Distinct(Chain(run, subs, Empty)) && Objs(Chain(run, subs, Empty)) !! Objs(rest)
    ensures Objs(Chain(run, subs, rest)) == Objs(Chain(run, subs, Empty)) + Objs(rest)
    decreases |run|
  {
    if run != [] {
      ChainDistinct(run[1..], subs[1..], rest);
      ChainObjs(run[1..], subs[1..], rest);
    }
  }

  // ---------------------------------------------------------------- links, object by object

  ghost function Elems(run: seq<Butst>): set<Butst> { set x | x in run }

  ghost predicate Forth(run: seq<Butst>, subs: seq<Shape>, after: Butst?)
    requires |run| == |subs|
    reads Elems(run)`b, Elems(run)`u
  {
    forall i {:trigger run[i].b} {:trigger run[i].u} | 0 <= i < |run| ::
      run[i].b == (if i + 1 < |run| then run[i + 1] else after) && run[i].u == Head(subs[i])
  }

  ghost predicate Back(run: seq<Butst>, before: Butst?)
    reads Elems(run)`a
  {
    forall i {:trigger run[i].a} | 0 <= i < |run| :: run[i].a == if i == 0 then before else run[i - 1]
  }

  lemma ForthTail(run: seq<Butst>, subs: seq<Shape>, after: Butst?)
    requires |run| == |subs| > 0 && Forth(run, subs, after)
    ensures run[0].b == (if |run| > 1 then run[1] else after) && run[0].u == Head(subs[0])
    ensures Forth(run[1..], subs[1..], after)
  {
    var r, u := run[1..], subs[1..];
    forall i | 0 <= i < |r| ensures r[i].b == (if i + 1 < |r| then r[i + 1] else after) && r[i].u == Head(u[i]) {
      assert r[i] == run[i + 1] && u[i] == subs[i + 1] && (i + 1 < |r| ==> r[i + 1] == run[i + 2]);
    }
  }

  lemma ForthCons(run: seq<Butst>, subs: seq<Shape>, after: Butst?)
    requires |run| == |subs| > 0 && Forth(run[1..], subs[1..], after)
    requires run[0].b == (if |run| > 1 then run[1] else after) && run[0].u == Head(subs[0])
    ensures Forth(run, subs, after)
  {
    var r, u := run[1..], subs[1..];
    forall i | 0 <= i < |run|
      ensures run[i].b == (if i + 1 < |run| then run[i + 1] else after) && run[i].u == Head(subs[i])
    {
      if i > 0 { assert run[i] == r[i - 1] && subs[i] == u[i - 1] && r[i - 1].b == if i < |r| then r[i] else after; }
    }
  }

  lemma ForthStep(run: seq<Butst>, subs: seq<Shape>, after: Butst?)
    requires |run| == |subs| > 0
    ensures Forth(run, subs, after) <==>
              && run[0].b == (if |run| > 1 then run[1] else after) && run[0].u == Head(subs[0])
              && Forth(run[1..], subs[1..], after)
  {
    if Forth(run, subs, after) {
      ForthTail(run, subs, after);
    } else if run[0].b == (if |run| > 1 then run[1] else after) && run[0].u == Head(subs[0])
      && Forth(run[1..], subs[1..], after) {
      ForthCons(run, subs, after);
    }
  }

  lemma BackStep(run: seq<Butst>, before: Butst?)
    requires run != []
    ensures Back(run, before) <==> run[0].a == before && Back(run[1..], run[0])
  {
    var r := run[1..];
    assert forall i :: 0 <= i < |r| ==> r[i] == run[i + 1];
    if Back(run, before) {
      forall i | 0 <= i < |r| ensures r[i].a == if i == 0 then run[0] else r[i - 1] {
        assert run[i + 1].a == run[i];
      }
      assert run[0].a == before;
    }
    if run[0].a == before && Back(r, run[0]) {
      forall i | 0 <= i < |run| ensures run[i].a == if i == 0 then before else run[i - 1] {
        if i > 0 { assert run[i] == r[i - 1] && r[i - 1].a == if i == 1 then run[0] else r[i - 2]; }
      }
    }
  }

  lemma {:induction false} LinkedChain(run: seq<Butst>, subs: seq<Shape>, rest: Shape)
    requires |run| == |subs|
    ensures Linked(Chain(run, subs, rest)) <==>
              Forth(run, subs, Head(rest)) && Linked(rest) && forall i :: 0 <= i < |subs| ==> Linked(subs[i])
    decreases |run|
  {
    if run != [] {
      var r, u := run[1..], subs[1..];
      LinkedChain(r, u, rest);
      ForthStep(run, subs, Head(rest));
      assert forall i :: 1 <= i < |subs| ==> subs[i] == u[i - 1];
      assert forall i :: 0 <= i < |u| ==> u[i] == subs[i + 1];
      assert Head(Chain(r, u, rest)) == if r == [] then Head(rest) else run[1];
    }
  }

  ghost function LastOr(run: seq<Butst>, before: Butst?): Butst? { if run == [] then before else run[|run| - 1] }

  lemma {:induction false} BackLinkedChain(run: seq<Butst>, subs: seq<Shape>, rest: Shape, before: Butst?)
    requires |run| == |subs|
    ensures BackLinked(Chain(run, subs, rest), before) <==>
              && Back(run, before) && BackLinked(rest, LastOr(run, before))
              && forall i :: 0 <= i < |subs| ==> BackLinked(subs[i], run[i])
    decreases |run|
  {
    if run != [] {
      var r, u := run[1..], subs[1..];
      BackLinkedChain(r, u, rest, run[0]);
      BackStep(run, before);
      assert forall i :: 1 <= i < |run| ==> run[i] == r[i - 1] && subs[i] == u[i - 1];
      assert forall i :: 0 <= i < |r| ==> r[i] == run[i + 1] && u[i] == subs[i + 1];
    }
  }

  lemma {:induction false} ViewChain(run: seq<Butst>, subs: seq<Shape>, rest: Shape)
    requires |run| == |subs|
    ensures var m := View(Chain(run, subs, rest));
            && |run| <= Len(m) && Take(m, |run|) == View(Chain(run, subs, Empty)) && Drop(m, |run|) == View(rest)
    decreases |run|
  {
    if run != [] { ViewChain(run[1..], subs[1..], rest); }
  }

  // ---------------------------------------------------------------- cover

  /** A linked sequence with what stands before and after it, as module Links takes it. */
  lemma ChainIsRun(run: seq<Butst>, subs: seq<Shape>, rest: Shape, before: Butst)
    requires |run| == |subs| > 0 && Distinct(Chain(run, subs, rest)) && before !in Objs(Chain(run, subs, rest))
    requires Linked(Chain(run, subs, rest)) && BackLinked(Chain(run, subs, rest), before)
    ensures Run(run, before, Head(rest)) && Apart(run, before, Head(rest)) && Separate(run, subs, rest)
    ensures rest.Cell? ==> rest.obj.a == run[|run| - 1]
    ensures before !in Objs(rest) && forall i :: 0 <= i < |subs| ==> before !in Objs(subs[i])
  {
    ChainSeparate(run, subs, rest);
    ChainObjs(run, subs, rest);
    LinkedChain(run, subs, rest);
    BackLinkedChain(run, subs, rest, before);
  }

  /** The values of a covered sequence: the first button is marked as one, the others are as they were. */
  lemma CoveredView(first: Button, u: Menu, tail: Menu, rest: Menu, m: Menu, b: Button, n: nat, rv: nat)
    requires 2 <= n <= Len(m) && m.Node? && m.b == first && Take(m, n) == Node(first, u, tail) && Drop(m, n) == rest
    requires b == Cover(m, n, rv).b
    ensures Node(b, Node(first.(first := true), u, tail), rest) == Cover(m, n, rv)
  {
  }

  /** The direction of the new button is the one module Edits gives it. */
  lemma CoverDirection(m: Menu, n: nat, rv: nat, before: Button, b: Button)
    requires 2 <= n <= Len(m) && (!m.b.first ==> before.hor == m.b.hor && before.ver == m.b.ver)
    requires var blank, rest := Blank(Cover(m, n, rv).b.rect, rv), Drop(m, n);
             var hor, ver := rest.Node? && rest.b.hor, rest.Node? && rest.b.ver;
             b == if m.b.first then blank.(hor := hor, ver := ver, first := true)
                  else blank.(hor := hor || before.hor, ver := ver || before.ver, first := false)
    ensures b == Cover(m, n, rv).b
  {
  }

  /** The parts of a sequence are linked, forwards and backwards. */
  ghost predicate PartsLinked(run: seq<Butst>, subs: seq<Shape>, rest: Shape)
    requires |run| == |subs|
    reads set i, x | 0 <= i < |subs| && x in Objs(subs[i]) :: x
    reads Objs(rest)
  {
    Linked(rest) && forall i :: 0 <= i < |subs| ==> Linked(subs[i]) && BackLinked(subs[i], run[i])
  }

  /** What stands after a sequence may get another predecessor. */
  ghost predicate RestLinked(rest: Shape)
    reads Objs(rest)`a
  {
    rest.Cell? ==> BackLinked(rest.u, rest.obj) && BackLinked(rest.next, rest.obj)
  }

  /** The links that covering rewrites are none of those inside the parts. */
  method CoverParts(first: Butst, last: Butst?, blank: Button, ghost run: seq<Butst>, ghost subs: seq<Shape>,
                    ghost rest: Shape, ghost end: Butst, ghost tail: Shape)
    returns (b: Butst)
    requires |run| == |subs| >= 2 && run[0] == first && end == run[|run| - 1] && Head(rest) == last && first.a != null
    requires Run(run, first.a, last) && Apart(run, first.a, last) && Separate(run, subs, rest)
    requires PointsTo(first.a, first)
    requires (rest.Cell? ==> rest.obj.a == end) && Distinct(rest)
    requires first.a !in Objs(rest) && forall i :: 0 <= i < |subs| ==> first.a !in Objs(subs[i])
    requires Forth(run, subs, last) && PartsLinked(run, subs, rest) && RestLinked(rest) && first !in Objs(tail)
    modifies first`a, first`v, first.a`u, first.a`b, end`b, Opt(last)`a
    ensures fresh(b) && b.a == old(first.a) && b.u == first && b.b == last && b.v == old(CoverValue(blank, first, last))
    ensures first.v == old(first.v).(first := true) && (rest.Cell? ==> rest.obj.a == b)
    ensures Forth(run, subs, null) && Back(run, b) && PartsLinked(run, subs, rest) && RestLinked(rest)
    ensures View(subs[0]) == old(View(subs[0])) && View(rest) == old(View(rest)) && View(tail) == old(View(tail))
  {
    Allocated(rest);
    Allocated(tail);
    forall i | 0 <= i < |subs| ensures forall x | x in Objs(subs[i]) :: allocated(x) { Allocated(subs[i]); }
    b := CoverLinks(first, last, blank, run, end);
  }

  lemma CoverReady(run: seq<Butst>, subs: seq<Shape>, rest: Shape, before: Butst)
    requires |run| == |subs| > 0 && Distinct(Chain(run, subs, rest)) && before !in Objs(Chain(run, subs, rest))
    requires Linked(Chain(run, subs, rest)) && BackLinked(Chain(run, subs, rest), before)
    ensures Forth(run, subs, Head(rest)) && PartsLinked(run, subs, rest) && RestLinked(rest) && Distinct(rest)
    ensures run[0] !in Objs(Chain(run[1..], subs[1..], Empty))
  {
    ChainSeparate(run, subs, rest);
    LinkedChain(run, subs, rest);
    BackLinkedChain(run, subs, rest, before);
    ChainDistinct(run, subs, rest);
  }

  lemma CoverValues(run: seq<Butst>, subs: seq<Shape>, rest: Shape, before: Butst, m: Menu, b: Button, rv: nat)
    requires |run| == |subs| >= 2 && m == View(Chain(run, subs, rest)) && |run| <= Len(m)
    requires !m.b.first ==> before.v.hor == m.b.hor && before.v.ver == m.b.ver
    requires run[0].a == before && b == CoverValue(Blank(Cover(m, |run|, rv).b.rect, rv), run[0], Head(rest))
    ensures var tail := Chain(run[1..], subs[1..], Empty);
            Node(b, Node(run[0].v.(first := true), View(subs[0]), View(tail)), View(rest)) == Cover(m, |run|, rv)
  {
    ViewChain(run, subs, rest);
    CoverDirection(m, |run|, rv, before.v, b);
    CoveredView(run[0].v, View(subs[0]), View(Chain(run[1..], subs[1..], Empty)), View(rest), m, b, |run|, rv);
  }

  lemma CoverDone(b: Butst, run: seq<Butst>, subs: seq<Shape>, rest: Shape, before: Butst)
    requires |run| == |subs| > 0 && b.a == before && b.u == run[0] && b.b == Head(rest)
             && (rest.Cell? ==> rest.obj.a == b)
    requires Forth(run, subs, null) && Back(run, b) && PartsLinked(run, subs, rest) && RestLinked(rest)
    ensures var t := Cell(b, Chain(run, subs, Empty), rest);
            && Linked(t) && BackLinked(t, before)
            && View(t) == Node(b.v, Node(run[0].v, View(subs[0]), View(Chain(run[1..], subs[1..], Empty))), View(rest))
  {
    LinkedChain(run, subs, Empty);
    BackLinkedChain(run, subs, Empty, b);
  }

  /** `rectobut` on linked buttons: the links are those of the new shape, and its values are the covered menu. */
  method CoverShape(first: Butst, last: Butst?, blank: Button, ghost run: seq<Butst>, ghost subs: seq<Shape>,
                    ghost rest: Shape, ghost end: Butst, ghost m: Menu, ghost rv: nat)
    returns (b: Butst)
    requires |run| == |subs| >= 2 && run[0] == first && end == run[|run| - 1] && Head(rest) == last && first.a != null
    requires Distinct(Chain(run, subs, rest)) && first.a !in Objs(Chain(run, subs, rest)) && PointsTo(first.a, first)
    requires Linked(Chain(run, subs, rest)) && BackLinked(Chain(run, subs, rest), first.a)
    requires m == View(Chain(run, subs, rest)) && |run| <= Len(m) && blank == Blank(Cover(m, |run|, rv).b.rect, rv)
    requires !first.v.first ==> first.a.v.hor == first.v.hor && first.a.v.ver == first.v.ver
    modifies first`a, first`v, first.a`u, first.a`b, end`b, Opt(last)`a
    ensures fresh(b) && b.a == old(first.a) && b.u == first
    ensures var t := Cell(b, Chain(run, subs, Empty), rest);
            Linked(t) && BackLinked(t, old(first.a)) && View(t) == Cover(m, |run|, rv)
  {
    ghost var before := first.a;
    ChainIsRun(run, subs, rest, before);
    CoverReady(run, subs, rest, before);
    CoverValues(run, subs, rest, before, m, CoverValue(blank, first, last), rv);
    b := CoverParts(first, last, blank, run, subs, rest, end, Chain(run[1..], subs[1..], Empty));
    CoverDone(b, run, subs, rest, before);
  }

  // ---------------------------------------------------------------- uncover

  lemma {:induction false} ViewAppend(run: seq<Butst>, subs: seq<Shape>, rest: Shape)
    requires |run| == |subs|
    ensures View(Chain(run, subs, rest)) == Append(View(Chain(run, subs, Empty)), View(rest))
    decreases |run|
  {
    if run != [] { ViewAppend(run[1..], subs[1..], rest); }
  }

  /** The links that uncovering rewrites are none of those inside the parts. */
  method UncoverParts(cb: Butst, ghost run: seq<Butst>, ghost subs: seq<Shape>, ghost rest: Shape, ghost end: Butst,
                      ghost tail: Shape)
    requires |run| == |subs| > 0 && cb.u == run[0] && end == run[|run| - 1] && cb.b == Head(rest) && cb.a != null
    requires Run(run, cb, null) && Apart(run, cb.a, cb.b) && Separate(run, subs, rest) && PointsTo(cb.a, cb)
    requires cb !in run && cb != cb.a && cb != cb.b && (rest.Cell? ==> rest.obj.a == cb) && Distinct(rest)
    requires cb.a !in Objs(rest) && forall i :: 0 <= i < |subs| ==> cb.a !in Objs(subs[i])
    requires Forth(run, subs, null) && PartsLinked(run, subs, rest) && RestLinked(rest) && run[0] !in Objs(tail)
    modifies cb.u`a, cb.u`v, cb.a`u, cb.a`b, end`b, Opt(cb.b)`a
    ensures run[0].v == old(run[0].v).(first := old(cb.v.first)) && (rest.Cell? ==> rest.obj.a == end)
    ensures Forth(run, subs, Head(rest)) && Back(run, old(cb.a)) && PartsLinked(run, subs, rest) && RestLinked(rest)
    ensures View(subs[0]) == old(View(subs[0])) && View(tail) == old(View(tail))
  {
    Allocated(rest);
    Allocated(tail);
    forall i | 0 <= i < |subs| ensures forall x | x in Objs(subs[i]) :: allocated(x) { Allocated(subs[i]); }
    UncoverLinks(cb, run, end);
  }

  lemma UncoverReady(cb: Butst, run: seq<Butst>, subs: seq<Shape>, rest: Shape)
    requires |run| == |subs| > 0 && cb.a != null
    requires var t := Cell(cb, Chain(run, subs, Empty), rest);
             Distinct(t) && Linked(t) && BackLinked(t, cb.a) && cb.a !in Objs(t)
    ensures Run(run, cb, null) && Apart(run, cb.a, Head(rest)) && Separate(run, subs, rest)
    ensures cb !in run && cb != cb.a && cb != Head(rest) && (rest.Cell? ==> rest.obj.a == cb) && Distinct(rest)
    ensures cb.a !in Objs(rest) && forall i :: 0 <= i < |subs| ==> cb.a !in Objs(subs[i])
    ensures Forth(run, subs, null) && PartsLinked(run, subs, rest) && RestLinked(rest)
  {
    ChainIsRun(run, subs, Empty, cb);
    ChainObjs(run, subs, Empty);
    CoverReady(run, subs, Empty, cb);
  }

  lemma TailWithout(run: seq<Butst>, subs: seq<Shape>, rest: Shape)
    requires |run| == |subs| > 0 && Distinct(Chain(run, subs, Empty)) && run[0] !in Objs(rest)
    ensures run[0] !in Objs(Chain(run[1..], subs[1..], rest))
  {
    TailObjs(run[1..], subs[1..], rest);
  }

  lemma {:induction false} TailObjs(run: seq<Butst>, subs: seq<Shape>, rest: Shape)
    requires |run| == |subs|
    ensures Objs(Chain(run, subs, rest)) == Objs(Chain(run, subs, Empty)) + Objs(rest)
    decreases |run|
  {
    if run != [] { TailObjs(run[1..], subs[1..], rest); }
  }

  lemma UncoverDone(run: seq<Butst>, subs: seq<Shape>, rest: Shape, before: Butst)
    requires |run| == |subs| > 0 && (rest.Cell? ==> rest.obj.a == run[|run| - 1])
    requires Forth(run, subs, Head(rest)) && Back(run, before) && PartsLinked(run, subs, rest) && RestLinked(rest)
    ensures var s := Chain(run, subs, rest);
            Linked(s) && BackLinked(s, before)
            && View(s) == Node(run[0].v, View(subs[0]), View(Chain(run[1..], subs[1..], rest)))
  {
    LinkedChain(run, subs, rest);
    BackLinkedChain(run, subs, rest, before);
  }

  /** The deleting branch of `bmuncover` on linked buttons: the links are those of the sequence without the button, and
    * its values are the uncovered menu.
    */
  method UncoverShape(cb: Butst, ghost run: seq<Butst>, ghost subs: seq<Shape>, ghost rest: Shape, ghost end: Butst,
                      ghost m: Menu)
    requires |run| == |subs| > 0 && cb.u == run[0] && end == run[|run| - 1] && cb.b == Head(rest) && cb.a != null
    requires Distinct(Cell(cb, Chain(run, subs, Empty), rest)) && cb.a !in Objs(Cell(cb, Chain(run, subs, Empty), rest))
    requires Linked(Cell(cb, Chain(run, subs, Empty), rest))
    requires BackLinked(Cell(cb, Chain(run, subs, Empty), rest), cb.a)
    requires PointsTo(cb.a, cb) && m == View(Cell(cb, Chain(run, subs, Empty), rest)) && CanUncover(m)
    requires !(m.b.hor && m.u.b.ver) && !(m.b.ver && m.u.b.hor) && !m.b.ndiv
    modifies cb.u`a, cb.u`v, cb.a`u, cb.a`b, end`b, Opt(cb.b)`a
    ensures Linked(Chain(run, subs, rest)) && BackLinked(Chain(run, subs, rest), old(cb.a))
    ensures View(Chain(run, subs, rest)) == Uncover(m)
  {
    ghost var before, tail := cb.a, Chain(run[1..], subs[1..], rest);
    UncoverReady(cb, run, subs, rest);
    TailWithout(run, subs, rest);
    ViewAppend(run[1..], subs[1..], rest);
    assert Uncover(m) == Node(run[0].v.(first := cb.v.first), View(subs[0]), View(tail));
    UncoverParts(cb, run, subs, rest, end, tail);
    UncoverDone(run, subs, rest, before);
  }
}
