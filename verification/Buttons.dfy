/** Buttons as linked objects, the way the C program holds them, and the abstraction to
  * the tree of module MenuTree.
  */
module Buttons {
  import opened MenuTree

  /** `struct butst`: `a` is the previous button or, for the first of a sequence, the button
    * above; `b` the next button; `u` the first button underneath.  The mark that is only used
    * while saving has a field of its own.
    */
  class Butst {
    var v: Button
    var brk: bool
    var a: Butst?
    var b: Butst?
    var u: Butst?

    constructor (v: Button)
      ensures this.v == v && !brk && a == null && b == null && u == null
    {
      this.v, brk, a, b, u := v, false, null, null, null;
    }
  }

  /** Which object stands where. */
  datatype Shape = Empty | Cell(obj: Butst, u: Shape, next: Shape)

  ghost function Head(s: Shape): Butst? { if s.Empty? then null else s.obj }

  ghost function Objs(s: Shape): set<Butst> {
    if s.Empty? then {} else {s.obj} + Objs(s.u) + Objs(s.next)
  }

  /** The objects of an allocated shape are allocated. */
  lemma {:induction false} Allocated(s: Shape)
    ensures forall x | x in Objs(s) :: allocated(x)
  {
    if s.Cell? {
      Allocated(s.u);
      Allocated(s.next);
    }
  }

  /** No object stands in two places. */
  ghost predicate Distinct(s: Shape) {
    s.Empty? ||
    (s.obj !in Objs(s.u) + Objs(s.next) && Objs(s.u) !! Objs(s.next) && Distinct(s.u) && Distinct(s.next))
  }

  /** The forward links agree with the shape. */
  ghost predicate Linked(s: Shape)
    reads Objs(s)`b, Objs(s)`u
  {
    s.Empty? || (s.obj.b == Head(s.next) && s.obj.u == Head(s.u) && Linked(s.u) && Linked(s.next))
  }

  /** The back links agree with the shape; `a` is what stands before it. */
  ghost predicate BackLinked(s: Shape, a: Butst?)
    reads Objs(s)`a
  {
    s.Empty? || (s.obj.a == a && BackLinked(s.u, s.obj) && BackLinked(s.next, s.obj))
  }

  /** The tree of values. */
  ghost function View(s: Shape): (m: Menu)
    reads Objs(s)`v
    ensures m.Nil? == s.Empty?
  {
    if s.Empty? then Nil else Node(s.obj.v, View(s.u), View(s.next))
  }

  ghost function SLen(s: Shape): nat { if s.Empty? then 0 else 1 + SLen(s.next) }

  ghost function SSize(s: Shape): nat { if s.Empty? then 0 else 1 + SSize(s.u) + SSize(s.next) }

  ghost function SDrop(s: Shape, n: nat): (r: Shape)
    requires n <= SLen(s)
    ensures SLen(r) == SLen(s) - n
  {
    if n == 0 then s else SDrop(s.next, n - 1)
  }

  lemma {:induction false} ViewLen(s: Shape)
    ensures Len(View(s)) == SLen(s)
  {
    if s.Cell? { ViewLen(s.next); }
  }

  lemma {:induction false} ViewDrop(s: Shape, n: nat)
    requires n <= SLen(s)
    ensures Len(View(s)) == SLen(s) && View(SDrop(s, n)) == Drop(View(s), n)
  {
    ViewLen(s);
    if n > 0 { ViewDrop(s.next, n - 1); }
  }

  lemma {:induction false} DropShape(s: Shape, n: nat)
    requires n <= SLen(s) && Distinct(s)
    ensures Objs(SDrop(s, n)) <= Objs(s) && Distinct(SDrop(s, n)) && SSize(SDrop(s, n)) + n <= SSize(s)
    ensures Linked(s) ==> Linked(SDrop(s, n))
  {
    if n > 0 { DropShape(s.next, n - 1); }
  }

  /** The objects of the first `n` buttons of a sequence and of everything under them. */
  ghost function Foot(s: Shape, n: nat): set<Butst>
    requires n <= SLen(s)
  {
    if n == 0 then {} else {s.obj} + Objs(s.u) + Foot(s.next, n - 1)
  }

  lemma {:induction false} FootDrop(s: Shape, h: nat, n: nat)
    requires h <= n <= SLen(s) && Distinct(s)
    ensures Foot(s, h) + Foot(SDrop(s, h), n - h) == Foot(s, n) && Foot(s, n) <= Objs(s)
    ensures Foot(s, h) !! Objs(SDrop(s, h))
  {
    FootIn(s, n);
    FootSplit(s, h, n);
    if h > 0 {
      FootDrop(s.next, h - 1, n - 1);
      DropShape(s.next, h - 1);
    }
  }

  lemma {:induction false} FootSplit(s: Shape, h: nat, n: nat)
    requires h <= n <= SLen(s)
    ensures h <= SLen(s) && n - h <= SLen(SDrop(s, h)) && Foot(s, h) + Foot(SDrop(s, h), n - h) == Foot(s, n)
  {
    if h > 0 {
      FootSplit(s.next, h - 1, n - 1);
      Regroup({s.obj} + Objs(s.u), Foot(s.next, h - 1), Foot(SDrop(s, h), n - h));
    }
  }

  lemma Regroup<T>(a: set<T>, b: set<T>, c: set<T>)
    ensures (a + b) + c == a + (b + c)
  {
  }

  lemma {:induction false} FootIn(s: Shape, n: nat)
    requires n <= SLen(s)
    ensures Foot(s, n) <= Objs(s)
  {
    if n > 0 { FootIn(s.next, n - 1); }
  }
}
