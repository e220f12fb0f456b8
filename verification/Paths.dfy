/** Positions in the button tree and replacement of the part that starts there. */
module Paths {
  import opened MenuTree
  import opened Labels

  /** `Down` follows but_u, `Next` follows but_b. */
  datatype Step = Down | Next

  predicate Has(t: Menu, p: seq<Step>) {
    t.Node? && (p == [] || Has(if p[0].Down? then t.u else t.next, p[1..]))
  }

  function At(t: Menu, p: seq<Step>): (s: Menu)
    requires Has(t, p)
    ensures s.Node?
  {
    if p == [] then t else At(if p[0].Down? then t.u else t.next, p[1..])
  }

  function Put(t: Menu, p: seq<Step>, s: Menu): (r: Menu)
    requires Has(t, p) && s.Node?
    ensures r.Node?
  {
    if p == [] then s
    else if p[0].Down? then t.(u := Put(t.u, p[1..], s))
    else t.(next := Put(t.next, p[1..], s))
  }

  /** The place of what follows button `b` when the button itself is at `p`. */
  function Following(b: Button, p: Place): Place {
    if p.Top? then Top
    else
      var ax := if p.Rest? then p.ax else AxisOf(b);
      Rest(ax, Beyond(b.rect, ax, Space(p)))
  }

  function PlaceAt(t: Menu, p: seq<Step>, top: Place): Place
    requires Has(t, p)
  {
    if p == [] then top
    else if p[0].Down? then PlaceAt(t.u, p[1..], Under(t.b.rect))
    else PlaceAt(t.next, p[1..], Following(t.b, top))
  }

  lemma {:induction false} AtValid(t: Menu, p: seq<Step>, top: Place, o: Area)
    requires Valid(t, top, o) && Has(t, p)
    ensures Valid(At(t, p), PlaceAt(t, p, top), o)
  {
    if p != [] {
      if p[0].Down? {
        AtValid(t.u, p[1..], Under(t.b.rect), o);
      } else {
        AtValid(t.next, p[1..], Following(t.b, top), o);
      }
    }
  }

  lemma {:induction false} AtPut(t: Menu, p: seq<Step>, s: Menu)
    requires Has(t, p) && s.Node?
    ensures Has(Put(t, p, s), p) && At(Put(t, p, s), p) == s
  {
    if p != [] { AtPut(if p[0].Down? then t.u else t.next, p[1..], s); }
  }

  /** Replacing a part keeps the tree valid exactly when the new part is valid there. */
  lemma {:induction false} PutValid(t: Menu, p: seq<Step>, s: Menu, top: Place, o: Area)
    requires Valid(t, top, o) && Has(t, p) && s.Node?
    ensures Valid(Put(t, p, s), top, o) <==> Valid(s, PlaceAt(t, p, top), o)
  {
    if p != [] {
      if p[0].Down? {
        PutValid(t.u, p[1..], s, Under(t.b.rect), o);
      } else {
        PutValid(t.next, p[1..], s, Following(t.b, top), o);
      }
    }
  }

  /** What was put somewhere is there, and putting back what was there restores the tree. */
  lemma {:induction false} PutTwice(t: Menu, p: seq<Step>, a: Menu, b: Menu)
    requires Has(t, p) && a.Node? && b.Node?
    ensures Has(Put(t, p, a), p) && At(Put(t, p, a), p) == a && Put(Put(t, p, a), p, b) == Put(t, p, b)
    ensures b == At(t, p) ==> Put(t, p, b) == t
  {
    if p != [] { PutTwice(if p[0].Down? then t.u else t.next, p[1..], a, b); }
  }

  lemma {:induction false} PutCount(t: Menu, p: seq<Step>, s: Menu, f: Label -> bool)
    requires Has(t, p) && s.Node?
    ensures Count(Put(t, p, s), f) + Count(At(t, p), f) == Count(t, f) + Count(s, f)
  {
    if p != [] {
      PutCount(if p[0].Down? then t.u else t.next, p[1..], s, f);
    }
  }
}
