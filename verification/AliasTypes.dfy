/** Type aliases of the symbol parser (ups/ao_symparse.c): a type that is another type under a
  * new number is linked to it, and the definitions are copied over at the end.
  */
module AliasTypes {

  /** What a type is, once known. `Built(k)` stands for any definition made by the parser. */
  datatype Body = NoType | Void | Built(k: nat)

  /** A type record: a definition, or a link to the record it is the same as. */
  datatype Record = Def(body: Body) | SameAs(base: nat)

  type Store = map<nat, Record>

  // ---------------------------------------------------------------- chains

  ghost predicate Closed(s: Store) {
    forall x :: x in s && s[x].SameAs? ==> s[x].base in s
  }

  /** Every link leads to a lower rank. */
  ghost predicate Ranked(s: Store, rank: map<nat, nat>) {
    && Closed(s)
    && (forall x :: x in s ==> x in rank)
    && (forall x :: x in s && s[x].SameAs? ==> rank[s[x].base] < rank[x])
  }

  ghost predicate Acyclic(s: Store) {
    exists rank :: Ranked(s, rank)
  }

  /** The record reached after `n` links, stopping at a definition. */
  function Walk(s: Store, x: nat, n: nat): (y: nat)
    requires Closed(s) && x in s
    ensures y in s
    decreases n
  {
    if n == 0 || s[x].Def? then x else Walk(s, s[x].base, n - 1)
  }

  ghost function EndBy(s: Store, rank: map<nat, nat>, x: nat): (e: nat)
    requires Ranked(s, rank) && x in s
    ensures e in s && s[e].Def?
    decreases rank[x]
  {
    if s[x].Def? then x else EndBy(s, rank, s[x].base)
  }

  /** The definition at the end of the chain of `x`. */
  ghost function End(s: Store, x: nat): (e: nat)
    requires Acyclic(s) && x in s
    ensures e in s && s[e].Def?
  {
    var rank :| Ranked(s, rank);
    EndBy(s, rank, x)
  }

  ghost function Meaning(s: Store, x: nat): Body
    requires Acyclic(s) && x in s
  {
    s[End(s, x)].body
  }

  lemma {:induction false} EndBySame(s: Store, rank: map<nat, nat>, other: map<nat, nat>, x: nat)
    requires Ranked(s, rank) && Ranked(s, other) && x in s
    ensures EndBy(s, rank, x) == EndBy(s, other, x)
    decreases rank[x]
  {
    if s[x].SameAs? { EndBySame(s, rank, other, s[x].base); }
  }

  lemma EndIs(s: Store, rank: map<nat, nat>, x: nat)
    requires Ranked(s, rank) && x in s
    ensures End(s, x) == EndBy(s, rank, x)
  {
    var other :| Ranked(s, other) && End(s, x) == EndBy(s, other, x);
    EndBySame(s, rank, other, x);
  }

  /** A link leads to the same end. */
  lemma EndOfBase(s: Store, x: nat)
    requires Acyclic(s) && x in s
    ensures s[x].Def? ==> End(s, x) == x
    ensures s[x].SameAs? ==> s[x].base in s && End(s, x) == End(s, s[x].base)
  {
    var rank :| Ranked(s, rank);
    EndIs(s, rank, x);
    if s[x].SameAs? { EndIs(s, rank, s[x].base); }
  }

  lemma {:induction false} WalkDescends(s: Store, rank: map<nat, nat>, x: nat, n: nat)
    requires Ranked(s, rank) && x in s
    ensures rank[Walk(s, x, n)] <= rank[x]
    ensures n > 0 && s[x].SameAs? ==> rank[Walk(s, x, n)] < rank[x]
    decreases n
  {
    if n > 0 && s[x].SameAs? { WalkDescends(s, rank, s[x].base, n - 1); }
  }

  /** No chain of links comes back to where it started. */
  lemma NoCycle(s: Store, x: nat, n: nat)
    requires Acyclic(s) && x in s && s[x].SameAs? && n > 0
    ensures Walk(s, x, n) != x
  {
    var rank :| Ranked(s, rank);
    WalkDescends(s, rank, x, n);
  }

  // ---------------------------------------------------------------- linking

  /** Does the chain of `x` pass through `y`? */
  ghost predicate Through(s: Store, rank: map<nat, nat>, x: nat, y: nat)
    requires Ranked(s, rank) && x in s
    decreases rank[x]
  {
    x == y || (s[x].SameAs? && Through(s, rank, s[x].base, y))
  }

  lemma {:induction false} ThroughIsWalk(s: Store, rank: map<nat, nat>, x: nat, y: nat) returns (n: nat)
    requires Ranked(s, rank) && x in s && Through(s, rank, x, y)
    ensures Walk(s, x, n) == y
    decreases rank[x]
  {
    if x == y {
      n := 0;
    } else {
      var k := ThroughIsWalk(s, rank, s[x].base, y);
      n := k + 1;
    }
  }

  /** A rank for the store in which `x` links to `t`: what leads to `x` moves above `t`. */
  ghost function Raised(s: Store, rank: map<nat, nat>, x: nat, t: nat): (r: map<nat, nat>)
    requires Ranked(s, rank) && t in s
    ensures forall y :: y in s ==> y in r && r[y] == if Through(s, rank, y, x) then rank[y] + rank[t] + 1 else rank[y]
  {
    map y | y in s :: if Through(s, rank, y, x) then rank[y] + rank[t] + 1 else rank[y]
  }

  lemma LinkRanked(s: Store, rank: map<nat, nat>, x: nat, t: nat)
    requires Ranked(s, rank) && x in s && t in s && !Through(s, rank, t, x)
    ensures Ranked(s[x := SameAs(t)], Raised(s, rank, x, t))
  {
    var l, r := s[x := SameAs(t)], Raised(s, rank, x, t);
    forall y | y in l && l[y].SameAs?
      ensures r[l[y].base] < r[y]
    {
      if y == x {
        assert Through(s, rank, x, x);
      } else {
        assert Through(s, rank, y, x) == Through(s, rank, s[y].base, x);
      }
    }
  }

  lemma {:induction false} WalkInLinked(s: Store, x: nat, t: nat, y: nat, n: nat)
    requires Closed(s) && x in s && t in s && y in s && Closed(s[x := SameAs(t)])
    requires Walk(s, y, n) == x && forall k: nat :: k < n ==> Walk(s, y, k) != x
    ensures Walk(s[x := SameAs(t)], y, n) == x
    decreases n
  {
    if n > 0 {
      assert Walk(s, y, 0) != x;
      assert s[y].SameAs?;
      forall k: nat | k < n - 1 ensures Walk(s, s[y].base, k) != x {
        assert Walk(s, y, k + 1) == Walk(s, s[y].base, k);
      }
      WalkInLinked(s, x, t, s[y].base, n - 1);
    }
  }

  lemma {:induction false} FirstHit(s: Store, x: nat, y: nat, n: nat) returns (m: nat)
    requires Closed(s) && y in s && Walk(s, y, n) == x
    ensures m <= n && Walk(s, y, m) == x && forall k: nat :: k < m ==> Walk(s, y, k) != x
    decreases n
  {
    if k: nat :| k < n && Walk(s, y, k) == x {
      m := FirstHit(s, x, y, k);
    } else {
      m := n;
    }
  }

  /** Linking `x` to `t` makes a cycle exactly when the chain of `t` passes through `x`. */
  lemma LinkAcyclic(s: Store, x: nat, t: nat)
    requires Acyclic(s) && x in s && t in s
    ensures Acyclic(s[x := SameAs(t)]) <==> forall n: nat :: Walk(s, t, n) != x
  {
    var rank :| Ranked(s, rank);
    if Through(s, rank, t, x) {
      var n := ThroughIsWalk(s, rank, t, x);
      var l := s[x := SameAs(t)];
      var m := FirstHit(s, x, t, n);
      WalkInLinked(s, x, t, t, m);
      assert Walk(l, x, m + 1) == x;
      if Acyclic(l) { NoCycle(l, x, m + 1); }
    } else {
      LinkRanked(s, rank, x, t);
      forall n: nat ensures Walk(s, t, n) != x { NotThrough(s, rank, t, x, n); }
    }
  }

  lemma {:induction false} NotThrough(s: Store, rank: map<nat, nat>, x: nat, y: nat, n: nat)
    requires Ranked(s, rank) && x in s && !Through(s, rank, x, y)
    ensures Walk(s, x, n) != y
    decreases n
  {
    if n > 0 && s[x].SameAs? { NotThrough(s, rank, s[x].base, y, n - 1); }
  }

  /** What the parser does with a type defined as another. */
  datatype Outcome = Linked(store: Store) | Panic

  /** `TypeId` chases `t`; a type defined as itself is void; anything else becomes a link to a chain end. */
  ghost function Link(s: Store, x: nat, t: nat): Outcome
    requires Acyclic(s) && x in s && t in s
  {
    var e := End(s, t);
    if e != x then Linked(s[x := SameAs(e)])
    else if s[x] != Def(NoType) then Panic
    else Linked(s[x := Def(Void)])
  }

  /** A link to a chain end makes no cycle. */
  lemma JoinAcyclic(s: Store, x: nat, e: nat)
    requires Acyclic(s) && x in s && e in s && s[e].Def? && e != x
    ensures Acyclic(s[x := SameAs(e)]) && End(s[x := SameAs(e)], x) == e && End(s[x := SameAs(e)], e) == e
  {
    assert forall n: nat :: Walk(s, e, n) == e;
    LinkAcyclic(s, x, e);
    EndOfBase(s[x := SameAs(e)], x);
    EndOfBase(s[x := SameAs(e)], e);
  }

  lemma {:induction false} JoinedEnd(s: Store, rank: map<nat, nat>, x: nat, e: nat, y: nat)
    requires Ranked(s, rank) && x in s && s[x].Def? && e in s && s[e].Def? && e != x && y in s
    requires Acyclic(s[x := SameAs(e)]) && End(s[x := SameAs(e)], x) == e
    ensures End(s[x := SameAs(e)], y) == if EndBy(s, rank, y) == x then e else EndBy(s, rank, y)
    decreases rank[y]
  {
    EndOfBase(s[x := SameAs(e)], y);
    if s[y].SameAs? { JoinedEnd(s, rank, x, e, s[y].base); }
  }

  /** Linking one chain end to another unites their classes: every chain that ended at `x` ends at `e`,
    * and every other chain ends where it did.
    */
  lemma JoinUnites(s: Store, x: nat, e: nat)
    requires Acyclic(s) && x in s && s[x].Def? && e in s && s[e].Def? && e != x
    ensures Acyclic(s[x := SameAs(e)])
    ensures forall y :: y in s ==> End(s[x := SameAs(e)], y) == if End(s, y) == x then e else End(s, y)
  {
    var rank :| Ranked(s, rank);
    JoinAcyclic(s, x, e);
    forall y | y in s ensures End(s[x := SameAs(e)], y) == if End(s, y) == x then e else End(s, y) {
      JoinedEnd(s, rank, x, e, y);
      EndIs(s, rank, y);
    }
  }

  /** Filling in a definition changes no chain that does not pass through it. */
  lemma {:induction false} BuiltEnd(s: Store, rank: map<nat, nat>, x: nat, body: Body, y: nat)
    requires Ranked(s, rank) && x in s && y in s && Ranked(s[x := Def(body)], rank)
    ensures EndBy(s[x := Def(body)], rank, y) == if Through(s, rank, y, x) then x else EndBy(s, rank, y)
    decreases rank[y]
  {
    if s[y].SameAs? && y != x { BuiltEnd(s, rank, x, body, s[y].base); }
  }

  /** Does following links from `y` come to `x`? */
  ghost predicate Passes(s: Store, y: nat, x: nat)
    requires Closed(s) && y in s
  {
    exists n: nat :: Walk(s, y, n) == x
  }

  lemma PassesIff(s: Store, rank: map<nat, nat>, y: nat, x: nat)
    requires Ranked(s, rank) && y in s
    ensures Passes(s, y, x) <==> Through(s, rank, y, x)
  {
    if Through(s, rank, y, x) {
      var n := ThroughIsWalk(s, rank, y, x);
    } else {
      forall n: nat ensures Walk(s, y, n) != x { NotThrough(s, rank, y, x, n); }
    }
  }

  /** Filling in a definition gives it to every type whose chain passes through it, and changes no other meaning. */
  lemma BuiltMeaning(s: Store, x: nat, body: Body)
    requires Acyclic(s) && x in s
    ensures Acyclic(s[x := Def(body)])
    ensures forall y :: y in s ==> Meaning(s[x := Def(body)], y) == if Passes(s, y, x) then body else Meaning(s, y)
  {
    var rank :| Ranked(s, rank);
    var l := s[x := Def(body)];
    assert Ranked(l, rank);
    forall y | y in s ensures Meaning(l, y) == if Passes(s, y, x) then body else Meaning(s, y) {
      BuiltEnd(s, rank, x, body, y);
      EndIs(s, rank, y);
      EndIs(l, rank, y);
      PassesIff(s, rank, y, x);
      EndAvoids(s, rank, y, x);
    }
  }

  lemma {:induction false} EndAvoids(s: Store, rank: map<nat, nat>, y: nat, x: nat)
    requires Ranked(s, rank) && y in s && x in s
    ensures !Through(s, rank, y, x) ==> EndBy(s, rank, y) != x
    decreases rank[y]
  {
    if s[y].SameAs? { EndAvoids(s, rank, s[y].base, x); }
  }

  /** A new record is on no chain. */
  lemma AddedMeaning(s: Store, x: nat, body: Body)
    requires Acyclic(s) && x !in s
    ensures Acyclic(s[x := Def(body)])
    ensures forall y :: y in s ==> Meaning(s[x := Def(body)], y) == Meaning(s, y)
  {
    var rank :| Ranked(s, rank);
    var l, other := s[x := Def(body)], rank[x := 0];
    assert Ranked(l, other);
    forall y | y in s ensures Meaning(l, y) == Meaning(s, y) {
      AddedEnd(s, rank, l, other, y);
      EndIs(s, rank, y);
      EndIs(l, other, y);
    }
  }

  lemma {:induction false} AddedEnd(s: Store, rank: map<nat, nat>, l: Store, other: map<nat, nat>, y: nat)
    requires Ranked(s, rank) && Ranked(l, other) && y in s && forall z :: z in s ==> z in l && l[z] == s[z]
    ensures EndBy(l, other, y) == EndBy(s, rank, y)
    decreases rank[y]
  {
    if s[y].SameAs? { AddedEnd(s, rank, l, other, s[y].base); }
  }

  lemma {:induction false} RelinkedEnd(s: Store, rank: map<nat, nat>, x: nat, e: nat, y: nat)
    requires Ranked(s, rank) && x in s && e in s && s[e].Def? && e != x && y in s
    requires Acyclic(s[x := SameAs(e)]) && End(s[x := SameAs(e)], x) == e
    ensures End(s[x := SameAs(e)], y) == if Through(s, rank, y, x) then e else EndBy(s, rank, y)
    decreases rank[y]
  {
    EndOfBase(s[x := SameAs(e)], y);
    if s[y].SameAs? && y != x { RelinkedEnd(s, rank, x, e, s[y].base); }
  }

  /** Linking a type, an alias already or not, to a chain end gives the meaning of the end to every type whose chain
    * passes through it, and changes no other meaning.
    */
  lemma RelinkedMeaning(s: Store, x: nat, e: nat)
    requires Acyclic(s) && x in s && e in s && s[e].Def? && e != x
    ensures Acyclic(s[x := SameAs(e)])
    ensures forall y :: y in s ==> Meaning(s[x := SameAs(e)], y) == if Passes(s, y, x) then s[e].body else Meaning(s, y)
  {
    JoinAcyclic(s, x, e);
    var rank :| Ranked(s, rank);
    var l := s[x := SameAs(e)];
    forall y | y in s ensures Meaning(l, y) == if Passes(s, y, x) then s[e].body else Meaning(s, y) {
      RelinkedEnd(s, rank, x, e, y);
      EndIs(s, rank, y);
      PassesIff(s, rank, y, x);
      EndAvoids(s, rank, y, x);
    }
  }

  /** Defining a type again, an alias or not, never makes a cycle: every type whose chain passes through it gets the
    * meaning of its target, or void when it is its own target, and every other type keeps its meaning. The panic needs
    * a type that has a definition of its own and is then defined as itself.
    */
  lemma LinkKeepsAcyclic(s: Store, x: nat, t: nat)
    requires Acyclic(s) && x in s && t in s
    ensures Link(s, x, t).Panic? <==> s[x].Def? && s[x].body != NoType && End(s, t) == x
    ensures Link(s, x, t).Linked? ==>
              var l, given := Link(s, x, t).store, if End(s, t) == x then Void else Meaning(s, t);
              && l.Keys == s.Keys && Acyclic(l)
              && (forall y :: y in s ==> Meaning(l, y) == if Passes(s, y, x) then given else Meaning(s, y))
    ensures Link(s, x, t).Linked? ==>
              Passes(s, x, x) && Meaning(Link(s, x, t).store, x) == if End(s, t) == x then Void else Meaning(s, t)
  {
    var e := End(s, t);
    var rank :| Ranked(s, rank);
    PassesIff(s, rank, x, x);
    if e != x {
      RelinkedMeaning(s, x, e);
    } else if s[x] == Def(NoType) {
      BuiltMeaning(s, x, Void);
    }
  }

  // ---------------------------------------------------------------- patching

  /** Every alias among `ids` replaced by the definition at the end of its chain. */
  ghost function Patched(s: Store, ids: set<nat>): (p: Store)
    requires Acyclic(s)
    ensures p.Keys == s.Keys
  {
    map x | x in s :: if x in ids && s[x].SameAs? then s[End(s, x)] else s[x]
  }

  lemma {:induction false} PatchedEnd(s: Store, ids: set<nat>, rank: map<nat, nat>, x: nat)
    requires Ranked(s, rank) && x in s && Ranked(Patched(s, ids), rank)
    ensures Patched(s, ids)[EndBy(Patched(s, ids), rank, x)] == s[EndBy(s, rank, x)]
    decreases rank[x]
  {
    EndIs(s, rank, x);
    if s[x].SameAs? && x !in ids { PatchedEnd(s, ids, rank, s[x].base); }
  }

  lemma PatchedAcyclic(s: Store, ids: set<nat>)
    requires Acyclic(s)
    ensures Acyclic(Patched(s, ids))
  {
    var rank :| Ranked(s, rank);
    assert Ranked(Patched(s, ids), rank);
  }

  /** Patching changes what no type means. */
  lemma PatchedMeaning(s: Store, ids: set<nat>, x: nat)
    requires Acyclic(s) && x in s
    ensures Acyclic(Patched(s, ids)) && Meaning(Patched(s, ids), x) == Meaning(s, x)
  {
    var rank :| Ranked(s, rank);
    var p := Patched(s, ids);
    assert Ranked(p, rank);
    PatchedEnd(s, ids, rank, x);
    EndIs(s, rank, x);
    EndIs(p, rank, x);
  }

  /** Patching more of a partly patched store is patching the whole at once. */
  lemma PatchedTwice(s: Store, ids: set<nat>, more: set<nat>)
    requires Acyclic(s)
    ensures Acyclic(Patched(s, ids)) && Patched(Patched(s, ids), more) == Patched(s, ids + more)
  {
    PatchedAcyclic(s, ids);
    var p := Patched(s, ids);
    var q, r := Patched(p, more), Patched(s, ids + more);
    forall x | x in s ensures q[x] == r[x] {
      PatchedMeaning(s, ids, x);
      PatchedAt(s, ids, p, more, x);
    }
  }

  lemma PatchedAt(s: Store, ids: set<nat>, p: Store, more: set<nat>, x: nat)
    requires Acyclic(s) && Acyclic(p) && p == Patched(s, ids) && x in s
    requires Meaning(p, x) == Meaning(s, x)
    ensures Patched(p, more)[x] == Patched(s, ids + more)[x]
  {
    var e, d := End(p, x), End(s, x);
    assert p[e] == s[d];
  }

  function SetOf(s: seq<nat>): set<nat> { set x | x in s }

  lemma NothingPatched(s: Store, list: seq<nat>)
    requires Acyclic(s)
    ensures Patched(s, SetOf(list[..0])) == s && Patched(s, {}) == s
  {
  }

  lemma PatchedDefs(s: Store, ids: set<nat>)
    requires Acyclic(s) && ids <= s.Keys
    ensures forall x :: x in ids ==> Patched(s, ids)[x] == Def(Meaning(s, x))
    ensures forall x :: x in s && x !in ids ==> Patched(s, ids)[x] == s[x]
  {
    forall x | x in ids ensures Patched(s, ids)[x] == Def(Meaning(s, x)) { EndOfBase(s, x); }
  }

  // ---------------------------------------------------------------- the parser's types

  /** The type records of a symbol table: `lists[k]` is the type list of file `k`, in its order, and
    * `needPatch[k]` its STF_NEED_PATCH flag. A record may be on no list.
    */
  class Parser {
    var types: Store
    var lists: seq<seq<nat>>
    var needPatch: seq<bool>

    /** A list with an alias on it is flagged. */
    ghost predicate Valid()
      reads this
    {
      && Acyclic(types) && |needPatch| == |lists|
      && (forall k, x :: 0 <= k < |lists| && x in lists[k] ==> x in types)
      && (forall k, x :: 0 <= k < |lists| && x in lists[k] && types[x].SameAs? ==> needPatch[k])
    }

    constructor (files: nat)
      ensures Valid() && types == map[] && |lists| == files && forall k :: 0 <= k < files ==> lists[k] == []
    {
      types := map[];
      lists := seq(files, _ => []);
      needPatch := seq(files, _ => false);
      new;
      assert Ranked(types, map[]);
    }

    /** The loop that follows PI_SAME_AS links. */
    method Chase(x: nat) returns (e: nat)
      requires Valid() && x in types
      ensures e == End(types, x)
    {
      e := x;
      ghost var rank :| Ranked(types, rank);
      while types[e].SameAs?
        invariant e in types && End(types, e) == End(types, x)
        decreases rank[e]
      {
        EndOfBase(types, e);
        e := types[e].base;
      }
      EndOfBase(types, e);
    }

    /** A record without a number, on no list. */
    method NewLoose(x: nat, body: Body)
      requires Valid() && x !in types
      modifies this`types
      ensures Valid() && types == old(types)[x := Def(body)]
      ensures forall y :: y in old(types) ==> Meaning(types, y) == Meaning(old(types), y)
    {
      AddedMeaning(types, x, body);
      types := types[x := Def(body)];
    }

    /** A record put at position `at` of the type list of file `k`. */
    method NewListed(x: nat, k: nat, at: nat)
      requires Valid() && x !in types && k < |lists| && at <= |lists[k]|
      modifies this`types, this`lists
      ensures Valid() && types == old(types)[x := Def(NoType)]
      ensures lists == old(lists)[k := old(lists)[k][..at] + [x] + old(lists)[k][at..]]
      ensures forall y :: y in old(types) ==> Meaning(types, y) == Meaning(old(types), y)
    {
      NewLoose(x, NoType);
      lists := lists[k := lists[k][..at] + [x] + lists[k][at..]];
    }

    /** The parser fills in a definition. */
    method Build(x: nat, body: Body)
      requires Valid() && x in types
      modifies this`types
      ensures Valid() && types == old(types)[x := Def(body)]
      ensures forall y :: y in types ==>
                Meaning(types, y) == if Passes(old(types), y, x) then body else Meaning(old(types), y)
    {
      BuiltMeaning(types, x, body);
      types := types[x := Def(body)];
    }

    /** The numeric case of `TypeDef`: record `x`, of file `k` if it is on a list, is the same as `t`. */
    method Define(x: nat, t: nat, k: nat) returns (ok: bool)
      requires Valid() && x in types && t in types && k < |lists|
      requires forall j :: 0 <= j < |lists| && x in lists[j] ==> j == k
      modifies this`types, this`needPatch
      ensures Valid() && ok == Link(old(types), x, t).Linked?
      ensures types == if ok then Link(old(types), x, t).store else old(types)
    {
      LinkKeepsAcyclic(types, x, t);
      var e := Chase(t);
      if e == x {
        ok := types[x] == Def(NoType);
        if ok { types := types[x := Def(Void)]; }
      } else {
        ok := true;
        types := types[x := SameAs(e)];
        needPatch := needPatch[k := true];
      }
    }

    /** The body of the loop of `patch_ftypes`: an alias is overwritten in place. */
    method PatchRecord(x: nat)
      requires Valid() && x in types
      modifies this`types
      ensures Valid() && types == Patched(old(types), {x}) && types[x].Def?
    {
      ghost var s := types;
      PatchedAcyclic(s, {x});
      if types[x].SameAs? {
        EndOfBase(types, x);
        var e := Chase(types[x].base);
        types := types[x := types[e]];
      }
      assert types == Patched(s, {x});
    }

    /** `patch_ftypes`: the aliases of one list, in list order. */
    method Patch(k: nat)
      requires Valid() && k < |lists|
      modifies this`types, this`needPatch
      ensures Valid() && !needPatch[k]
      ensures types == Patched(old(types), SetOf(lists[k]))
      ensures forall j :: 0 <= j < |lists| && j != k ==> needPatch[j] == old(needPatch[j])
    {
      ghost var s, list := types, lists[k];
      if needPatch[k] {
        var i := 0;
        NothingPatched(s, list);
        while i < |lists[k]|
          invariant 0 <= i <= |list| && Valid() && needPatch == old(needPatch)
          invariant types == Patched(s, SetOf(list[..i]))
        {
          assert SetOf(list[..i]) + {list[i]} == SetOf(list[..i + 1]);
          PatchedTwice(s, SetOf(list[..i]), {list[i]});
          PatchRecord(lists[k][i]);
          i := i + 1;
        }
        assert list[..i] == list;
        PatchedDefs(s, SetOf(list));
        needPatch := needPatch[k := false];
      } else {
        assert types == Patched(s, SetOf(list));
      }
    }

    /** `wrapup_types`: afterwards every listed record holds its definition, which is what it always meant,
      * and records on no list are as they were.
      */
    method Wrapup()
      requires Valid()
      modifies this`types, this`needPatch
      ensures Valid() && types.Keys == old(types).Keys
      ensures forall k, x :: 0 <= k < |lists| && x in lists[k] ==> types[x] == Def(Meaning(old(types), x))
      ensures forall x :: x in types && (forall k :: 0 <= k < |lists| ==> x !in lists[k]) ==> types[x] == old(types)[x]
    {
      ghost var s := types;
      var i := 0;
      ghost var done: set<nat> := {};
      NothingPatched(s, []);
      while i < |lists|
        invariant 0 <= i <= |lists| && Valid()
        invariant types == Patched(s, done)
        invariant forall x :: x in done <==> exists k :: 0 <= k < i && x in lists[k]
      {
        PatchedTwice(s, done, SetOf(lists[i]));
        Patch(i);
        done := done + SetOf(lists[i]);
        i := i + 1;
      }
      PatchedDefs(s, done);
    }
  }
}
