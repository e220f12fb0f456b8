/** The list of numbered types of a source file (ups/ao_symparse.c): kept in order, each entry either a
  * type or the position of the best definition seen so far.
  */
module TypeTable {
  import opened Wrappers

  datatype Info = Typed | At(undef: bool, maybeBetter: bool, symno: int, offset: int)

  datatype Ftype = Ftype(tnum: int, info: Info)

  /** What happens to type `t`: a definition is seen, its record is made, or the search for a better
    * definition has been done.
    */
  datatype Event = Note(t: int, symno: int, offset: int, undef: bool) | Insert(t: int) | Searched(t: int)

  // ---------------------------------------------------------------- the ordered list

  predicate Descending(list: seq<Ftype>) {
    forall i, j :: 0 <= i < j < |list| ==> list[i].tnum > list[j].tnum
  }

  ghost function Find(list: seq<Ftype>, t: int): Option<Info> {
    if i :| 0 <= i < |list| && list[i].tnum == t then Some(list[i].info) else None
  }

  /** `p` is where `t` is, or where it belongs. */
  predicate Place(list: seq<Ftype>, t: int, p: nat) {
    p <= |list| && (forall i :: 0 <= i < p ==> list[i].tnum > t) && (p < |list| ==> list[p].tnum <= t)
  }

  predicate Present(list: seq<Ftype>, t: int, p: nat) {
    p < |list| && list[p].tnum == t
  }

  lemma FindIs(list: seq<Ftype>, t: int, i: nat)
    requires Descending(list) && i < |list| && list[i].tnum == t
    ensures Find(list, t) == Some(list[i].info)
  {
  }

  /** Looking no further than the first smaller number finds what there is. */
  lemma PlaceFinds(list: seq<Ftype>, t: int, p: nat)
    requires Descending(list) && Place(list, t, p)
    ensures Find(list, t) == if Present(list, t, p) then Some(list[p].info) else None
  {
    if Present(list, t, p) { FindIs(list, t, p); }
  }

  lemma ReplaceFinds(list: seq<Ftype>, t: int, p: nat, info: Info)
    requires Descending(list) && Present(list, t, p)
    ensures var l := list[p := Ftype(t, info)];
            Descending(l) && forall u :: Find(l, u) == if u == t then Some(info) else Find(list, u)
  {
    var l := list[p := Ftype(t, info)];
    forall u ensures Find(l, u) == if u == t then Some(info) else Find(list, u) {
      assert forall i :: 0 <= i < |list| ==> l[i].tnum == list[i].tnum;
      if i :| 0 <= i < |l| && l[i].tnum == u {
        FindIs(l, u, i);
        FindIs(list, u, i);
      }
    }
  }

  lemma AddFinds(list: seq<Ftype>, t: int, p: nat, info: Info)
    requires Descending(list) && Place(list, t, p) && !Present(list, t, p)
    ensures var l := list[..p] + [Ftype(t, info)] + list[p..];
            Descending(l) && forall u :: Find(l, u) == if u == t then Some(info) else Find(list, u)
  {
    var l := list[..p] + [Ftype(t, info)] + list[p..];
    forall u ensures Find(l, u) == if u == t then Some(info) else Find(list, u) {
      if i :| 0 <= i < |list| && list[i].tnum == u {
        FindIs(list, u, i);
        FindIs(l, u, if i < p then i else i + 1);
      } else if u == t {
        FindIs(l, t, p);
      }
    }
  }

  // ---------------------------------------------------------------- what a history of events leaves

  /** What is known of a type after one more event about it. */
  function Learn(o: Option<Info>, e: Event): Option<Info> {
    match e
    case Note(_, symno, offset, undef) =>
      if o.None? || (o.value.At? && !undef && o.value.maybeBetter) then Some(At(undef, undef, symno, offset)) else o
    case Insert(_) => Some(Typed)
    case Searched(_) =>
      if o.Some? && o.value.At? && o.value.maybeBetter
      then Some(At(o.value.undef, false, o.value.symno, o.value.offset)) else o
  }

  function Known(h: seq<Event>, t: int): Option<Info> {
    if h == [] then None
    else
      var o := Known(h[..|h| - 1], t);
      if h[|h| - 1].t == t then Learn(o, h[|h| - 1]) else o
  }

  predicate Def(e: Event, t: int) { e.Note? && e.t == t }

  predicate RealDef(e: Event, t: int) { e.Note? && e.t == t && !e.undef }

  /** Event `i` is the best definition of `t`: the first real one, unless the search was over before
    * it was seen, and the first of any kind otherwise.
    */
  ghost predicate Best(h: seq<Event>, t: int, i: int) {
    && 0 <= i < |h| && Def(h[i], t)
    && (h[i].undef ==>
          && (forall j :: 0 <= j < i ==> !Def(h[j], t))
          && (forall j :: i < j < |h| && RealDef(h[j], t) ==> exists k :: i < k < j && h[k] == Searched(t)))
    && (!h[i].undef ==>
          && (forall j :: 0 <= j < i ==> !RealDef(h[j], t))
          && (forall j, k :: 0 <= j < k < i && Def(h[j], t) ==> h[k] != Searched(t)))
  }

  /** There is only one. */
  lemma BestUnique(h: seq<Event>, t: int, i: int, j: int)
    requires Best(h, t, i) && Best(h, t, j)
    ensures i == j
  {
    if i < j { BestAfter(h, t, i, j); } else if j < i { BestAfter(h, t, j, i); }
  }

  lemma BestAfter(h: seq<Event>, t: int, i: int, j: int)
    requires Best(h, t, i) && 0 <= i < j < |h|
    ensures !Best(h, t, j)
  {
    if RealDef(h[j], t) && h[i].undef {
      var k :| i < k < j && h[k] == Searched(t);
    }
  }

  /** The noted position is that of event `i`, with the search still open exactly when that is a bare tag
    * and no search has ended since.
    */
  ghost predicate Holds(h: seq<Event>, t: int, i: int, o: Info) {
    && Best(h, t, i) && o.At? && h[i] == Note(t, o.symno, o.offset, o.undef)
    && (o.maybeBetter <==> o.undef && forall k :: i < k < |h| ==> h[k] != Searched(t))
  }

  /** What the list holds about `t` after the events `h`. */
  ghost predicate Expected(h: seq<Event>, t: int, o: Option<Info>) {
    && (o.None? <==> forall i :: 0 <= i < |h| ==> !Def(h[i], t) && h[i] != Insert(t))
    && (o == Some(Typed) <==> Insert(t) in h)
    && (o.Some? && o.value.At? ==> exists i :: Holds(h, t, i, o.value))
  }

  lemma BestKept(g: seq<Event>, e: Event, t: int, i: int)
    requires Best(g, t, i)
    requires g[i].undef && RealDef(e, t) ==> exists k :: i < k < |g| && g[k] == Searched(t)
    ensures Best(g + [e], t, i)
  {
    var h := g + [e];
    forall j | i < j < |h| && RealDef(h[j], t) && h[i].undef
      ensures exists k :: i < k < j && h[k] == Searched(t)
    {
      if j < |g| {
        var k :| i < k < j && g[k] == Searched(t);
        assert h[k] == Searched(t);
      } else {
        var k :| i < k < |g| && g[k] == Searched(t);
        assert h[k] == Searched(t);
      }
    }
  }

  lemma BestNew(g: seq<Event>, e: Event, t: int, i: int)
    requires Best(g, t, i) && g[i].undef && RealDef(e, t)
    requires forall k :: i < k < |g| ==> g[k] != Searched(t)
    ensures Best(g + [e], t, |g|)
  {
    var h := g + [e];
    forall j | 0 <= j < |g| ensures !RealDef(h[j], t) {
      assert h[j] == g[j];
    }
    forall j, k | 0 <= j < k < |g| && Def(h[j], t) ensures h[k] != Searched(t) {
      assert j >= i;
    }
  }

  lemma StepAt(g: seq<Event>, e: Event, t: int, i: int, o: Info)
    requires Holds(g, t, i, o) && e != Insert(t)
    ensures var l := if e.t == t then Learn(Some(o), e) else Some(o);
            l.Some? && exists j :: Holds(g + [e], t, j, l.value)
  {
    var h := g + [e];
    var l := if e.t == t then Learn(Some(o), e) else Some(o);
    assert h[|g|] == e && forall k :: 0 <= k < |g| ==> h[k] == g[k];
    if RealDef(e, t) && o.maybeBetter {
      BestNew(g, e, t, i);
      assert Holds(h, t, |g|, l.value);
    } else {
      BestKept(g, e, t, i);
      assert Holds(h, t, i, l.value);
    }
  }

  lemma StepExpected(g: seq<Event>, e: Event, t: int, o: Option<Info>)
    requires Expected(g, t, o)
    ensures Expected(g + [e], t, if e.t == t then Learn(o, e) else o)
  {
    var h := g + [e];
    assert h[|g|] == e && forall i :: 0 <= i < |g| ==> h[i] == g[i];
    if e == Insert(t) || o == Some(Typed) {
      assert Insert(t) in h;
      var i :| 0 <= i < |h| && h[i] == Insert(t);
    } else if o.None? {
      if Def(e, t) { assert Best(h, t, |g|) && Holds(h, t, |g|, At(e.undef, e.undef, e.symno, e.offset)); }
    } else {
      var i :| Holds(g, t, i, o.value);
      StepAt(g, e, t, i, o.value);
      assert Def(h[i], t);
    }
  }

  /** What is known after any history is the best definition of that history. */
  lemma {:induction false} KnownExpected(h: seq<Event>, t: int)
    ensures Expected(h, t, Known(h, t))
  {
    if h != [] {
      var g := h[..|h| - 1];
      assert h == g + [h[|h| - 1]];
      KnownExpected(g, t);
      StepExpected(g, h[|h| - 1], t, Known(g, t));
    }
  }

  ghost predicate Agrees(list: seq<Ftype>, h: seq<Event>) {
    forall t :: Find(list, t) == Known(h, t)
  }

  lemma KnownStep(h: seq<Event>, e: Event, u: int)
    ensures Known(h + [e], u) == if u == e.t then Learn(Known(h, u), e) else Known(h, u)
  {
    assert (h + [e])[..|h|] == h;
  }

  /** A list changed at the number of the event, in the way of the event, agrees with the longer history. */
  lemma AgreesStep(list: seq<Ftype>, l: seq<Ftype>, h: seq<Event>, e: Event)
    requires Agrees(list, h) && forall u :: u != e.t ==> Find(l, u) == Find(list, u)
    requires Find(l, e.t) == Learn(Find(list, e.t), e)
    ensures Agrees(l, h + [e])
  {
    forall u ensures Find(l, u) == Known(h + [e], u) {
      KnownStep(h, e, u);
    }
  }

  // ---------------------------------------------------------------- the program's list

  class FileTypes {
    var ftypes: seq<Ftype>
    ghost var history: seq<Event>

    /** In order, and holding for every number what its history says. */
    ghost predicate Valid()
      reads this
    {
      Descending(ftypes) && Agrees(ftypes, history)
    }

    constructor ()
      ensures Valid() && ftypes == [] && history == []
    {
      ftypes := [];
      history := [];
    }

    /** The reader's view of the invariant. */
    lemma Noted(t: int)
      requires Valid()
      ensures Expected(history, t, Find(ftypes, t))
    {
      KnownExpected(history, t);
    }

    /** `lookup_ftype`: the place of the entry, if there is one, and of its predecessor. */
    method Lookup(t: int) returns (p: nat, found: bool)
      requires Valid()
      ensures Place(ftypes, t, p) && found == Present(ftypes, t, p)
      ensures found <==> Find(ftypes, t).Some?
    {
      p := 0;
      while p < |ftypes| && ftypes[p].tnum > t
        invariant p <= |ftypes| && forall i :: 0 <= i < p ==> ftypes[i].tnum > t
      {
        p := p + 1;
      }
      found := p < |ftypes| && ftypes[p].tnum == t;
      PlaceFinds(ftypes, t, p);
    }

    /** `add_ftype_to_list` with the two order panics. */
    method Add(t: int, p: nat, info: Info) returns (panicked: bool)
      requires p <= |ftypes|
      modifies this`ftypes
      ensures panicked <==> !((p > 0 ==> old(ftypes)[p - 1].tnum > t)
                               && (p < |old(ftypes)| ==> old(ftypes)[p].tnum < t))
      ensures !panicked ==> ftypes == old(ftypes)[..p] + [Ftype(t, info)] + old(ftypes)[p..]
    {
      if p > 0 && ftypes[p - 1].tnum <= t { return true; }
      ftypes := ftypes[..p] + [Ftype(t, info)] + ftypes[p..];
      panicked := p + 1 < |ftypes| && ftypes[p + 1].tnum >= t;
    }

    /** `note_def_pos`. */
    method NoteDefPos(t: int, symno: int, offset: int, undef: bool) returns (panicked: bool)
      requires Valid()
      modifies this
      ensures Valid() && !panicked && history == old(history) + [Note(t, symno, offset, undef)]
    {
      ghost var e := Note(t, symno, offset, undef);
      ghost var before := ftypes;
      panicked := false;
      var p, found := Lookup(t);
      PlaceFinds(ftypes, t, p);
      if !found {
        AddFinds(ftypes, t, p, At(undef, undef, symno, offset));
        panicked := Add(t, p, At(undef, undef, symno, offset));
      } else if ftypes[p].info.At? && !undef && ftypes[p].info.maybeBetter {
        ReplaceFinds(ftypes, t, p, At(undef, undef, symno, offset));
        ftypes := ftypes[p := Ftype(t, At(undef, undef, symno, offset))];
      }
      AgreesStep(before, ftypes, history, e);
      history := history + [e];
    }

    /** `insert_ftype`: a type that exists already is left alone. */
    method InsertFtype(t: int) returns (panicked: bool)
      requires Valid()
      modifies this
      ensures Valid() && !panicked && history == old(history) + [Insert(t)]
    {
      ghost var before := ftypes;
      panicked := false;
      var p, found := Lookup(t);
      PlaceFinds(ftypes, t, p);
      if !found {
        AddFinds(ftypes, t, p, Typed);
        panicked := Add(t, p, Typed);
      } else if ftypes[p].info.At? {
        ReplaceFinds(ftypes, t, p, Typed);
        ftypes := ftypes[p := Ftype(t, Typed)];
      }
      AgreesStep(before, ftypes, history, Insert(t));
      history := history + [Insert(t)];
    }

    /** The end of the search in `get_type`: whatever was found, there is nothing better. */
    method SearchDone(t: int)
      requires Valid()
      modifies this
      ensures Valid() && history == old(history) + [Searched(t)]
    {
      ghost var before := ftypes;
      var p, found := Lookup(t);
      PlaceFinds(ftypes, t, p);
      if found && ftypes[p].info.At? && ftypes[p].info.maybeBetter {
        var info := ftypes[p].info;
        ReplaceFinds(ftypes, t, p, At(info.undef, false, info.symno, info.offset));
        ftypes := ftypes[p := Ftype(t, At(info.undef, false, info.symno, info.offset))];
      }
      AgreesStep(before, ftypes, history, Searched(t));
      history := history + [Searched(t)];
    }
  }
}
