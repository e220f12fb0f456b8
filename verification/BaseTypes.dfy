/** Base types that are referred to before they are read (ups/ao_dwftype.c), for the type modifiers of section 5.3 of
  * DWARF Version 4: entries keep the offset of their base until a sweep resolves it.
  */
module BaseTypes {
  import opened Wrappers

  /** An entry: its offset, the offset of its base while that is unresolved and 0 otherwise, its own type if it is
    * one, and the base type it was given.
    */
  datatype Dtype = Dtype(offset: int, base: int, own: Option<nat>, bound: Option<nat>)

  type List = seq<Dtype>

  // ---------------------------------------------------------------- looking up an offset

  /** A scan for the first entry with an offset. */
  function Scan(l: List, offset: int): (r: Option<nat>)
    ensures r.Some? ==> r.value < |l| && l[r.value].offset == offset
    ensures r.Some? ==> forall j :: 0 <= j < r.value ==> l[j].offset != offset
    ensures r.None? ==> forall j :: 0 <= j < |l| ==> l[j].offset != offset
  {
    if l == [] then None
    else
      var n := |l| - 1;
      match Scan(l[..n], offset)
      case Some(i) => Some(i)
      case None => if l[n].offset == offset then Some(n) else None
  }

  ghost predicate Indexed(l: List, index: map<int, nat>) {
    forall o :: Scan(l, o) == if o in index then Some(index[o]) else None
  }

  lemma ScanAppend(l: List, d: Dtype, o: int)
    ensures Scan(l + [d], o) == if Scan(l, o).Some? then Scan(l, o) else if d.offset == o then Some(|l|) else None
  {
    assert (l + [d])[..|l|] == l;
  }

  /** The scan depends on the offsets alone. */
  lemma ScanSame(l: List, k: List, o: int)
    requires |l| == |k| && forall i :: 0 <= i < |l| ==> l[i].offset == k[i].offset
    ensures Scan(l, o) == Scan(k, o)
  {
    var r, q := Scan(l, o), Scan(k, o);
    if r.Some? { assert k[r.value].offset == o; }
    if q.Some? { assert l[q.value].offset == o; }
  }

  // ---------------------------------------------------------------- what can be resolved

  /** The entry an unresolved entry waits for. */
  function Waits(l: List, i: nat): (r: Option<nat>)
    requires i < |l|
    ensures r.Some? ==> r.value < |l|
  {
    if l[i].base == 0 then None else Scan(l, l[i].base)
  }

  /** No entry waits for itself: each waits for one of lower rank. */
  ghost predicate Ranked(l: List, rank: seq<nat>) {
    |rank| == |l| && forall i :: 0 <= i < |l| && Waits(l, i).Some? ==> rank[Waits(l, i).value] < rank[i]
  }

  /** Resolved in `n` steps: the chain ends at a resolved entry, and all that it passes after `i` are types. */
  ghost predicate Reaches(l: List, i: nat, n: nat)
    requires i < |l|
    decreases n
  {
    if n == 0 then l[i].base == 0
    else Waits(l, i).Some? && l[Waits(l, i).value].own.Some? && Reaches(l, Waits(l, i).value, n - 1)
  }

  ghost predicate Resolvable(l: List, i: nat)
    requires i < |l|
  {
    exists n: nat :: Reaches(l, i, n)
  }

  lemma IsResolvable(l: List, i: nat, n: nat)
    requires i < |l| && Reaches(l, i, n)
    ensures Resolvable(l, i)
  {
  }

  /** The type that `dwf_fixup_type` gives back for entry `i`. */
  ghost function Answer(l: List, rank: seq<nat>, i: nat): Option<nat>
    requires Ranked(l, rank) && i < |l|
    decreases rank[i]
  {
    if l[i].base == 0 then l[i].own
    else if Waits(l, i).Some? && Answer(l, rank, Waits(l, i).value).Some? then l[i].own
    else None
  }

  /** Entry `i` once it has been dealt with. */
  ghost function Settled(l: List, rank: seq<nat>, i: nat): Dtype
    requires Ranked(l, rank) && i < |l|
  {
    if Waits(l, i).Some? && Answer(l, rank, Waits(l, i).value).Some?
    then Dtype(l[i].offset, 0, l[i].own, Answer(l, rank, Waits(l, i).value))
    else l[i]
  }

  /** Every entry dealt with. */
  ghost function Fixed(l: List, rank: seq<nat>): List
    requires Ranked(l, rank)
  {
    seq(|l|, i requires 0 <= i < |l| => Settled(l, rank, i))
  }

  lemma {:induction false} AnswerReaches(l: List, rank: seq<nat>, i: nat) returns (n: nat)
    requires Ranked(l, rank) && i < |l| && Answer(l, rank, i).Some?
    ensures Reaches(l, i, n) && Answer(l, rank, i) == l[i].own
    decreases rank[i]
  {
    n := 0;
    if l[i].base != 0 {
      var m := AnswerReaches(l, rank, Waits(l, i).value);
      n := m + 1;
    }
  }

  lemma {:induction false} ReachesAnswer(l: List, rank: seq<nat>, i: nat, n: nat)
    requires Ranked(l, rank) && i < |l| && Reaches(l, i, n) && l[i].own.Some?
    ensures Answer(l, rank, i) == l[i].own
    decreases n
  {
    if n > 0 { ReachesAnswer(l, rank, Waits(l, i).value, n - 1); }
  }

  /** Exactly the entries whose chain reaches a resolved type are resolved, each to the type it waited for. */
  lemma SettledIff(l: List, rank: seq<nat>, i: nat)
    requires Ranked(l, rank) && i < |l|
    ensures Settled(l, rank, i).base == 0 <==> Resolvable(l, i)
    ensures Settled(l, rank, i).base == 0 && l[i].base != 0 ==>
              Waits(l, i).Some? && Settled(l, rank, i).bound == l[Waits(l, i).value].own
              && Settled(l, rank, i).bound.Some?
  {
    if l[i].base == 0 {
      IsResolvable(l, i, 0);
    } else {
      if Waits(l, i).Some? && Answer(l, rank, Waits(l, i).value).Some? {
        var n := AnswerReaches(l, rank, Waits(l, i).value);
        IsResolvable(l, i, n + 1);
      }
      if n: nat :| Reaches(l, i, n) {
        ReachesAnswer(l, rank, Waits(l, i).value, n - 1);
      }
    }
  }

  // ---------------------------------------------------------------- part of the way

  /** Some entries of `o` have been settled. */
  ghost predicate Partly(o: List, rank: seq<nat>, l: List)
    requires Ranked(o, rank)
  {
    |l| == |o| && forall i :: 0 <= i < |o| ==> l[i] == o[i] || l[i] == Settled(o, rank, i)
  }

  /** The first `n` entries are settled. */
  ghost predicate DoneTo(o: List, rank: seq<nat>, l: List, n: nat)
    requires Ranked(o, rank)
  {
    |l| == |o| && n <= |o| && forall i :: 0 <= i < n ==> l[i] == Settled(o, rank, i)
  }

  lemma DoneNext(o: List, rank: seq<nat>, l: List, n: nat)
    requires Ranked(o, rank) && DoneTo(o, rank, l, n) && n < |o| && l[n] == Settled(o, rank, n)
    ensures DoneTo(o, rank, l, n + 1) && Unresolved(l[..n + 1]) == Unresolved(l[..n]) + if l[n].base != 0 then 1 else 0
  {
    assert l[..n + 1][..n] == l[..n];
  }

  lemma DoneAll(o: List, rank: seq<nat>, l: List)
    requires Ranked(o, rank) && DoneTo(o, rank, l, |o|)
    ensures l == Fixed(o, rank) && l[..|o|] == l
  {
  }

  lemma DoneSame(o: List, rank: seq<nat>, l: List, k: List, n: nat)
    requires Ranked(o, rank) && DoneTo(o, rank, l, n) && DoneTo(o, rank, k, n)
    ensures l[..n] == k[..n]
  {
  }

  lemma PartlyScan(o: List, rank: seq<nat>, l: List, offset: int)
    requires Ranked(o, rank) && Partly(o, rank, l)
    ensures Scan(l, offset) == Scan(o, offset)
  {
    ScanSame(l, o, offset);
  }

  lemma PartlyRanked(o: List, rank: seq<nat>, l: List)
    requires Ranked(o, rank) && Partly(o, rank, l)
    ensures Ranked(l, rank)
  {
    forall i | 0 <= i < |l| && Waits(l, i).Some? ensures rank[Waits(l, i).value] < rank[i] {
      PartlyScan(o, rank, l, l[i].base);
      assert Waits(l, i) == Waits(o, i);
    }
  }

  lemma {:induction false} PartlyAnswer(o: List, rank: seq<nat>, l: List, i: nat)
    requires Ranked(o, rank) && Partly(o, rank, l) && Ranked(l, rank) && i < |l|
    ensures Answer(l, rank, i) == Answer(o, rank, i)
    decreases rank[i]
  {
    if l[i].base != 0 {
      PartlyScan(o, rank, l, l[i].base);
      if Waits(l, i).Some? { PartlyAnswer(o, rank, l, Waits(l, i).value); }
    }
  }

  /** Repeating the pass changes nothing more. */
  lemma FixedTwice(o: List, rank: seq<nat>)
    requires Ranked(o, rank)
    ensures Ranked(Fixed(o, rank), rank) && Fixed(Fixed(o, rank), rank) == Fixed(o, rank)
  {
    var f := Fixed(o, rank);
    PartlyRanked(o, rank, f);
    forall i | 0 <= i < |f| ensures Settled(f, rank, i) == f[i] {
      PartlyScan(o, rank, f, f[i].base);
      if Waits(f, i).Some? { PartlyAnswer(o, rank, f, Waits(f, i).value); }
    }
  }

  // ---------------------------------------------------------------- the program's list

  function Unresolved(l: List): nat {
    if l == [] then 0 else Unresolved(l[..|l| - 1]) + if l[|l| - 1].base != 0 then 1 else 0
  }

  /** It counts the entries that still wait. */
  lemma {:induction false} UnresolvedIs(l: List)
    ensures Unresolved(l) == |set i | 0 <= i < |l| && l[i].base != 0|
  {
    var now := set i | 0 <= i < |l| && l[i].base != 0;
    if l != [] {
      var n := |l| - 1;
      var was := set i | 0 <= i < |l[..n]| && l[..n][i].base != 0;
      UnresolvedIs(l[..n]);
      assert now == if l[n].base != 0 then was + {n} else was;
    }
  }

  class Dtypes {
    var list: List
    /** The search tree, which keeps the first entry put in under an offset. */
    var index: map<int, nat>

    ghost predicate Valid()
      reads this
    {
      Indexed(list, index)
    }

    constructor ()
      ensures Valid() && list == []
    {
      list := [];
      index := map[];
    }

    /** `dwf_make_dtype`: an entry at the end of the list; a second one with the same offset is not indexed. */
    method MakeDtype(offset: int, own: Option<nat>) returns (duplicate: bool)
      requires Valid()
      modifies this
      ensures Valid() && list == old(list) + [Dtype(offset, 0, own, None)]
      ensures duplicate <==> exists i :: 0 <= i < |old(list)| && old(list)[i].offset == offset
    {
      ghost var was := list;
      var d := Dtype(offset, 0, own, None);
      forall o ensures Scan(was + [d], o) ==
                         if Scan(was, o).Some? then Scan(was, o) else if offset == o then Some(|was|) else None {
        ScanAppend(was, d, o);
      }
      assert Scan(was, offset) == if offset in index then Some(index[offset]) else None;
      duplicate := offset in index;
      if !duplicate { index := index[offset := |list|]; }
      list := list + [d];
    }

    /** An entry is left waiting for its base, or gets it at once. */
    method SetBase(i: nat, base: int, bound: Option<nat>)
      requires Valid() && i < |list|
      modifies this`list
      ensures Valid() && list == old(list)[i := Dtype(old(list)[i].offset, base, old(list)[i].own, bound)]
    {
      ghost var was := list;
      list := list[i := Dtype(list[i].offset, base, list[i].own, bound)];
      forall o ensures Scan(list, o) == Scan(was, o) { ScanSame(list, was, o); }
    }

    /** `dwf_lookup_dtype`: the index answers as a scan of the list for the first match. */
    method LookupDtype(offset: int) returns (r: Option<nat>)
      requires Valid()
      ensures r == Scan(list, offset)
    {
      assert Scan(list, offset) == if offset in index then Some(index[offset]) else None;
      r := if offset in index then Some(index[offset]) else None;
    }

    /** `dwf_fixup_type`: entry `i` is settled, and others only as far as they are on its chain. */
    method FixupType(i: nat, ghost o: List, ghost rank: seq<nat>) returns (r: Option<nat>)
      requires Valid() && Ranked(o, rank) && Partly(o, rank, list) && i < |list|
      modifies this`list
      ensures Valid() && Partly(o, rank, list) && list[i] == Settled(o, rank, i) && r == Answer(o, rank, i)
      ensures forall n: nat :: DoneTo(o, rank, old(list), n) ==> DoneTo(o, rank, list, n)
      decreases rank[i]
    {
      if list[i].base != 0 {
        PartlyScan(o, rank, list, list[i].base);
        var b := LookupDtype(list[i].base);
        if b.Some? {
          assert Waits(o, i) == b;
          var base := FixupType(b.value, o, rank);
          if base.Some? {
            SetBase(i, 0, base);
          }
        }
      }
      r := if list[i].base == 0 then list[i].own else None;
    }

    /** The first sweep of `dwf_fixup_types`: every entry is settled, and what is left is counted. */
    method FixupTypes(ghost rank: seq<nat>) returns (incomplete: nat)
      requires Valid() && Ranked(list, rank)
      modifies this`list
      ensures Valid() && list == Fixed(old(list), rank) && incomplete == Unresolved(list)
    {
      ghost var o := list;
      incomplete := 0;
      var i := 0;
      while i < |list|
        invariant 0 <= i <= |list| && Valid() && Partly(o, rank, list)
        invariant DoneTo(o, rank, list, i) && incomplete == Unresolved(list[..i])
      {
        ghost var before := list;
        var _ := FixupType(i, o, rank);
        DoneSame(o, rank, before, list, i);
        DoneNext(o, rank, list, i);
        if list[i].base != 0 { incomplete := incomplete + 1; }
        i := i + 1;
      }
      DoneAll(o, rank, list);
    }
  }
}
