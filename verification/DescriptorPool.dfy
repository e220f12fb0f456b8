/** The pool of open descriptors for symbol files (ups/ao_symread.c): at most four symios have one. */
module DescriptorPool {
  import opened Wrappers

  /** A symio: whether it has an open descriptor, and the stamp of its last use. */
  datatype Symio = Symio(isOpen: bool, lastUsed: nat)

  const MAX_SYMIOS: nat := 4

  /** The stamps are unsigned integers of 32 bits. */
  const WRAP: nat := 0x1_0000_0000

  type Slots = seq<Option<nat>>

  /** The residents of a table of slots. */
  function Residents(t: Slots): set<nat> {
    if t == [] then {}
    else (if t[0].Some? then {t[0].value} else {}) + Residents(t[1..])
  }

  lemma {:induction false} ResidentsSize(t: Slots)
    ensures |Residents(t)| <= |t|
    ensures forall s :: s in Residents(t) <==> Some(s) in t
  {
    if t != [] {
      ResidentsSize(t[1..]);
      if t[0].Some? { assert |{t[0].value} + Residents(t[1..])| <= 1 + |Residents(t[1..])|; }
    }
  }

  ghost predicate Distinct(t: Slots) {
    forall i, j :: 0 <= i < j < |t| && t[i].Some? ==> t[i] != t[j]
  }

  /** A symio has a descriptor exactly when it is in a slot, and it is never in two. */
  ghost predicate Pooled(t: Slots, files: map<nat, Symio>) {
    && |t| == MAX_SYMIOS && Distinct(t)
    && (forall i :: 0 <= i < |t| && t[i].Some? ==> t[i].value in files && files[t[i].value].isOpen)
    && (forall s :: s in files && files[s].isOpen ==> Some(s) in t)
  }

  /** At most four are open. */
  lemma AtMostFour(t: Slots, files: map<nat, Symio>)
    requires Pooled(t, files)
    ensures |set s | s in files && files[s].isOpen| <= MAX_SYMIOS
  {
    ResidentsSize(t);
    assert (set s | s in files && files[s].isOpen) == Residents(t);
  }

  /** The stamps record the times of use, of which no two are the same. */
  ghost predicate Stamped(files: map<nat, Symio>, uses: nat, usedAt: map<nat, nat>) {
    && (forall s :: s in usedAt ==> s in files && usedAt[s] < uses && files[s].lastUsed == usedAt[s] % WRAP)
    && (forall s, r :: s in usedAt && r in usedAt && s != r ==> usedAt[s] != usedAt[r])
  }

  /** `v` carries the least stamp of the residents. */
  ghost predicate Oldest(t: Slots, files: map<nat, Symio>, v: nat) {
    Some(v) in t && v in files && forall s :: Some(s) in t && s in files ==> files[v].lastUsed <= files[s].lastUsed
  }

  /** Until the stamps wrap around, the oldest resident was used before every other resident that was used. */
  lemma OldestIsLeastRecent(t: Slots, files: map<nat, Symio>, uses: nat, usedAt: map<nat, nat>, v: nat)
    requires Pooled(t, files) && Stamped(files, uses, usedAt) && uses <= WRAP && Oldest(t, files, v)
    ensures v in usedAt ==> forall s :: Some(s) in t && s in usedAt && s != v ==> usedAt[v] < usedAt[s]
  {
    forall s | Some(s) in t && s in usedAt && s != v && v in usedAt ensures usedAt[v] < usedAt[s] {
      SmallStamp(usedAt[v], uses);
      SmallStamp(usedAt[s], uses);
    }
  }

  lemma SmallStamp(at: nat, uses: nat)
    requires at < uses <= WRAP
    ensures at % WRAP == at
  {
  }

  /** The pool after its slot `k` is emptied. */
  ghost function Evicted(t: Slots, files: map<nat, Symio>, k: nat): map<nat, Symio>
    requires Pooled(t, files) && k < |t|
  {
    if t[k].None? then files else files[t[k].value := Symio(false, files[t[k].value].lastUsed)]
  }

  lemma EvictedPooled(t: Slots, files: map<nat, Symio>, k: nat)
    requires Pooled(t, files) && k < |t|
    ensures Pooled(t[k := None], Evicted(t, files, k))
  {
    var u, g := t[k := None], Evicted(t, files, k);
    forall s | s in g && g[s].isOpen ensures Some(s) in u {
      var i :| 0 <= i < |t| && t[i] == Some(s);
      assert u[i] == Some(s);
    }
  }

  lemma FilledPooled(t: Slots, files: map<nat, Symio>, k: nat, s: nat, lastUsed: nat)
    requires Pooled(t, files) && k < |t| && t[k].None? && (s in files ==> !files[s].isOpen)
    ensures Pooled(t[k := Some(s)], files[s := Symio(true, lastUsed)])
  {
    var u, g := t[k := Some(s)], files[s := Symio(true, lastUsed)];
    forall r | r in g && g[r].isOpen ensures Some(r) in u {
      if r == s {
        assert u[k] == Some(s);
      } else {
        var i :| 0 <= i < |t| && t[i] == Some(r);
        assert u[i] == Some(r);
      }
    }
  }

  // ---------------------------------------------------------------- the program's pool

  class Pool {
    var sitab: Slots
    var files: map<nat, Symio>
    var stamp: nat
    /** How often a symio was used, and when each was last. */
    ghost var uses: nat
    ghost var usedAt: map<nat, nat>

    ghost predicate Valid()
      reads this
    {
      Pooled(sitab, files) && Stamped(files, uses, usedAt) && stamp == uses % WRAP
    }

    constructor ()
      ensures Valid() && files == map[] && uses == 0
    {
      sitab := [None, None, None, None];
      files := map[];
      stamp := 0;
      uses := 0;
      usedAt := map[];
    }

    /** `get_free_symio_slot`: an empty slot, or the slot of the resident with the least stamp, which is closed. */
    method GetFreeSlot() returns (k: nat)
      requires Valid()
      modifies this`sitab, this`files
      ensures Valid() && k < |sitab| == |old(sitab)| && sitab == old(sitab)[k := None]
      ensures files == Evicted(old(sitab), old(files), k)
      ensures Fair(old(sitab), old(files), k)
    {
      var i := 0;
      var best := 0;
      while i < MAX_SYMIOS
        invariant i <= MAX_SYMIOS && best < MAX_SYMIOS && (i > 0 ==> best < i)
        invariant forall j :: 0 <= j < i ==> sitab[j].Some?
        invariant forall j :: 0 <= j < i ==> files[sitab[best].value].lastUsed <= files[sitab[j].value].lastUsed
      {
        if sitab[i] == None {
          EvictedPooled(sitab, files, i);
          k := i;
          assert sitab[k := None] == sitab;
          return;
        }
        if i == 0 || files[sitab[i].value].lastUsed < files[sitab[best].value].lastUsed {
          best := i;
        }
        i := i + 1;
      }
      k := best;
      EvictedPooled(sitab, files, k);
      var victim := sitab[k].value;
      files := files[victim := Symio(false, files[victim].lastUsed)];
      sitab := sitab[k := None];
    }

    /** A free slot goes to symio `s`, with the stamp given. */
    method Occupy(s: nat, lastUsed: nat, reopens: bool) returns (ghost k: nat)
      requires Valid() && (s in files ==> !files[s].isOpen && files[s].lastUsed == lastUsed) && (s in files || reopens)
      modifies this`sitab, this`files
      ensures Valid() && k < |sitab| == |old(sitab)| && Fair(old(sitab), old(files), k)
      ensures sitab == old(sitab)[k := if reopens then Some(s) else None]
      ensures files == var f := Evicted(old(sitab), old(files), k); if reopens then f[s := Symio(true, lastUsed)] else f
      ensures s in old(files) ==> files.Keys == old(files).Keys && files[s].isOpen == reopens
    {
      var at := GetFreeSlot();
      k := at;
      if reopens {
        FilledPooled(sitab, files, at, s, lastUsed);
        assert old(sitab)[k := Some(s)] == sitab[k := Some(s)];
        files := files[s := Symio(true, lastUsed)];
        sitab := sitab[at := Some(s)];
      }
    }

    /** The end of `make_symio`: the new symio comes with a descriptor, and with no stamp of its own yet. */
    method Make(s: nat, junk: nat) returns (ghost k: nat)
      requires Valid() && s !in files
      modifies this
      ensures Valid() && s in files && files[s].isOpen && uses == old(uses) && usedAt == old(usedAt)
      ensures files.Keys == old(files).Keys + {s}
      ensures k < |old(sitab)| && sitab == old(sitab)[k := Some(s)] && Fair(old(sitab), old(files), k)
    {
      k := Occupy(s, junk, true);
    }

    /** Every use is stamped first. */
    method Stamp(s: nat)
      requires Valid() && s in files
      modifies this`files, this`stamp, this`uses, this`usedAt
      ensures Valid() && files == old(files)[s := Symio(old(files)[s].isOpen, old(stamp))]
      ensures uses == old(uses) + 1 && usedAt == old(usedAt)[s := old(uses)]
    {
      files := files[s := Symio(files[s].isOpen, stamp)];
      usedAt := usedAt[s := uses];
      uses := uses + 1;
      NextStamp(stamp, uses - 1);
      stamp := (stamp + 1) % WRAP;
    }

    /** `prepare_to_use`, where `reopens` says whether the file can still be opened. */
    method PrepareToUse(s: nat, reopens: bool) returns (ok: bool, ghost k: nat)
      requires Valid() && s in files
      modifies this
      ensures Valid() && files.Keys == old(files).Keys
      ensures ok == (old(files)[s].isOpen || reopens) && ok == files[s].isOpen
      ensures uses == old(uses) + 1 && usedAt == old(usedAt)[s := old(uses)]
      ensures old(files)[s].isOpen ==> sitab == old(sitab)
      ensures !old(files)[s].isOpen ==>
                k < |old(sitab)| && sitab == old(sitab)[k := if ok then Some(s) else None]
                && Fair(old(sitab), old(files), k)
    {
      Stamp(s);
      ok, k := true, 0;
      if !files[s].isOpen {
        ghost var t, f := sitab, files;
        k := Occupy(s, files[s].lastUsed, reopens);
        FairStill(t, old(files), f, s, k);
        ok := reopens;
      }
    }

    /** `close_symio`: the panic for an open symio without a slot cannot happen. */
    method CloseSymio(s: nat) returns (panicked: bool)
      requires Valid() && s in files
      modifies this
      ensures Valid() && !panicked && files == old(files) - {s} && uses == old(uses)
      ensures forall i :: 0 <= i < |sitab| == |old(sitab)| ==>
                sitab[i] == if old(sitab)[i] == Some(s) then None else old(sitab)[i]
    {
      panicked := false;
      if files[s].isOpen { panicked := LeaveSlot(s); }
      Forget(s);
    }

    /** A closed symio is done with. */
    method Forget(s: nat)
      requires Valid() && s in files && !files[s].isOpen
      modifies this`files, this`usedAt
      ensures Valid() && files == old(files) - {s}
    {
      RemovedPooled(sitab, files, s);
      RemovedStamped(files, uses, usedAt, s);
      files := files - {s};
      usedAt := usedAt - {s};
    }

    /** The search of `close_symio` for the slot of an open symio. */
    method LeaveSlot(s: nat) returns (panicked: bool)
      requires Valid() && s in files && files[s].isOpen
      modifies this`sitab, this`files
      ensures Valid() && !panicked && files == old(files)[s := Symio(false, old(files)[s].lastUsed)]
      ensures forall i :: 0 <= i < |sitab| == |old(sitab)| ==>
                sitab[i] == if old(sitab)[i] == Some(s) then None else old(sitab)[i]
    {
      var i := 0;
      while i < MAX_SYMIOS && sitab[i] != Some(s)
        invariant i <= MAX_SYMIOS && forall j :: 0 <= j < i ==> sitab[j] != Some(s)
      {
        i := i + 1;
      }
      panicked := i == MAX_SYMIOS;
      EvictedPooled(sitab, files, i);
      files := files[s := Symio(false, files[s].lastUsed)];
      sitab := sitab[i := None];
    }
  }

  lemma RemovedPooled(t: Slots, files: map<nat, Symio>, s: nat)
    requires Pooled(t, files) && s in files && !files[s].isOpen
    ensures Pooled(t, files - {s})
  {
  }

  lemma RemovedStamped(files: map<nat, Symio>, uses: nat, usedAt: map<nat, nat>, s: nat)
    requires Stamped(files, uses, usedAt)
    ensures Stamped(files - {s}, uses, usedAt - {s})
  {
  }

  lemma NextStamp(stamp: nat, uses: nat)
    requires stamp == uses % WRAP
    ensures (stamp + 1) % WRAP == (uses + 1) % WRAP
  {
  }

  /** Slot `k` was free, or it held the resident with the least stamp. */
  ghost predicate Fair(t: Slots, files: map<nat, Symio>, k: nat) {
    k < |t| && (t[k].None? || (None !in t && Oldest(t, files, t[k].value)))
  }

  lemma FairStill(t: Slots, files: map<nat, Symio>, later: map<nat, Symio>, s: nat, k: nat)
    requires Pooled(t, files) && Fair(t, later, k) && s in files && !files[s].isOpen
    requires later.Keys == files.Keys && later == files[s := later[s]]
    ensures Fair(t, files, k)
  {
  }
}
