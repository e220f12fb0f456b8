/** The allocator of the x86 debug registers (ups/ao_ptrace.c): four registers, taken and freed through a
  * control word.
  */
module Watchpoints {

  import opened Wrappers
  import opened DebugControl

  datatype Access = Execute | Write | InOut | ReadWrite

  /** An enabled register: the watched address, the accesses that stop the process, and how many bytes are watched. */
  datatype Watch = Watch(addr: nat, access: Access, bytes: nat)

  datatype Outcome = Done | Refused | Trap

  // ---------------------------------------------------------------- registers as a multiset

  /** How many registers hold `w`: the registers as a multiset. */
  function Count<T(==)>(s: seq<Option<T>>, w: T): nat {
    if s == [] then 0 else (if s[0] == Some(w) then 1 else 0) + Count(s[1..], w)
  }

  /** How many registers are on. */
  function Used<T>(s: seq<Option<T>>): nat {
    if s == [] then 0 else (if s[0].Some? then 1 else 0) + Used(s[1..])
  }

  /** Changing one register swaps its entry. */
  lemma {:induction false} CountUpdate<T>(s: seq<Option<T>>, i: nat, o: Option<T>, w: T)
    requires i < |s|
    ensures Count(s[i := o], w) + (if s[i] == Some(w) then 1 else 0) == Count(s, w) + (if o == Some(w) then 1 else 0)
  {
    if i == 0 {
      assert s[i := o][1..] == s[1..];
    } else {
      assert s[i := o][1..] == s[1..][i - 1 := o];
      CountUpdate(s[1..], i - 1, o, w);
    }
  }

  lemma {:induction false} UsedUpdate<T>(s: seq<Option<T>>, i: nat, o: Option<T>)
    requires i < |s|
    ensures Used(s[i := o]) + (if s[i].Some? then 1 else 0) == Used(s) + (if o.Some? then 1 else 0)
  {
    if i == 0 {
      assert s[i := o][1..] == s[1..];
    } else {
      assert s[i := o][1..] == s[1..][i - 1 := o];
      UsedUpdate(s[1..], i - 1, o);
    }
  }

  lemma {:induction false} CountHas<T>(s: seq<Option<T>>, w: T)
    ensures Count(s, w) > 0 <==> Some(w) in s
  {
    if s != [] { CountHas(s[1..], w); }
  }

  lemma {:induction false} UsedAll<T>(s: seq<Option<T>>)
    ensures Used(s) <= |s|
    ensures Used(s) == |s| <==> None !in s
  {
    if s != [] { UsedAll(s[1..]); }
  }

  /** The counts are those of the multiset of entries. */
  lemma {:induction false} CountIsMultiset<T>(s: seq<Option<T>>, w: T)
    ensures Count(s, w) == multiset(s)[Some(w)]
  {
    if s != [] {
      CountIsMultiset(s[1..], w);
      assert s == [s[0]] + s[1..];
    }
  }

  // ---------------------------------------------------------------- the fields of a register

  /** The access condition, in the low two bits of a field (section 17.2.4 of the Intel manual, Volume 3B). */
  function AccessOf(f: bv4): Access {
    if f & 3 == 0 then Execute else if f & 3 == 1 then Write else if f & 3 == 2 then InOut else ReadWrite
  }

  /** The number of bytes, in the high two bits: 00, 01, 11 and 10 stand for 1, 2, 4 and 8. */
  function BytesOf(f: bv4): nat {
    if f >> 2 == 0 then 1 else if f >> 2 == 1 then 2 else if f >> 2 == 3 then 4 else 8
  }

  function Decoded(addr: nat, f: bv4): Watch { Watch(addr, AccessOf(f), BytesOf(f)) }

  /** Write access, with the length code of the size. */
  function FlagsOf(size: nat): bv4
    requires size in {1, 2, 4, 8}
  {
    if size == 1 then 0x1 else if size == 2 then 0x5 else if size == 4 then 0xd else 0x9
  }

  /** The field of a request watches writes to as many bytes as were asked for, and no other field does. */
  lemma CodeOf(addr: nat, size: nat, f: bv4)
    requires size in {1, 2, 4, 8}
    ensures Decoded(addr, FlagsOf(size)) == Watch(addr, Write, size)
    ensures Decoded(addr, f) == Watch(addr, Write, size) <==> f == FlagsOf(size)
  {
    FieldIs(f);
    FieldIs(FlagsOf(size));
  }

  lemma FieldIs(f: bv4)
    ensures AccessOf(f) == Write && BytesOf(f) == 1 <==> f == 0x1
    ensures AccessOf(f) == Write && BytesOf(f) == 2 <==> f == 0x5
    ensures AccessOf(f) == Write && BytesOf(f) == 4 <==> f == 0xd
    ensures AccessOf(f) == Write && BytesOf(f) == 8 <==> f == 0x9
  {
  }

  // ---------------------------------------------------------------- what the registers watch

  /** What register `i` watches. */
  function Slot<C>(l: Layout<C>, regs: seq<nat>, control: C, i: Index): Option<Watch>
    requires |regs| == 4
  {
    if l.on(control, i) then Some(Decoded(regs[i], l.field(control, i))) else None
  }

  ghost predicate Shows<C>(l: Layout<C>, regs: seq<nat>, control: C, view: seq<Option<Watch>>) {
    |regs| == 4 && |view| == 4 && forall i: Index :: view[i] == Slot(l, regs, control, i)
  }

  lemma ShowsSet<C(!new)>(l: Layout<C>, regs: seq<nat>, c: C, view: seq<Option<Watch>>, i: Index, addr: nat, flags: bv4)
    requires Lawful(l) && Shows(l, regs, c, view) && view[i].None?
    ensures Shows(l, regs[i := addr], c, view)
    ensures Shows(l, regs[i := addr], l.set_(c, i, flags), view[i := Some(Decoded(addr, flags))])
  {
    var after := view[i := Some(Decoded(addr, flags))];
    forall j: Index ensures after[j] == Slot(l, regs[i := addr], l.set_(c, i, flags), j) {
      if i != j { assert SameFields(l, l.set_(c, i, flags), c, j); }
    }
  }

  lemma ShowsCleared<C(!new)>(l: Layout<C>, regs: seq<nat>, c: C, view: seq<Option<Watch>>, i: Index)
    requires Lawful(l) && Shows(l, regs, c, view)
    ensures Shows(l, regs, l.clear(c, i), view[i := None])
  {
    var after: seq<Option<Watch>> := view[i := None];
    forall j: Index ensures after[j] == Slot(l, regs, l.clear(c, i), j) {
      if i != j { assert SameFields(l, l.clear(c, i), c, j); }
    }
  }

  // ---------------------------------------------------------------- requests

  /** The argument test, which a size of zero does not survive. */
  function Check(addr: nat, size: nat): Outcome {
    if size > 8 || PartOfPower(size) then Refused
    else if size == 0 then Trap
    else if addr % size != 0 then Refused
    else Done
  }

  /** `size & (size - 1)` is not zero. */
  predicate PartOfPower(size: nat)
    requires size <= 8
  {
    (size as bv32) & ((size as bv32) - 1) != 0
  }

  lemma Powers(size: nat)
    requires size <= 8
    ensures PartOfPower(size) <==> size !in {0, 1, 2, 4, 8}
  {
    assert 3 as bv32 & 2 == 2 && 5 as bv32 & 4 == 4 && 6 as bv32 & 5 == 4 && 7 as bv32 & 6 == 6;
    if size == 0 {} else if size == 1 {} else if size == 2 {} else if size == 3 {} else if size == 4 {}
    else if size == 5 {} else if size == 6 {} else if size == 7 {} else {}
  }

  /** Exactly the aligned sizes 1, 2, 4 and 8 are accepted; a size of zero divides by zero. */
  lemma CheckIs(addr: nat, size: nat)
    ensures Check(addr, size) == Done <==> size in {1, 2, 4, 8} && addr % size == 0
    ensures Check(addr, size) == Trap <==> size == 0
  {
    if size <= 8 { Powers(size); }
  }

  /** How often a request asks for `w`: without eight-byte watchpoints, eight bytes are two halves. */
  function Asked(wide: bool, addr: nat, size: nat, w: Watch): nat
    requires size in {1, 2, 4, 8}
  {
    if size == 8 && !wide then if w == Watch(addr, Write, 4) || w == Watch(addr + 4, Write, 4) then 1 else 0
    else if w == Watch(addr, Write, size) then 1 else 0
  }

  function AskedUnits(wide: bool, size: nat): nat { if size == 8 && !wide then 2 else 1 }

  /** `u` holds what `v` holds and what the request asks for. */
  ghost predicate Adds(wide: bool, addr: nat, size: nat, v: seq<Option<Watch>>, u: seq<Option<Watch>>)
    requires size in {1, 2, 4, 8}
  {
    && (forall w :: Count(u, w) == Count(v, w) + Asked(wide, addr, size, w))
    && Used(u) == Used(v) + AskedUnits(wide, size)
  }

  ghost predicate SameWatches(v: seq<Option<Watch>>, u: seq<Option<Watch>>) {
    (forall w :: Count(u, w) == Count(v, w)) && Used(u) == Used(v)
  }

  /** All that the request names is there. */
  ghost predicate Holds(wide: bool, addr: nat, size: nat, v: seq<Option<Watch>>)
    requires size in {1, 2, 4, 8}
  {
    forall w :: Asked(wide, addr, size, w) <= Count(v, w)
  }

  lemma AddsOne(wide: bool, addr: nat, size: nat, v: seq<Option<Watch>>, i: nat, u: seq<Option<Watch>>)
    requires size in {1, 2, 4, 8} && (size != 8 || wide) && i < |v| == |u|
    requires v[i] == None && u == v[i := Some(Watch(addr, Write, size))]
    ensures Adds(wide, addr, size, v, u)
  {
    var o := Some(Watch(addr, Write, size));
    forall w ensures Count(u, w) == Count(v, w) + Asked(wide, addr, size, w) { CountUpdate(v, i, o, w); }
    UsedUpdate(v, i, o);
  }

  lemma HoldsOne(wide: bool, addr: nat, size: nat, v: seq<Option<Watch>>)
    requires size in {1, 2, 4, 8} && (size != 8 || wide)
    ensures Holds(wide, addr, size, v) <==> Some(Watch(addr, Write, size)) in v
  {
    CountHas(v, Watch(addr, Write, size));
    if Holds(wide, addr, size, v) {
      assert Asked(wide, addr, size, Watch(addr, Write, size)) <= Count(v, Watch(addr, Write, size));
    }
  }

  lemma AddsTwo(addr: nat, v: seq<Option<Watch>>, u: seq<Option<Watch>>, t: seq<Option<Watch>>)
    requires Adds(false, addr, 4, v, u) && Adds(false, addr + 4, 4, u, t)
    ensures Adds(false, addr, 8, v, t)
  {
  }

  lemma AddsTwoBack(addr: nat, v: seq<Option<Watch>>, u: seq<Option<Watch>>, t: seq<Option<Watch>>)
    requires Adds(false, addr, 4, u, v) && Adds(false, addr + 4, 4, t, u)
    ensures Adds(false, addr, 8, t, v)
  {
  }

  /** What was added and taken away again. */
  lemma AddsBackSame(addr: nat, v: seq<Option<Watch>>, u: seq<Option<Watch>>, s: seq<Option<Watch>>,
                     t: seq<Option<Watch>>)
    requires Adds(false, addr, 4, v, u) && SameWatches(u, s) && Adds(false, addr, 4, t, s)
    ensures SameWatches(v, t)
  {
  }

  lemma HoldsAfter(wide: bool, addr: nat, size: nat, v: seq<Option<Watch>>, u: seq<Option<Watch>>)
    requires size in {1, 2, 4, 8} && Adds(wide, addr, size, v, u)
    ensures Holds(wide, addr, size, u)
  {
  }

  /** Both halves are there exactly when the first is and, without it, the second. */
  lemma HoldsTwo(addr: nat, v: seq<Option<Watch>>, u: seq<Option<Watch>>)
    requires Adds(false, addr, 4, u, v)
    ensures Holds(false, addr, 8, v) <==> Holds(false, addr + 4, 4, u)
  {
    var x := Watch(addr + 4, Write, 4);
    if Holds(false, addr, 8, v) {
      assert Asked(false, addr, 8, x) <= Count(v, x);
      assert Count(v, x) == Count(u, x);
    }
  }

  lemma HoldsFirst(addr: nat, v: seq<Option<Watch>>)
    requires Holds(false, addr, 8, v)
    ensures Holds(false, addr, 4, v)
  {
    assert Asked(false, addr, 8, Watch(addr, Write, 4)) <= Count(v, Watch(addr, Write, 4));
  }

  lemma HalvesAligned(addr: nat)
    requires addr % 8 == 0
    ensures Check(addr, 4) == Done && Check(addr + 4, 4) == Done
  {
    CheckIs(addr, 4);
    CheckIs(addr + 4, 4);
  }

  /** The first register from `i` on that is off, or their number. */
  function FirstOff(v: seq<Option<Watch>>, i: nat): (k: nat)
    decreases |v| - i
  {
    if i < |v| && v[i].Some? then FirstOff(v, i + 1) else i
  }

  lemma {:induction false} FirstOffIs(v: seq<Option<Watch>>, i: nat)
    requires i <= |v|
    ensures FirstOff(v, i) < |v| <==> None in v[i..]
    decreases |v| - i
  {
    if i < |v| { FirstOffIs(v, i + 1); }
  }

  /** A register that was found, and the number of the next access. */
  datatype Find = Find(at: Index, calls: nat)

  class Registers<C(!new)> {
    /** Whether the machine has eight-byte watchpoints. */
    const wide: bool
    /** Which accesses to the debug registers fail. */
    const fault: nat -> bool
    var calls: nat
    /** An access has failed. */
    var broken: bool
    const layout: Layout<C>
    var regs: seq<nat>
    var control: C
    /** What each register watches. */
    ghost var view: seq<Option<Watch>>

    ghost predicate Valid()
      reads this
    {
      Lawful(layout) && Shows(layout, regs, control, view)
    }

    constructor (wide: bool, fault: nat -> bool, layout: Layout<C>, regs: seq<nat>, control: C)
      requires |regs| == 4 && Lawful(layout)
      ensures Valid() && this.wide == wide && this.fault == fault && this.layout == layout
      ensures !broken && calls == 0 && this.regs == regs && this.control == control
    {
      this.wide, this.fault, this.layout := wide, fault, layout;
      this.calls, this.broken, this.regs, this.control := 0, false, regs, control;
      this.view := [Slot(layout, regs, control, 0), Slot(layout, regs, control, 1),
                    Slot(layout, regs, control, 2), Slot(layout, regs, control, 3)];
    }

    method Access() returns (ok: bool)
      modifies this`calls, this`broken
      ensures if ok then broken == old(broken) else broken
      ensures ok == !fault(old(calls)) && calls == old(calls) + 1
    {
      ok := !fault(calls);
      calls := calls + 1;
      broken := broken || !ok;
    }

    /** The three accesses of an installation from number `c` on work. */
    predicate Works(c: nat) { !fault(c) && !fault(c + 1) && !fault(c + 2) }

    /** How many accesses an installation makes from number `c` on, when a register is free and when none is. */
    function Spent(c: nat, free: bool): nat {
      if fault(c) || !free then 1 else if fault(c + 1) then 2 else 3
    }

    /** Where the search for `w` ends that looks at register `i` next and begins with access number `c`: a
      * register whose address cannot be read is passed over.
      */
    function Seek(v: seq<Option<Watch>>, w: Watch, i: nat, c: nat): (f: Option<Find>)
      requires |v| == 4
      decreases |v| - i
    {
      if i >= 4 then None
      else if v[i].None? || v[i].value.access != w.access || v[i].value.bytes != w.bytes then Seek(v, w, i + 1, c)
      else if !fault(c) && v[i].value.addr == w.addr then Some(Find(i, c + 1))
      else Seek(v, w, i + 1, c + 1)
    }

    /** A removal of `w` from access number `c` on works. */
    predicate Removes(v: seq<Option<Watch>>, w: Watch, c: nat)
      requires |v| == 4
    {
      !fault(c) && Seek(v, w, 0, c + 1).Some? && !fault(Seek(v, w, 0, c + 1).value.calls)
    }

    /** The registers, and the number of the next access, after that removal. */
    function Without(v: seq<Option<Watch>>, w: Watch, c: nat): (seq<Option<Watch>>, nat)
      requires |v| == 4 && Removes(v, w, c)
    {
      var f := Seek(v, w, 0, c + 1).value;
      (v[f.at := None], f.calls + 1)
    }

    /** An installation of eight bytes in halves leaves the first: it is installed, the second has no register or
      * a failing access, and the removal of the first fails.
      */
    predicate Strands(v: seq<Option<Watch>>, addr: nat, c: nat)
      requires |v| == 4
    {
      var w := Watch(addr, Write, 4);
      var k := FirstOff(v, 0);
      && k < 4 && Works(c)
      && !(Used(v) < 3 && Works(c + 3))
      && !Removes(v[k := Some(w)], w, c + 3 + Spent(c + 3, Used(v) < 3))
    }

    /** The first register that is off, or 4. */
    method FirstFree() returns (i: nat)
      requires Valid()
      ensures i == FirstOff(view, 0) <= 4 && (i < 4 ==> view[i] == None) && (i == 4 ==> None !in view)
    {
      i := 0;
      while i < 4 && layout.on(control, i)
        invariant i <= 4 && FirstOff(view, i) == FirstOff(view, 0) && forall j: Index :: j < i ==> view[j].Some?
      {
        i := i + 1;
      }
    }

    /** The part of `ptrace_install_watchpoint` that takes one register. */
    method InstallOne(addr: nat, size: nat) returns (r: Outcome)
      requires Valid() && size in {1, 2, 4, 8} && (size != 8 || wide)
      modifies this
      ensures Valid() && (old(broken) ==> broken) && r != Trap
      ensures r == Done ==> FirstOff(old(view), 0) < 4 && old(view)[FirstOff(old(view), 0)] == None
      ensures r == Done ==> view == old(view)[FirstOff(old(view), 0) := Some(Watch(addr, Write, size))]
      ensures r == Done ==> Adds(wide, addr, size, old(view), view)
      ensures r == Refused ==> view == old(view)
      ensures !broken ==> (r == Done <==> Used(old(view)) < 4)
      ensures r == Done <==> Used(old(view)) < 4 && Works(old(calls))
      ensures calls == old(calls) + Spent(old(calls), Used(old(view)) < 4)
    {
      UsedAll(view);
      var ok := Access();
      if !ok { return Refused; }
      var i := FirstFree();
      if i > 3 { return Refused; }
      CodeOf(addr, size, FlagsOf(size));
      ShowsSet(layout, regs, control, view, i, addr, FlagsOf(size));
      AddsOne(wide, addr, size, view, i, view[i := Some(Watch(addr, Write, size))]);
      ok := Access();
      if !ok { return Refused; }
      regs := regs[i := addr];
      ok := Access();
      if !ok { return Refused; }
      control := layout.set_(control, i, FlagsOf(size));
      view := view[i := Some(Watch(addr, Write, size))];
      r := Done;
    }

    /** The first register that watches writes to `size` bytes from `addr` on, or 4. */
    method FindWatch(addr: nat, size: nat, flags: bv4) returns (i: nat)
      requires Valid() && size in {1, 2, 4, 8} && flags == FlagsOf(size)
      modifies this`calls, this`broken
      ensures i <= 4 && (old(broken) ==> broken)
      ensures i < 4 ==> view[i] == Some(Watch(addr, Write, size))
      ensures i == 4 && !broken ==> Some(Watch(addr, Write, size)) !in view
      ensures Seek(view, Watch(addr, Write, size), 0, old(calls)) == if i < 4 then Some(Find(i, calls)) else None
    {
      i := 0;
      while i < 4
        invariant Seek(view, Watch(addr, Write, size), i, calls) == Seek(view, Watch(addr, Write, size), 0, old(calls))
        invariant i <= 4 && (old(broken) ==> broken)
        invariant broken || forall j: Index :: j < i ==> view[j] != Some(Watch(addr, Write, size))
      {
        CodeOf(regs[i], size, layout.field(control, i));
        if layout.on(control, i) && layout.field(control, i) == flags {
          var ok := Access();
          if ok && regs[i] == addr { return; }
        }
        i := i + 1;
      }
    }

    /** The part of `ptrace_uninstall_watchpoint` that frees one register. */
    method UninstallOne(addr: nat, size: nat) returns (r: Outcome)
      requires Valid() && size in {1, 2, 4, 8} && (size != 8 || wide)
      modifies this
      ensures Valid() && (old(broken) ==> broken) && r != Trap
      ensures r == Done <==> Removes(old(view), Watch(addr, Write, size), old(calls))
      ensures r == Done ==> (view, calls) == Without(old(view), Watch(addr, Write, size), old(calls))
      ensures r == Done ==> Adds(wide, addr, size, view, old(view))
      ensures r == Refused ==> view == old(view)
      ensures !broken ==> (r == Done <==> Holds(wide, addr, size, old(view)))
    {
      HoldsOne(wide, addr, size, view);
      var ok := Access();
      if !ok { return Refused; }
      var i := FindWatch(addr, size, FlagsOf(size));
      if i > 3 { return Refused; }
      ShowsCleared(layout, regs, control, view, i);
      assert view[i := None][i := view[i]] == view;
      AddsOne(wide, addr, size, view[i := None], i, view);
      ok := Access();
      if !ok { return Refused; }
      control := layout.clear(control, i);
      view := view[i := None];
      r := Done;
    }

    /** `ptrace_install_watchpoint`: the registers gain exactly what was asked for, or nothing, or half of an
      * eight-byte watchpoint exactly when it strands.
      */
    method Install(addr: nat, size: nat) returns (r: Outcome)
      requires Valid()
      modifies this
      ensures Valid() && (old(broken) ==> broken)
      ensures Check(addr, size) != Done ==> r == Check(addr, size) && view == old(view) && broken == old(broken)
      ensures Check(addr, size) == Done ==> size in {1, 2, 4, 8} && r != Trap
      ensures r == Done ==> Check(addr, size) == Done && Adds(wide, addr, size, old(view), view)
      ensures r == Refused && (size != 8 || wide) ==> view == old(view)
      ensures Check(addr, size) == Done && !broken ==>
                (r == Done <==> Used(old(view)) + AskedUnits(wide, size) <= 4)
      ensures Check(addr, size) == Done && size == 8 && !wide ==> InHalves(addr, r, old(view), view, old(calls))
      ensures Check(addr, size) == Done && (size != 8 || wide) ==>
                InOne(Watch(addr, Write, size), r, old(view), view, old(calls), calls)
      ensures r == Refused && !broken ==> SameWatches(old(view), view)
      decreases size, 1
    {
      CheckIs(addr, size);
      r := Check(addr, size);
      if r != Done { return; }
      if size == 8 && !wide {
        r := InstallHalves(addr);
      } else {
        r := InstallOne(addr, size);
      }
    }

    /** One register is taken, the first that is off, exactly when there is one and the three accesses work. */
    ghost predicate InOne(w: Watch, r: Outcome, v: seq<Option<Watch>>, u: seq<Option<Watch>>, c: nat, d: nat) {
      && |v| == 4 && (r == Done <==> Used(v) < 4 && Works(c)) && d == c + Spent(c, Used(v) < 4)
      && (r == Done ==> FirstOff(v, 0) < 4 && u == v[FirstOff(v, 0) := Some(w)])
    }

    /** Two registers are taken exactly when they are free and all accesses work, and otherwise one or none. */
    ghost predicate InHalves(addr: nat, r: Outcome, v: seq<Option<Watch>>, u: seq<Option<Watch>>, c: nat) {
      && |v| == 4 && (r == Done <==> Used(v) < 3 && Works(c) && Works(c + 3))
      && (r != Done ==> if Strands(v, addr, c) then Adds(false, addr, 4, v, u) else SameWatches(v, u))
    }

    /** Two four-byte watchpoints, or neither unless it strands. */
    method InstallHalves(addr: nat) returns (r: Outcome)
      requires Valid() && addr % 8 == 0 && !wide
      modifies this
      ensures Valid() && (old(broken) ==> broken) && r != Trap
      ensures r == Done ==> Adds(wide, addr, 8, old(view), view)
      ensures r == Refused && !broken ==> SameWatches(old(view), view)
      ensures !broken ==> (r == Done <==> Used(old(view)) <= 2)
      ensures InHalves(addr, r, old(view), view, old(calls))
      decreases 8, 0
    {
      HalvesAligned(addr);
      ghost var w := Watch(addr, Write, 4);
      ghost var none, c := view, calls;
      FirstOffIs(none, 0);
      UsedAll(none);
      r := Install(addr, 4);
      if r != Done { return; }
      ghost var half, d := view, calls;
      r := Install(addr + 4, 4);
      if r == Done {
        AddsTwo(addr, none, half, view);
      } else {
        HoldsAfter(false, addr, 4, none, half);
        ghost var e := calls;
        var undone := Uninstall(addr, 4);
        if undone == Done { AddsBackSame(addr, none, half, half, view); }
        StrandsIff(addr, none, half, c, d, e, undone, view, calls);
      }
    }

    /** The first half is installed, the second is refused, and the first is asked to go again. */
    lemma StrandsIff(addr: nat, v: seq<Option<Watch>>, h: seq<Option<Watch>>, c: nat, d: nat, e: nat,
                     undone: Outcome, u: seq<Option<Watch>>, f: nat)
      requires InOne(Watch(addr, Write, 4), Done, v, h, c, d) && Adds(false, addr, 4, v, h)
      requires InOne(Watch(addr + 4, Write, 4), Refused, h, h, d, e)
      requires OutOne(Watch(addr, Write, 4), undone, h, u, e, f)
      ensures Strands(v, addr, c) <==> undone != Done
    {
    }

    /** One register is freed exactly when the removal works. */
    ghost predicate OutOne(w: Watch, r: Outcome, v: seq<Option<Watch>>, u: seq<Option<Watch>>, c: nat, d: nat) {
      && |v| == 4 && (r == Done <==> Removes(v, w, c))
      && (if r == Done then (u, d) == Without(v, w, c) else u == v)
    }

    /** Two registers are freed exactly when both removals work, and otherwise one or none. */
    ghost predicate OutHalves(addr: nat, r: Outcome, v: seq<Option<Watch>>, u: seq<Option<Watch>>, c: nat) {
      var w := Watch(addr, Write, 4);
      && |v| == 4
      && (r == Done <==> Removes(v, w, c) && var (h, d) := Without(v, w, c); Removes(h, Watch(addr + 4, Write, 4), d))
      && (r != Done ==> if Removes(v, w, c) then Adds(false, addr, 4, u, v) else u == v)
    }

    /** `ptrace_uninstall_watchpoint`: exactly what was asked for goes. A request for eight bytes of which only
      * the first half is watched is refused after that half is gone.
      */
    method Uninstall(addr: nat, size: nat) returns (r: Outcome)
      requires Valid()
      modifies this
      ensures Valid() && (old(broken) ==> broken)
      ensures Check(addr, size) != Done ==> r == Check(addr, size) && view == old(view) && broken == old(broken)
      ensures Check(addr, size) == Done ==> size in {1, 2, 4, 8} && r != Trap
      ensures r == Done ==> Check(addr, size) == Done && Adds(wide, addr, size, view, old(view))
      ensures Check(addr, size) == Done && !broken ==> (r == Done <==> Holds(wide, addr, size, old(view)))
      ensures Check(addr, size) == Done && size == 8 && !wide ==> OutHalves(addr, r, old(view), view, old(calls))
      ensures Check(addr, size) == Done && size == 8 && !wide && !broken && r == Refused ==>
                if Holds(wide, addr, 4, old(view)) then Adds(wide, addr, 4, view, old(view)) else view == old(view)
      ensures Check(addr, size) == Done && (size != 8 || wide) ==>
                OutOne(Watch(addr, Write, size), r, old(view), view, old(calls), calls)
      decreases size, 1
    {
      CheckIs(addr, size);
      r := Check(addr, size);
      if r != Done { return; }
      if size == 8 && !wide {
        r := UninstallHalves(addr);
      } else {
        r := UninstallOne(addr, size);
      }
    }

    method UninstallHalves(addr: nat) returns (r: Outcome)
      requires Valid() && addr % 8 == 0 && !wide
      modifies this
      ensures Valid() && (old(broken) ==> broken) && r != Trap
      ensures r == Done ==> Adds(wide, addr, 8, view, old(view))
      ensures !broken ==> (r == Done <==> Holds(wide, addr, 8, old(view)))
      ensures !broken && r == Refused ==>
                if Holds(wide, addr, 4, old(view)) then Adds(wide, addr, 4, view, old(view)) else view == old(view)
      ensures OutHalves(addr, r, old(view), view, old(calls))
      decreases 8, 0
    {
      HalvesAligned(addr);
      ghost var both := view;
      r := Uninstall(addr, 4);
      if Holds(false, addr, 8, both) { HoldsFirst(addr, both); }
      if r != Done { return; }
      HoldsTwo(addr, both, view);
      ghost var half := view;
      r := Uninstall(addr + 4, 4);
      if r == Done { AddsTwoBack(addr, both, half, view); }
    }
  }

  /** The debug registers of an x86 process. */
  method X86Registers(wide: bool, fault: nat -> bool, regs: seq<nat>, control: bv32) returns (r: Registers<bv32>)
    requires |regs| == 4
    ensures fresh(r) && r.Valid() && r.layout == Dr7() && r.control == control && r.regs == regs
    ensures r.wide == wide && r.fault == fault && r.calls == 0 && !r.broken
  {
    Dr7Lawful();
    r := new Registers(wide, fault, Dr7(), regs, control);
  }

  /** Half of an eight-byte watchpoint can be left: the second half is refused by a failing access, and so is the
    * removal of the first.
    */
  method HalfIsLeft(addr: nat) returns (r: Outcome, regs: Registers<bv32>)
    requires addr % 8 == 0
    ensures r == Refused && fresh(regs) && regs.Valid() && Some(Watch(addr, Write, 4)) in regs.view
    ensures Some(Watch(addr + 4, Write, 4)) !in regs.view
  {
    regs := X86Registers(false, c => c >= 3, [0, 0, 0, 0], 0);
    AllOff(regs.regs, regs.view);
    ghost var before := regs.view;
    CheckIs(addr, 8);
    r := regs.Install(addr, 8);
    OnlyHalf(addr, before, regs.view);
  }

  lemma AllOff(regs: seq<nat>, view: seq<Option<Watch>>)
    requires Shows(Dr7(), regs, 0, view)
    ensures Used(view) == 0 && forall w :: Count(view, w) == 0
  {
    forall i: Index ensures view[i] == None { NoneEnabled(i); }
    AllNone(view);
  }

  lemma {:induction false} AllNone(view: seq<Option<Watch>>)
    requires forall i :: 0 <= i < |view| ==> view[i] == None
    ensures Used(view) == 0 && forall w :: Count(view, w) == 0
  {
    if view != [] { AllNone(view[1..]); }
  }

  lemma OnlyHalf(addr: nat, before: seq<Option<Watch>>, view: seq<Option<Watch>>)
    requires Adds(false, addr, 4, before, view) && forall w :: Count(before, w) == 0
    ensures Some(Watch(addr, Write, 4)) in view && Some(Watch(addr + 4, Write, 4)) !in view
  {
    CountHas(view, Watch(addr, Write, 4));
    CountHas(view, Watch(addr + 4, Write, 4));
  }
}
