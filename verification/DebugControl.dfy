/** The control register DR7 of the x86 debug registers, laid out as in section 17.2.4 of the Intel Software
  * Developer's Manual, Volume 3B, and updated as ups/ao_ptrace.c does.
  */
module DebugControl {

  type Index = i: nat | i < 4

  /** A control word `C` with four enable flags and four access and length fields. */
  datatype Layout<!C> = Layout(on: (C, Index) -> bool, field: (C, Index) -> bv4,
                               set_: (C, Index, bv4) -> C, clear: (C, Index) -> C)

  predicate SameFields<C>(l: Layout<C>, c: C, d: C, i: Index) {
    l.on(c, i) == l.on(d, i) && l.field(c, i) == l.field(d, i)
  }

  /** Each register is set up and turned off without a trace in the others. */
  ghost predicate Lawful<C(!new)>(l: Layout<C>) {
    && (forall c, i, f :: l.on(l.set_(c, i, f), i) && l.field(l.set_(c, i, f), i) == f)
    && (forall c, i, f, j :: i != j ==> SameFields(l, l.set_(c, i, f), c, j))
    && (forall c, i :: !l.on(l.clear(c, i), i))
    && (forall c, i, j :: i != j ==> SameFields(l, l.clear(c, i), c, j))
  }

  // ---------------------------------------------------------------- the control register

  const LOCAL_SLOWDOWN: bv32 := 0x100

  /** The local and global enable bits of register `i`. */
  function EnableBits(i: Index): bv32 {
    if i == 0 then 0x3 else if i == 1 then 0xc else if i == 2 then 0x30 else 0xc0
  }

  function LocalBit(i: Index): bv32 {
    if i == 0 then 0x1 else if i == 1 then 0x4 else if i == 2 then 0x10 else 0x40
  }

  /** The access and length bits of register `i`. */
  function FieldBits(i: Index): bv32 {
    if i == 0 then 0xf0000 else if i == 1 then 0xf00000 else if i == 2 then 0xf000000 else 0xf0000000
  }

  function ToField(flags: bv4, i: Index): bv32 {
    var f := flags as bv32;
    if i == 0 then f << 16 else if i == 1 then f << 20 else if i == 2 then f << 24 else f << 28
  }

  function Field(control: bv32, i: Index): bv4 {
    if i == 0 then ((control >> 16) & 0xf) as bv4 else if i == 1 then ((control >> 20) & 0xf) as bv4
    else if i == 2 then ((control >> 24) & 0xf) as bv4 else ((control >> 28) & 0xf) as bv4
  }

  predicate Enabled(control: bv32, i: Index) { control & EnableBits(i) != 0 }

  /** The control register after register `i` is set up, and after it is turned off. */
  function WithWatch(control: bv32, i: Index, flags: bv4): bv32 {
    ((control & !FieldBits(i)) | ToField(flags, i) | LocalBit(i)) | LOCAL_SLOWDOWN
  }

  function Without(control: bv32, i: Index): bv32 { control & !EnableBits(i) }

  /** All bits of the control register but those of register `i` and the slowdown bit. */
  function Others(i: Index): bv32 {
    if i == 0 then 0xfff0fefc else if i == 1 then 0xff0ffef3 else if i == 2 then 0xf0fffecf else 0x0ffffe3f
  }

  predicate OnlyAt(c: bv32, d: bv32, i: Index) { c & Others(i) == d & Others(i) }

  lemma SetAt0(c: bv32, flags: bv4)
    ensures var d := WithWatch(c, 0, flags);
            Enabled(d, 0) && Field(d, 0) == flags && OnlyAt(c, d, 0)
  {
  }

  lemma SetAt1(c: bv32, flags: bv4)
    ensures var d := WithWatch(c, 1, flags);
            Enabled(d, 1) && Field(d, 1) == flags && OnlyAt(c, d, 1)
  {
  }

  lemma SetAt2(c: bv32, flags: bv4)
    ensures var d := WithWatch(c, 2, flags);
            Enabled(d, 2) && Field(d, 2) == flags && OnlyAt(c, d, 2)
  {
  }

  lemma SetAt3(c: bv32, flags: bv4)
    ensures var d := WithWatch(c, 3, flags);
            Enabled(d, 3) && Field(d, 3) == flags && OnlyAt(c, d, 3)
  {
  }

  lemma Same0(c: bv32, d: bv32)
    requires (c & 0x3 != 0) == (d & 0x3 != 0) && (c >> 16) & 0xf == (d >> 16) & 0xf
    ensures SameAt(c, d, 0)
  {
  }

  lemma Same1(c: bv32, d: bv32)
    requires (c & 0xc != 0) == (d & 0xc != 0) && (c >> 20) & 0xf == (d >> 20) & 0xf
    ensures SameAt(c, d, 1)
  {
  }

  lemma Same2(c: bv32, d: bv32)
    requires (c & 0x30 != 0) == (d & 0x30 != 0) && (c >> 24) & 0xf == (d >> 24) & 0xf
    ensures SameAt(c, d, 2)
  {
  }

  lemma Same3(c: bv32, d: bv32)
    requires (c & 0xc0 != 0) == (d & 0xc0 != 0) && (c >> 28) & 0xf == (d >> 28) & 0xf
    ensures SameAt(c, d, 3)
  {
  }

  lemma Apart0(c: bv32, d: bv32)
    requires c & 0xfff0fefc == d & 0xfff0fefc
    ensures (c & 0xc != 0) == (d & 0xc != 0) && (c >> 20) & 0xf == (d >> 20) & 0xf
    ensures (c & 0x30 != 0) == (d & 0x30 != 0) && (c >> 24) & 0xf == (d >> 24) & 0xf
    ensures (c & 0xc0 != 0) == (d & 0xc0 != 0) && (c >> 28) & 0xf == (d >> 28) & 0xf
  {
  }

  lemma Apart1(c: bv32, d: bv32)
    requires c & 0xff0ffef3 == d & 0xff0ffef3
    ensures (c & 0x3 != 0) == (d & 0x3 != 0) && (c >> 16) & 0xf == (d >> 16) & 0xf
    ensures (c & 0x30 != 0) == (d & 0x30 != 0) && (c >> 24) & 0xf == (d >> 24) & 0xf
    ensures (c & 0xc0 != 0) == (d & 0xc0 != 0) && (c >> 28) & 0xf == (d >> 28) & 0xf
  {
  }

  lemma Apart2(c: bv32, d: bv32)
    requires c & 0xf0fffecf == d & 0xf0fffecf
    ensures (c & 0x3 != 0) == (d & 0x3 != 0) && (c >> 16) & 0xf == (d >> 16) & 0xf
    ensures (c & 0xc != 0) == (d & 0xc != 0) && (c >> 20) & 0xf == (d >> 20) & 0xf
    ensures (c & 0xc0 != 0) == (d & 0xc0 != 0) && (c >> 28) & 0xf == (d >> 28) & 0xf
  {
  }

  lemma Apart3(c: bv32, d: bv32)
    requires c & 0x0ffffe3f == d & 0x0ffffe3f
    ensures (c & 0x3 != 0) == (d & 0x3 != 0) && (c >> 16) & 0xf == (d >> 16) & 0xf
    ensures (c & 0xc != 0) == (d & 0xc != 0) && (c >> 20) & 0xf == (d >> 20) & 0xf
    ensures (c & 0x30 != 0) == (d & 0x30 != 0) && (c >> 24) & 0xf == (d >> 24) & 0xf
  {
  }

  lemma From0(c: bv32, d: bv32, j: Index)
    requires OnlyAt(c, d, 0) && j != 0
    ensures SameAt(c, d, j)
  {
    Apart0(c, d);
    if j == 1 { Same1(c, d); } else if j == 2 { Same2(c, d); } else { Same3(c, d); }
  }

  lemma From1(c: bv32, d: bv32, j: Index)
    requires OnlyAt(c, d, 1) && j != 1
    ensures SameAt(c, d, j)
  {
    Apart1(c, d);
    if j == 0 { Same0(c, d); } else if j == 2 { Same2(c, d); } else { Same3(c, d); }
  }

  lemma From2(c: bv32, d: bv32, j: Index)
    requires OnlyAt(c, d, 2) && j != 2
    ensures SameAt(c, d, j)
  {
    Apart2(c, d);
    if j == 0 { Same0(c, d); } else if j == 1 { Same1(c, d); } else { Same3(c, d); }
  }

  lemma From3(c: bv32, d: bv32, j: Index)
    requires OnlyAt(c, d, 3) && j != 3
    ensures SameAt(c, d, j)
  {
    Apart3(c, d);
    if j == 0 { Same0(c, d); } else if j == 1 { Same1(c, d); } else { Same2(c, d); }
  }

  predicate SameAt(c: bv32, d: bv32, j: Index) { Enabled(c, j) == Enabled(d, j) && Field(c, j) == Field(d, j) }

  /** A change of one register shows in no other. */
  lemma Apart(c: bv32, d: bv32, i: Index, j: Index)
    requires OnlyAt(c, d, i) && i != j
    ensures SameAt(c, d, j)
  {
    if i == 0 { From0(c, d, j); } else if i == 1 { From1(c, d, j); }
    else if i == 2 { From2(c, d, j); } else { From3(c, d, j); }
  }

  /** Setting up a register changes its own fields as asked and no other register's. */
  lemma SetField(c: bv32, i: Index, flags: bv4)
    ensures OnlyAt(c, WithWatch(c, i, flags), i)
    ensures Enabled(WithWatch(c, i, flags), i) && Field(WithWatch(c, i, flags), i) == flags
  {
    if i == 0 { SetAt0(c, flags); } else if i == 1 { SetAt1(c, flags); }
    else if i == 2 { SetAt2(c, flags); } else { SetAt3(c, flags); }
  }

  /** Apart from the enable bits of register `i` the two words agree. */
  predicate Besides(c: bv32, d: bv32, i: Index) { c & !EnableBits(i) == d & !EnableBits(i) }

  /** Turning a register off changes its enable bits and nothing else. */
  lemma ClearField(c: bv32, i: Index)
    ensures OnlyAt(c, Without(c, i), i) && !Enabled(Without(c, i), i) && Besides(Without(c, i), c, i)
  {
    Cleared(c, i);
    ClearedBesides(c, i);
  }

  lemma ClearedBesides(c: bv32, i: Index)
    ensures Besides(Without(c, i), c, i)
  {
    ClearedTwice(c, EnableBits(i));
  }

  lemma Cleared(c: bv32, i: Index)
    ensures OnlyAt(c, Without(c, i), i) && !Enabled(Without(c, i), i)
  {
    if i == 0 { Cleared0(c); } else if i == 1 { Cleared1(c); } else if i == 2 { Cleared2(c); } else { Cleared3(c); }
  }

  lemma ClearedTwice(c: bv32, e: bv32)
    ensures (c & !e) & !e == c & !e
  {
  }

  lemma Cleared0(c: bv32)
    ensures OnlyAt(c, Without(c, 0), 0) && !Enabled(Without(c, 0), 0)
  {
  }

  lemma Cleared1(c: bv32)
    ensures OnlyAt(c, Without(c, 1), 1) && !Enabled(Without(c, 1), 1)
  {
  }

  lemma Cleared2(c: bv32)
    ensures OnlyAt(c, Without(c, 2), 2) && !Enabled(Without(c, 2), 2)
  {
  }

  lemma Cleared3(c: bv32)
    ensures OnlyAt(c, Without(c, 3), 3) && !Enabled(Without(c, 3), 3)
  {
  }

  // ---------------------------------------------------------------- the layout, bit by bit

  /** The bits that setting up register `i` may change. */
  function Touched(i: Index): bv32 { LocalBit(i) | FieldBits(i) | LOCAL_SLOWDOWN }

  /** `d` is `c` with register `i` set up: its local enable bit and the slowdown bit are set, and every bit besides
    * these two and its field is as it was, its global enable bit as well. /
    */
  predicate SetUp(c: bv32, d: bv32, i: Index) {
    && d & LocalBit(i) == LocalBit(i) && d & LOCAL_SLOWDOWN == LOCAL_SLOWDOWN
    && d & !Touched(i) == c & !Touched(i)
  }

  lemma SetExactly(c: bv32, i: Index, flags: bv4)
    ensures SetUp(c, WithWatch(c, i, flags), i)
  {
    if i == 0 { SetUp0(c, flags); } else if i == 1 { SetUp1(c, flags); }
    else if i == 2 { SetUp2(c, flags); } else { SetUp3(c, flags); }
  }

  lemma SetUp0(c: bv32, flags: bv4)
    ensures SetUp(c, WithWatch(c, 0, flags), 0)
  {
  }

  lemma SetUp1(c: bv32, flags: bv4)
    ensures SetUp(c, WithWatch(c, 1, flags), 1)
  {
  }

  lemma SetUp2(c: bv32, flags: bv4)
    ensures SetUp(c, WithWatch(c, 2, flags), 2)
  {
  }

  lemma SetUp3(c: bv32, flags: bv4)
    ensures SetUp(c, WithWatch(c, 3, flags), 3)
  {
    var t := ToField(flags, 3);
    assert t & 0x0fffffff == 0;
    TopField(c, t);
    assert !Touched(3) == 0x0ffffebf && !FieldBits(3) == 0x0fffffff;
  }

  lemma TopField(c: bv32, t: bv32)
    requires t & 0x0fffffff == 0
    ensures (((c & 0x0fffffff) | t | 0x40) | 0x100) & 0x0ffffebf == c & 0x0ffffebf
    ensures (((c & 0x0fffffff) | t | 0x40) | 0x100) & 0x40 == 0x40
    ensures (((c & 0x0fffffff) | t | 0x40) | 0x100) & 0x100 == 0x100
  {
  }

  /** Where the manual puts the bits of register `i`: enable bits from bit 2i on, the local one first, and four bits of
    * access and length from bit 16 + 4i on. The slowdown bit is bit 8.
    */
  lemma Positions(c: bv32, i: Index)
    ensures LocalBit(i) == 1 << (2 * i) && EnableBits(i) == 3 << (2 * i) && LOCAL_SLOWDOWN == 1 << 8
    ensures FieldBits(i) == 0xf << (16 + 4 * i) && Field(c, i) == ((c >> (16 + 4 * i)) & 0xf) as bv4
  {
    if i == 0 {} else if i == 1 {} else if i == 2 {} else {}
  }

  /** In a zero control register nothing is enabled. */
  lemma NoneEnabled(i: Index)
    ensures !Enabled(0, i)
  {
    if i == 0 { assert !Enabled(0, 0); } else if i == 1 { assert !Enabled(0, 1); }
    else if i == 2 { assert !Enabled(0, 2); } else { assert !Enabled(0, 3); }
  }

  /** The layout of DR7. */
  function Dr7(): Layout<bv32> { Layout(Enabled, Field, WithWatch, Without) }

  lemma SetSame(c: bv32, i: Index, f: bv4, j: Index)
    requires i != j
    ensures SameFields(Dr7(), WithWatch(c, i, f), c, j)
  {
    SetField(c, i, f);
    Apart(c, WithWatch(c, i, f), i, j);
  }

  lemma ClearSame(c: bv32, i: Index, j: Index)
    requires i != j
    ensures SameFields(Dr7(), Without(c, i), c, j)
  {
    ClearField(c, i);
    Apart(c, Without(c, i), i, j);
  }

  /** No register's fields in DR7 are touched by an update for another. */
  lemma Dr7Lawful()
    ensures Lawful(Dr7())
  {
    var l := Dr7();
    forall c, i, f ensures l.on(l.set_(c, i, f), i) && l.field(l.set_(c, i, f), i) == f { SetField(c, i, f); }
    forall c, i, f, j | i != j ensures SameFields(l, l.set_(c, i, f), c, j) { SetSame(c, i, f, j); }
    forall c, i ensures !l.on(l.clear(c, i), i) { ClearField(c, i); }
    forall c, i, j | i != j ensures SameFields(l, l.clear(c, i), c, j) { ClearSame(c, i, j); }
  }
}
