/** The bit vector of symbols already dealt with (ups/ao_symread.c), in slots of 32 bits. */
module BitVector {

  // ---------------------------------------------------------------- any kind of slot

  /** Slots and masks: a mask is doubled, a slot halved; `hit` tests a slot under a mask, and `roomy` says that
    * doubling a mask loses nothing.
    */
  datatype Slots<!B> = Slots(none: B, all: B, one: B, double: B -> B, halve: B -> B, odd: B -> bool,
                             hit: (B, B) -> bool, join: (B, B) -> B, roomy: B -> bool)

  /** The mask of bit `k`, by repeated doubling as in the search. */
  function Up<B>(double: B -> B, m: B, k: nat): B { if k == 0 then m else double(Up(double, m, k - 1)) }

  function Mask<B>(l: Slots<B>, k: nat): B { Up(l.double, l.one, k) }

  predicate Bit<B>(l: Slots<B>, slot: B, k: nat) { l.hit(slot, Mask(l, k)) }

  /** The bit found by halving the slot instead. */
  predicate Halved<B>(l: Slots<B>, slot: B, k: nat) {
    if k == 0 then l.odd(slot) else Halved(l, l.halve(slot), k - 1)
  }

  ghost predicate TestLaws<B(!new)>(l: Slots<B>) {
    && (forall s :: l.hit(s, l.one) == l.odd(s))
    && (forall s, m :: l.roomy(m) ==> l.hit(s, l.double(m)) == l.hit(l.halve(s), m))
  }

  ghost predicate JoinLaws<B(!new)>(l: Slots<B>) {
    && (forall s :: l.odd(l.join(s, l.one)) && l.halve(l.join(s, l.one)) == l.halve(s))
    && (forall s, m :: l.roomy(m) ==> l.odd(l.join(s, l.double(m))) == l.odd(s))
    && (forall s, m :: l.roomy(m) ==> l.halve(l.join(s, l.double(m))) == l.join(l.halve(s), m))
  }

  ghost predicate EndLaws<B(!new)>(l: Slots<B>) {
    && (forall k: nat :: k < 31 ==> l.roomy(Mask(l, k)))
    && (forall m :: l.join(l.all, m) == l.all && !l.hit(l.none, m))
  }

  ghost predicate Lawful<B(!new)>(l: Slots<B>) { TestLaws(l) && JoinLaws(l) && EndLaws(l) }

  lemma {:induction false} BitIsHalved<B(!new)>(l: Slots<B>, slot: B, k: nat)
    requires Lawful(l) && k < 32
    ensures Bit(l, slot, k) <==> Halved(l, slot, k)
    decreases k
  {
    if k > 0 {
      assert l.roomy(Mask(l, k - 1));
      BitIsHalved(l, l.halve(slot), k - 1);
    }
  }

  lemma {:induction false} JoinHalved<B(!new)>(l: Slots<B>, slot: B, k: nat, j: nat)
    requires Lawful(l) && k < 32
    ensures Halved(l, l.join(slot, Mask(l, k)), j) <==> j == k || Halved(l, slot, j)
    decreases k
  {
    if k > 0 {
      assert l.roomy(Mask(l, k - 1)) && Mask(l, k) == l.double(Mask(l, k - 1));
      if j > 0 { JoinHalved(l, l.halve(slot), k - 1, j - 1); }
    }
  }

  /** Setting one bit sets that bit and no other. */
  lemma SetBit<B(!new)>(l: Slots<B>, slot: B, k: nat, j: nat)
    requires Lawful(l) && k < 32 && j < 32
    ensures Bit(l, l.join(slot, Mask(l, k)), j) <==> j == k || Bit(l, slot, j)
  {
    JoinHalved(l, slot, k, j);
    BitIsHalved(l, slot, j);
    BitIsHalved(l, l.join(slot, Mask(l, k)), j);
  }

  lemma EmptyAndFull<B(!new)>(l: Slots<B>, k: nat)
    requires Lawful(l) && k < 32
    ensures !Bit(l, l.none, k) && Bit(l, l.all, k)
  {
    SetBit(l, l.all, k, k);
    assert l.join(l.all, Mask(l, k)) == l.all;
  }

  // ---------------------------------------------------------------- words of 32 bits

  function Double(m: bv32): bv32 { m << 1 }

  function Halve(s: bv32): bv32 { s >> 1 }

  predicate Odd(s: bv32) { s & 1 != 0 }

  predicate Hit(s: bv32, m: bv32) { s & m != 0 }

  function Join(s: bv32, m: bv32): bv32 { s | m }

  predicate Roomy(m: bv32) { m & 0x80000000 == 0 }

  /** Slots of 32 bits with integer masks. */
  function Words(): Slots<bv32> { Slots(0, 0xffffffff, 1, Double, Halve, Odd, Hit, Join, Roomy) }

  lemma HitDouble(s: bv32, m: bv32)
    requires Roomy(m)
    ensures Hit(s, Double(m)) == Hit(Halve(s), m)
  {
  }

  lemma JoinOne(s: bv32)
    ensures Odd(Join(s, 1)) && Halve(Join(s, 1)) == Halve(s) && Hit(s, 1) == Odd(s)
  {
  }

  lemma OrDouble(s: bv32, m: bv32)
    requires m & 0x80000000 == 0
    ensures (s | (m << 1)) & 1 == s & 1
    ensures (s | (m << 1)) >> 1 == (s >> 1) | m
  {
    assert (s | (m << 1)) >> 1 == (s >> 1) | ((m << 1) >> 1);
    assert (m << 1) >> 1 == m;
  }

  lemma JoinDouble(s: bv32, m: bv32)
    requires Roomy(m)
    ensures Odd(Join(s, Double(m))) == Odd(s) && Halve(Join(s, Double(m))) == Join(Halve(s), m)
  {
    OrDouble(s, m);
  }

  lemma JoinEnds(m: bv32)
    ensures Join(0xffffffff, m) == 0xffffffff && !Hit(0, m)
  {
  }

  function Power(k: nat): bv32 { if k == 0 then 1 else Power(k - 1) << 1 }

  lemma {:induction false} UpIsPower(k: nat)
    ensures Up(Double, 1, k) == Power(k)
  {
    if k > 0 { UpIsPower(k - 1); }
  }

  lemma PowerRoomy(k: nat)
    requires k < 31
    ensures Roomy(Power(k))
  {
    assert Power(0) == 0x1; assert Power(1) == 0x2; assert Power(2) == 0x4; assert Power(3) == 0x8;
    assert Power(4) == 0x10; assert Power(5) == 0x20; assert Power(6) == 0x40; assert Power(7) == 0x80;
    assert Power(8) == 0x100; assert Power(9) == 0x200; assert Power(10) == 0x400; assert Power(11) == 0x800;
    assert Power(12) == 0x1000; assert Power(13) == 0x2000; assert Power(14) == 0x4000; assert Power(15) == 0x8000;
    assert Power(16) == 0x10000; assert Power(17) == 0x20000; assert Power(18) == 0x40000; assert Power(19) == 0x80000;
    assert Power(20) == 0x100000; assert Power(21) == 0x200000; assert Power(22) == 0x400000;
    assert Power(23) == 0x800000;
    assert Power(24) == 0x1000000; assert Power(25) == 0x2000000; assert Power(26) == 0x4000000;
    assert Power(27) == 0x8000000;
    assert Power(28) == 0x10000000; assert Power(29) == 0x20000000; assert Power(30) == 0x40000000;
  }

  lemma WordsTest()
    ensures TestLaws(Words())
  {
    var l := Words();
    forall s ensures l.hit(s, l.one) == l.odd(s) { JoinOne(s); }
    forall s, m | l.roomy(m) ensures l.hit(s, l.double(m)) == l.hit(l.halve(s), m) { HitDouble(s, m); }
  }

  lemma WordsJoin()
    ensures JoinLaws(Words())
  {
    var l := Words();
    forall s ensures l.odd(l.join(s, l.one)) && l.halve(l.join(s, l.one)) == l.halve(s) { JoinOne(s); }
    forall s, m | l.roomy(m) ensures l.odd(l.join(s, l.double(m))) == l.odd(s) { JoinDouble(s, m); }
    forall s, m | l.roomy(m) ensures l.halve(l.join(s, l.double(m))) == l.join(l.halve(s), m) { JoinDouble(s, m); }
  }

  lemma WordsEnds()
    ensures EndLaws(Words())
  {
    var l := Words();
    forall k: nat | k < 31 ensures l.roomy(Mask(l, k)) {
      UpIsPower(k);
      PowerRoomy(k);
    }
    forall m ensures l.join(l.all, m) == l.all && !l.hit(l.none, m) { JoinEnds(m); }
  }

  lemma WordsLawful()
    ensures Lawful(Words())
  {
    WordsTest();
    WordsJoin();
    WordsEnds();
  }

  // ---------------------------------------------------------------- the vector

  /** Bit `s` of a vector. */
  ghost predicate Has<B>(l: Slots<B>, v: seq<B>, s: nat)
    requires s / 32 < |v|
  {
    Bit(l, v[s / 32], s % 32)
  }

  lemma HasAt<B>(l: Slots<B>, v: seq<B>, i: nat, k: nat)
    requires i < |v| && k < 32
    ensures (32 * i + k) / 32 == i && (32 * i + k) % 32 == k && Has(l, v, 32 * i + k) == Bit(l, v[i], k)
  {
  }

  ghost predicate Marks<B>(l: Slots<B>, v: seq<B>, marked: set<nat>) {
    forall s: nat :: s / 32 < |v| ==> (Has(l, v, s) <==> s in marked)
  }

  lemma MarksSet<B(!new)>(l: Slots<B>, v: seq<B>, marked: set<nat>, s: nat)
    requires Lawful(l) && Marks(l, v, marked) && s / 32 < |v|
    ensures Marks(l, v[s / 32 := l.join(v[s / 32], Mask(l, s % 32))], marked + {s})
  {
    var w := v[s / 32 := l.join(v[s / 32], Mask(l, s % 32))];
    forall t: nat | t / 32 < |w| ensures Has(l, w, t) <==> t in marked + {s} {
      assert Has(l, v, t) <==> t in marked;
      if t / 32 == s / 32 { SetBit(l, v[s / 32], s % 32, t % 32); }
    }
  }

  ghost predicate Filled(marked: set<nat>, a: int, b: int) {
    forall t :: a <= t < b ==> t in marked
  }

  lemma FilledMore(marked: set<nat>, a: int, b: int, c: int)
    requires Filled(marked, a, b) && Filled(marked, b, c)
    ensures Filled(marked, a, c)
  {
  }

  class Symbols<B(!new, ==)> {
    const l: Slots<B>
    const nsyms: nat
    const bitvec: array<B>
    ghost var marked: set<nat>

    ghost predicate Valid()
      reads this, bitvec
    {
      && Lawful(l) && bitvec.Length == (nsyms + 31) / 32 + 2
      && (forall s :: s in marked ==> s < nsyms)
      && Marks(l, bitvec[..], marked)
    }

    constructor (l: Slots<B>, nsyms: nat)
      requires Lawful(l)
      ensures Valid() && this.l == l && this.nsyms == nsyms && marked == {} && fresh(bitvec)
    {
      this.l := l;
      this.nsyms := nsyms;
      bitvec := new B[(nsyms + 31) / 32 + 2](_ => l.none);
      marked := {};
      new;
      forall s: nat | s / 32 < bitvec.Length ensures !Has(l, bitvec[..], s) { EmptyAndFull(l, s % 32); }
    }

    /** `mark_sym`; refused by a panic outside the table. */
    method MarkSym(s: int) returns (ok: bool)
      requires Valid()
      modifies this, bitvec
      ensures Valid() && ok == (0 <= s < nsyms) && marked == if ok then old(marked) + {s} else old(marked)
    {
      ok := 0 <= s < nsyms;
      if ok {
        MarksSet(l, bitvec[..], marked, s);
        ghost var v := bitvec[..];
        bitvec[s / 32] := l.join(bitvec[s / 32], Mask(l, s % 32));
        assert bitvec[..] == v[s / 32 := l.join(v[s / 32], Mask(l, s % 32))];
        marked := marked + {s};
      }
    }

    /** `next_unmarked_sym`: never outside the slots, and the least unmarked number from `s` on. */
    method NextUnmarkedSym(s: int) returns (ok: bool, r: nat)
      requires Valid()
      ensures ok == (0 <= s <= nsyms)
      ensures ok ==> s <= r <= nsyms && r !in marked && Filled(marked, s, r)
    {
      ok, r := 0 <= s <= nsyms, 0;
      if !ok { return; }
      var i, offset := s / 32, s % 32;
      while true
        invariant 0 <= i && 0 <= offset < 32 && s <= 32 * i + offset <= nsyms
        invariant Filled(marked, s, 32 * i + offset)
        decreases nsyms - (32 * i + offset)
      {
        var found, k := InSlot(i, offset);
        if found {
          FilledMore(marked, s, 32 * i + offset, 32 * i + k);
          return ok, i * 32 + k;
        }
        FilledMore(marked, s, 32 * i + offset, 32 * (i + 1));
        offset := 0;
        i := i + 1;
      }
    }

    /** A slot with no zero bit left in it does not hold the end of the table. */
    lemma EndOfSlot(i: nat, offset: nat)
      requires Valid() && offset < 32 && 32 * i + offset <= nsyms && i < bitvec.Length
      requires forall j :: offset <= j < 32 ==> Bit(l, bitvec[i], j)
      ensures Filled(marked, 32 * i + offset, 32 * (i + 1)) && 32 * (i + 1) <= nsyms
    {
      forall t | 32 * i + offset <= t < 32 * (i + 1) ensures t in marked { HasAt(l, bitvec[..], i, t - 32 * i); }
      assert nsyms !in marked;
    }

    lemma FoundInSlot(i: nat, offset: nat, k: nat)
      requires Valid() && offset <= k < 32 && 32 * i + offset <= nsyms && i < bitvec.Length
      requires !Bit(l, bitvec[i], k) && forall j :: offset <= j < k ==> Bit(l, bitvec[i], j)
      ensures Filled(marked, 32 * i + offset, 32 * i + k) && 32 * i + k <= nsyms && 32 * i + k !in marked
    {
      HasAt(l, bitvec[..], i, k);
      forall t | 32 * i + offset <= t < 32 * i + k ensures t in marked { HasAt(l, bitvec[..], i, t - 32 * i); }
      assert nsyms !in marked;
    }

    /** The search inside one slot. */
    method InSlot(i: nat, offset: nat) returns (found: bool, k: nat)
      requires Valid() && offset < 32 && 32 * i + offset <= nsyms
      ensures found ==> offset <= k < 32 && 32 * i + k <= nsyms && 32 * i + k !in marked
      ensures found ==> Filled(marked, 32 * i + offset, 32 * i + k)
      ensures !found ==> Filled(marked, 32 * i + offset, 32 * (i + 1)) && 32 * (i + 1) <= nsyms
    {
      found, k := false, offset;
      if bitvec[i] != l.all {
        var bits, mask := bitvec[i], Mask(l, offset);
        while k < 32
          invariant offset <= k <= 32 && mask == Mask(l, k)
          invariant forall j :: offset <= j < k ==> Bit(l, bits, j)
        {
          if !l.hit(bits, mask) {
            FoundInSlot(i, offset, k);
            return true, k;
          }
          mask := l.double(mask);
          k := k + 1;
        }
      } else {
        forall j | offset <= j < 32 ensures Bit(l, bitvec[i], j) { EmptyAndFull(l, j); }
      }
      EndOfSlot(i, offset);
    }
  }

  /** The vector of the program. */
  method NewSymbols(nsyms: nat) returns (r: Symbols<bv32>)
    ensures fresh(r) && r.Valid() && r.l == Words() && r.nsyms == nsyms && r.marked == {}
  {
    WordsLawful();
    r := new Symbols(Words(), nsyms);
  }
}
