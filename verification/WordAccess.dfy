/** Reading and writing the bytes of a target process through whole aligned words (ups/ao_ptrace.c). */
module WordAccess {

  type Size = n: nat | n > 0 witness 1

  /** The memory of a process with words of `w` bytes: the mapped words, by address. */
  type Memory = map<nat, seq<bv8>>

  ghost predicate Good(m: Memory, w: Size) {
    forall b :: b in m ==> b % w == 0 && |m[b]| == w
  }

  function Base(w: Size, a: nat): (b: nat) { a - a % w }

  ghost predicate Mapped(m: Memory, w: Size, a: nat) { Base(w, a) in m }

  ghost function Byte(m: Memory, w: Size, a: nat): bv8
    requires Good(m, w) && Mapped(m, w, a)
  {
    m[Base(w, a)][a % w]
  }

  lemma Multiple(w: Size, a: nat) returns (q: nat)
    ensures a == q * w + a % w
  {
    q := a / w;
  }

  lemma NoMultipleBetween(w: Size, p: int, r: int)
    ensures 0 <= p * w + r < w && 0 <= r < w ==> p == 0
  {
    if p >= 1 { assert p * w >= w; }
    if p <= -1 { assert p * w + w <= 0; }
  }

  /** The word of a byte is the one whose span holds it. */
  lemma BaseIs(w: Size, b: nat, a: nat)
    requires b % w == 0
    ensures Base(w, a) == b <==> b <= a < b + w
    ensures b <= a < b + w ==> a % w == a - b
  {
    var p := Multiple(w, a);
    var q := Multiple(w, b);
    assert (p - q) * w == p * w - q * w;
    NoMultipleBetween(w, p - q, a % w);
  }

  lemma BaseAligned(w: Size, a: nat)
    ensures Base(w, a) % w == 0 && Base(w, a) <= a < Base(w, a) + w
  {
    var p := Multiple(w, a);
    MultipleMod(w, p);
  }

  lemma {:induction false} MultipleMod(w: Size, p: nat)
    ensures (p * w) % w == 0
  {
    var q := Multiple(w, p * w);
    assert (p - q) * w == p * w - q * w;
    NoMultipleBetween(w, p - q, 0);
    assert (p - q) * w == (p * w) % w;
  }

  lemma NextAligned(w: Size, b: nat)
    requires b % w == 0
    ensures (b + w) % w == 0
  {
    var q := Multiple(w, b);
    assert b + w == (q + 1) * w;
    MultipleMod(w, q + 1);
  }

  lemma BytesOfWord(m: Memory, w: Size, b: nat)
    requires Good(m, w) && b in m
    ensures forall a :: b <= a < b + w ==> Mapped(m, w, a) && Byte(m, w, a) == m[b][a - b]
  {
    forall a | b <= a < b + w ensures Mapped(m, w, a) && Byte(m, w, a) == m[b][a - b] { BaseIs(w, b, a); }
  }

  /** Replacing a word changes its bytes and no others. */
  lemma BytesAfterPoke(m: Memory, w: Size, b: nat, word: seq<bv8>)
    requires Good(m, w) && b in m && |word| == w
    ensures Good(m[b := word], w)
    ensures forall a: nat :: Mapped(m, w, a) ==>
                        Byte(m[b := word], w, a) == if b <= a < b + w then word[a - b] else Byte(m, w, a)
  {
    forall a: nat | Mapped(m, w, a)
      ensures Byte(m[b := word], w, a) == if b <= a < b + w then word[a - b] else Byte(m, w, a)
    {
      BaseIs(w, b, a);
    }
  }

  // ---------------------------------------------------------------- what is touched

  /** All words with a byte in the range are mapped; a range that starts inside a word touches that
    * word even when it is empty.
    */
  ghost predicate Reachable(m: Memory, w: Size, addr: nat, n: nat) {
    (addr % w != 0 ==> Mapped(m, w, addr)) && AllMapped(m, w, addr, addr + n)
  }

  ghost predicate AllMapped(m: Memory, w: Size, from: nat, to: nat) {
    forall a: nat :: from <= a < to ==> Mapped(m, w, a)
  }

  /** `got` is what a byte-addressed memory holds from `addr` on. */
  ghost predicate Holds(m: Memory, w: Size, addr: nat, got: seq<bv8>)
    requires Good(m, w)
  {
    forall a: nat :: addr <= a < addr + |got| ==> Mapped(m, w, a) && Byte(m, w, a) == got[a - addr]
  }

  /** Every mapped byte of the range is replaced, every other byte is as before. */
  ghost predicate Replaced(m: Memory, w: Size, addr: nat, data: seq<bv8>, r: Memory)
    requires Good(m, w)
  {
    && Good(r, w) && r.Keys == m.Keys
    && (forall a: nat :: Mapped(m, w, a) ==>
                      Byte(r, w, a) == if addr <= a < addr + |data| then data[a - addr] else Byte(m, w, a))
  }

  /** A read after a write sees the new bytes inside the range and the old ones outside it. */
  lemma ReadAfterWrite(m: Memory, w: Size, addr: nat, data: seq<bv8>, r: Memory, at: nat, was: seq<bv8>, got: seq<bv8>)
    requires Good(m, w) && Replaced(m, w, addr, data, r)
    requires |was| == |got| && Holds(m, w, at, was) && Holds(r, w, at, got)
    ensures forall i :: 0 <= i < |got| ==>
                          got[i] == if addr <= at + i < addr + |data| then data[at + i - addr] else was[i]
  {
    forall i | 0 <= i < |got|
      ensures got[i] == if addr <= at + i < addr + |data| then data[at + i - addr] else was[i]
    {
      assert Mapped(m, w, at + i) && Mapped(r, w, at + i);
    }
  }

  /** The byte memory after a write is determined: two memories that meet its description are equal. */
  lemma ReplacedOnce(m: Memory, w: Size, addr: nat, data: seq<bv8>, r: Memory, s: Memory)
    requires Good(m, w) && Replaced(m, w, addr, data, r) && Replaced(m, w, addr, data, s)
    ensures r == s
  {
    forall b | b in m ensures r[b] == s[b] {
      BytesOfWord(m, w, b);
      BytesOfWord(r, w, b);
      BytesOfWord(s, w, b);
      forall k | 0 <= k < w ensures r[b][k] == s[b][k] {
        assert Mapped(m, w, b + k);
        assert Byte(r, w, b + k) == Byte(s, w, b + k);
      }
    }
  }

  lemma ReplacedMore(m: Memory, w: Size, addr: nat, done: seq<bv8>, r: Memory, more: seq<bv8>, s: Memory)
    requires Good(m, w) && Replaced(m, w, addr, done, r) && Replaced(r, w, addr + |done|, more, s)
    ensures Replaced(m, w, addr, done + more, s)
  {
    forall a: nat | Mapped(m, w, a)
      ensures Byte(s, w, a) == if addr <= a < addr + |done + more| then (done + more)[a - addr] else Byte(m, w, a)
    {
      assert Mapped(r, w, a);
    }
  }

  lemma WordMapped(m: Memory, w: Size, b: nat)
    requires b % w == 0
    ensures Mapped(m, w, b) <==> b in m
    ensures forall a: nat :: b <= a < b + w ==> (Mapped(m, w, a) <==> b in m)
  {
    BaseIs(w, b, b);
    forall a: nat | b <= a < b + w ensures Mapped(m, w, a) <==> b in m { BaseIs(w, b, a); }
  }

  /** A word, or the beginning of one, more. */
  lemma MappedMore(m: Memory, w: Size, from: nat, b: nat, n: nat)
    requires b % w == 0 && from <= b && 0 < n <= w
    ensures AllMapped(m, w, from, b + n) <==> AllMapped(m, w, from, b) && b in m
  {
    WordMapped(m, w, b);
    if AllMapped(m, w, from, b + n) { assert Mapped(m, w, b); }
  }

  // ---------------------------------------------------------------- the target

  class Target {
    const w: Size
    var mem: Memory
    /** The `errno` of the calls since it was last cleared; a call that works leaves it alone. */
    var failed: bool

    ghost predicate Valid()
      reads this
    {
      Good(mem, w)
    }

    constructor (w: Size, mem: Memory)
      requires Good(mem, w)
      ensures Valid() && this.w == w && this.mem == mem
    {
      this.w := w;
      this.mem := mem;
      this.failed := false;
    }

    /** One PEEK request: the address must be that of a word. */
    method Peek(b: nat) returns (word: seq<bv8>)
      requires Valid() && b % w == 0
      modifies this`failed
      ensures |word| == w && failed == (old(failed) || b !in mem)
      ensures b in mem ==> word == mem[b]
    {
      if b in mem {
        word := mem[b];
      } else {
        word := seq(w, _ => 0xff);
        failed := true;
      }
    }

    /** One POKE request. */
    method Poke(b: nat, word: seq<bv8>)
      requires Valid() && b % w == 0 && |word| == w
      modifies this
      ensures Valid() && Replaced(old(mem), w, b, word, mem)
      ensures failed == (old(failed) || b !in mem)
    {
      if b in mem {
        BytesAfterPoke(mem, w, b, word);
        mem := mem[b := word];
      } else {
        WordMapped(mem, w, b);
        failed := true;
      }
    }

    /** `get_words`: exactly the bytes asked for, by aligned peeks only. */
    method GetWords(start: nat, n: nat) returns (ok: bool, buf: seq<bv8>)
      requires Valid()
      modifies this`failed
      ensures |buf| <= n && ok == Reachable(mem, w, start, n)
      ensures ok ==> |buf| == n && Holds(mem, w, start, buf)
    {
      var addr, nbytes := start, n;
      buf := [];
      if addr % w != 0 {
        var offset := addr % w;
        var aligned := addr - offset;
        BaseAligned(w, addr);
        failed := false;
        var word := Peek(aligned);
        if failed { return false, []; }
        BytesOfWord(mem, w, aligned);
        var count := w - offset;
        if count > nbytes { count := nbytes; }
        buf := word[offset..offset + count];
        addr := addr + count;
        nbytes := nbytes - count;
        if nbytes > 0 { NextAligned(w, aligned); }
      }
      failed := false;
      ok, buf := GetAligned(start, addr, n, buf);
    }

    /** The rest of `get_words`, from a word boundary (or from the end of the range). */
    method GetAligned(start: nat, at: nat, n: nat, got: seq<bv8>) returns (ok: bool, buf: seq<bv8>)
      requires Valid() && start <= at <= start + n && (at % w == 0 || at == start + n)
      requires |got| == at - start && Holds(mem, w, start, got) && AllMapped(mem, w, start, at) && !failed
      requires start % w != 0 ==> Mapped(mem, w, start)
      modifies this`failed
      ensures |buf| == n && ok == Reachable(mem, w, start, n)
      ensures ok ==> Holds(mem, w, start, buf)
    {
      var addr, nbytes := at, start + n - at;
      buf := got;
      var trailing := nbytes % w;
      nbytes := nbytes - trailing;
      BaseAligned(w, start + n - at);
      var lim := addr + nbytes;
      while addr < lim
        invariant at <= addr <= lim == start + n - trailing && |buf| == addr - start && (lim - addr) % w == 0
        invariant addr % w == 0 || addr == start + n
        invariant failed == !AllMapped(mem, w, start, addr)
        invariant !failed ==> Holds(mem, w, start, buf)
      {
        AnotherWord(w, lim - addr);
        MappedMore(mem, w, start, addr, w);
        NextAligned(w, addr);
        var word := Peek(addr);
        if addr in mem { BytesOfWord(mem, w, addr); }
        buf := buf + word;
        addr := addr + w;
      }
      if trailing != 0 {
        MappedMore(mem, w, start, addr, trailing);
        var word := Peek(addr);
        if addr in mem { BytesOfWord(mem, w, addr); }
        buf := buf + word[..trailing];
      }
      ok := !failed;
    }

    /** `ptrace_write_data`: the bytes of the range become `buf` and no other byte changes. A failing write
      * changes nothing when it starts inside an unmapped word, and every mapped byte of the range otherwise.
      */
    method WriteData(start: nat, buf: seq<bv8>) returns (ok: bool)
      requires Valid()
      modifies this
      ensures Valid() && ok == Reachable(old(mem), w, start, |buf|)
      ensures if start % w != 0 && !Mapped(old(mem), w, start) then mem == old(mem)
              else Replaced(old(mem), w, start, buf, mem)
    {
      var addr := start;
      ghost var m := mem;
      if addr % w != 0 {
        var offset := addr % w;
        var aligned := addr - offset;
        BaseAligned(w, addr);
        failed := false;
        var word := Peek(aligned);
        if failed { return false; }
        var count := w - offset;
        if count > |buf| { count := |buf|; }
        BytesOfWord(mem, w, aligned);
        var mixed := word[..offset] + buf[..count] + word[offset + count..];
        failed := false;
        Poke(aligned, mixed);
        if failed { return false; }
        MixedWord(m, w, aligned, offset, buf[..count], mixed, mem);
        addr := addr + count;
        if count < |buf| { NextAligned(w, aligned); }
      }
      failed := false;
      ok := WriteAligned(start, addr, buf, m);
    }

    /** The first bytes of a word. */
    method WriteTail(addr: nat, tail: seq<bv8>)
      requires Valid() && addr % w == 0 && |tail| <= w
      modifies this
      ensures Valid() && Replaced(old(mem), w, addr, tail, mem) && failed == (old(failed) || addr !in mem)
    {
      ghost var before := mem;
      var word := Peek(addr);
      var mixed := tail + word[|tail|..];
      Poke(addr, mixed);
      MixedWord(before, w, addr, 0, tail, mixed, mem);
    }

    /** The whole words of a write. */
    method WriteWords(start: nat, at: nat, lim: nat, buf: seq<bv8>, ghost m: Memory)
      requires Valid() && Good(m, w) && start <= at <= lim <= start + |buf| && (lim - at) % w == 0
               && (at % w == 0 || at == lim)
      requires Replaced(m, w, start, buf[..at - start], mem) && AllMapped(m, w, start, at) && !failed
      modifies this
      ensures Valid() && Replaced(m, w, start, buf[..lim - start], mem) && failed == !AllMapped(m, w, start, lim)
      ensures at % w == 0 ==> lim % w == 0
    {
      var addr := at;
      while addr < lim
        invariant at <= addr <= lim && (lim - addr) % w == 0 && Valid()
        invariant (at % w == 0 || at < lim) ==> addr % w == 0
        invariant Replaced(m, w, start, buf[..addr - start], mem)
        invariant failed == !AllMapped(m, w, start, addr)
      {
        AnotherWord(w, lim - addr);
        NextAligned(w, addr);
        MappedMore(m, w, start, addr, w);
        ghost var before := mem;
        var word := buf[addr - start..addr - start + w];
        Poke(addr, word);
        ReplacedMore(m, w, start, buf[..addr - start], before, word, mem);
        assert buf[..addr - start] + word == buf[..addr + w - start];
        addr := addr + w;
      }
    }

    /** The rest of `ptrace_write_data`, from a word boundary (or from the end of the range). */
    method WriteAligned(start: nat, at: nat, buf: seq<bv8>, ghost m: Memory) returns (ok: bool)
      requires Valid() && Good(m, w) && start <= at <= start + |buf| && (at % w == 0 || at == start + |buf|)
      requires Replaced(m, w, start, buf[..at - start], mem) && AllMapped(m, w, start, at) && !failed
      requires start % w != 0 ==> Mapped(m, w, start)
      modifies this
      ensures Valid() && ok == Reachable(m, w, start, |buf|) && Replaced(m, w, start, buf, mem)
    {
      var nbytes := start + |buf| - at;
      var trailing := nbytes % w;
      BaseAligned(w, nbytes);
      var lim := at + nbytes - trailing;
      WriteWords(start, at, lim, buf, m);
      ghost var before := mem;
      assert buf[..lim - start] + buf[lim - start..] == buf;
      if trailing != 0 {
        MappedMore(m, w, start, lim, trailing);
        WriteTail(lim, buf[lim - start..]);
        ReplacedMore(m, w, start, buf[..lim - start], before, buf[lim - start..], mem);
      }
      ok := !failed;
    }
  }

  lemma AnotherWord(w: Size, left: nat)
    requires left > 0 && left % w == 0
    ensures left >= w && (left - w) % w == 0
  {
    var q := Multiple(w, left);
    assert q > 0;
    assert left - w == (q - 1) * w;
    MultipleMod(w, q - 1);
  }

  /** Poking a word whose bytes differ only in a part of it replaces that part. */
  lemma MixedWord(m: Memory, w: Size, b: nat, offset: nat, part: seq<bv8>, mixed: seq<bv8>, r: Memory)
    requires Good(m, w) && b % w == 0 && |mixed| == w && offset + |part| <= w
    requires Replaced(m, w, b, mixed, r)
    requires b in m ==> mixed == m[b][..offset] + part + m[b][offset + |part|..]
    ensures Replaced(m, w, b + offset, part, r)
  {
    WordMapped(m, w, b);
    forall a: nat | Mapped(m, w, a)
      ensures Byte(r, w, a) == if b + offset <= a < b + offset + |part| then part[a - b - offset] else Byte(m, w, a)
    {
      if b in m { BytesOfWord(m, w, b); }
    }
  }
}
