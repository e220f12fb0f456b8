/** The checksum of separate debug files (ups/ao_elfread.c): the table-driven CRC agrees
  * with the bit-at-a-time CRC-32 of section 8 of RFC 1952, over any split into chunks.
  */
module Crc {

  const POLY: bv32 := 0xedb88320

  // The table of the program, in thirty-two rows of eight entries.
  const ROW0: seq<bv32> := [
    0x00000000, 0x77073096, 0xee0e612c, 0x990951ba, 0x076dc419, 0x706af48f, 0xe963a535, 0x9e6495a3]
  const ROW1: seq<bv32> := [
    0x0edb8832, 0x79dcb8a4, 0xe0d5e91e, 0x97d2d988, 0x09b64c2b, 0x7eb17cbd, 0xe7b82d07, 0x90bf1d91]
  const ROW2: seq<bv32> := [
    0x1db71064, 0x6ab020f2, 0xf3b97148, 0x84be41de, 0x1adad47d, 0x6ddde4eb, 0xf4d4b551, 0x83d385c7]
  const ROW3: seq<bv32> := [
    0x136c9856, 0x646ba8c0, 0xfd62f97a, 0x8a65c9ec, 0x14015c4f, 0x63066cd9, 0xfa0f3d63, 0x8d080df5]
  const ROW4: seq<bv32> := [
    0x3b6e20c8, 0x4c69105e, 0xd56041e4, 0xa2677172, 0x3c03e4d1, 0x4b04d447, 0xd20d85fd, 0xa50ab56b]
  const ROW5: seq<bv32> := [
    0x35b5a8fa, 0x42b2986c, 0xdbbbc9d6, 0xacbcf940, 0x32d86ce3, 0x45df5c75, 0xdcd60dcf, 0xabd13d59]
  const ROW6: seq<bv32> := [
    0x26d930ac, 0x51de003a, 0xc8d75180, 0xbfd06116, 0x21b4f4b5, 0x56b3c423, 0xcfba9599, 0xb8bda50f]
  const ROW7: seq<bv32> := [
    0x2802b89e, 0x5f058808, 0xc60cd9b2, 0xb10be924, 0x2f6f7c87, 0x58684c11, 0xc1611dab, 0xb6662d3d]
  const ROW8: seq<bv32> := [
    0x76dc4190, 0x01db7106, 0x98d220bc, 0xefd5102a, 0x71b18589, 0x06b6b51f, 0x9fbfe4a5, 0xe8b8d433]
  const ROW9: seq<bv32> := [
    0x7807c9a2, 0x0f00f934, 0x9609a88e, 0xe10e9818, 0x7f6a0dbb, 0x086d3d2d, 0x91646c97, 0xe6635c01]
  const ROW10: seq<bv32> := [
    0x6b6b51f4, 0x1c6c6162, 0x856530d8, 0xf262004e, 0x6c0695ed, 0x1b01a57b, 0x8208f4c1, 0xf50fc457]
  const ROW11: seq<bv32> := [
    0x65b0d9c6, 0x12b7e950, 0x8bbeb8ea, 0xfcb9887c, 0x62dd1ddf, 0x15da2d49, 0x8cd37cf3, 0xfbd44c65]
  const ROW12: seq<bv32> := [
    0x4db26158, 0x3ab551ce, 0xa3bc0074, 0xd4bb30e2, 0x4adfa541, 0x3dd895d7, 0xa4d1c46d, 0xd3d6f4fb]
  const ROW13: seq<bv32> := [
    0x4369e96a, 0x346ed9fc, 0xad678846, 0xda60b8d0, 0x44042d73, 0x33031de5, 0xaa0a4c5f, 0xdd0d7cc9]
  const ROW14: seq<bv32> := [
    0x5005713c, 0x270241aa, 0xbe0b1010, 0xc90c2086, 0x5768b525, 0x206f85b3, 0xb966d409, 0xce61e49f]
  const ROW15: seq<bv32> := [
    0x5edef90e, 0x29d9c998, 0xb0d09822, 0xc7d7a8b4, 0x59b33d17, 0x2eb40d81, 0xb7bd5c3b, 0xc0ba6cad]
  const ROW16: seq<bv32> := [
    0xedb88320, 0x9abfb3b6, 0x03b6e20c, 0x74b1d29a, 0xead54739, 0x9dd277af, 0x04db2615, 0x73dc1683]
  const ROW17: seq<bv32> := [
    0xe3630b12, 0x94643b84, 0x0d6d6a3e, 0x7a6a5aa8, 0xe40ecf0b, 0x9309ff9d, 0x0a00ae27, 0x7d079eb1]
  const ROW18: seq<bv32> := [
    0xf00f9344, 0x8708a3d2, 0x1e01f268, 0x6906c2fe, 0xf762575d, 0x806567cb, 0x196c3671, 0x6e6b06e7]
  const ROW19: seq<bv32> := [
    0xfed41b76, 0x89d32be0, 0x10da7a5a, 0x67dd4acc, 0xf9b9df6f, 0x8ebeeff9, 0x17b7be43, 0x60b08ed5]
  const ROW20: seq<bv32> := [
    0xd6d6a3e8, 0xa1d1937e, 0x38d8c2c4, 0x4fdff252, 0xd1bb67f1, 0xa6bc5767, 0x3fb506dd, 0x48b2364b]
  const ROW21: seq<bv32> := [
    0xd80d2bda, 0xaf0a1b4c, 0x36034af6, 0x41047a60, 0xdf60efc3, 0xa867df55, 0x316e8eef, 0x4669be79]
  const ROW22: seq<bv32> := [
    0xcb61b38c, 0xbc66831a, 0x256fd2a0, 0x5268e236, 0xcc0c7795, 0xbb0b4703, 0x220216b9, 0x5505262f]
  const ROW23: seq<bv32> := [
    0xc5ba3bbe, 0xb2bd0b28, 0x2bb45a92, 0x5cb36a04, 0xc2d7ffa7, 0xb5d0cf31, 0x2cd99e8b, 0x5bdeae1d]
  const ROW24: seq<bv32> := [
    0x9b64c2b0, 0xec63f226, 0x756aa39c, 0x026d930a, 0x9c0906a9, 0xeb0e363f, 0x72076785, 0x05005713]
  const ROW25: seq<bv32> := [
    0x95bf4a82, 0xe2b87a14, 0x7bb12bae, 0x0cb61b38, 0x92d28e9b, 0xe5d5be0d, 0x7cdcefb7, 0x0bdbdf21]
  const ROW26: seq<bv32> := [
    0x86d3d2d4, 0xf1d4e242, 0x68ddb3f8, 0x1fda836e, 0x81be16cd, 0xf6b9265b, 0x6fb077e1, 0x18b74777]
  const ROW27: seq<bv32> := [
    0x88085ae6, 0xff0f6a70, 0x66063bca, 0x11010b5c, 0x8f659eff, 0xf862ae69, 0x616bffd3, 0x166ccf45]
  const ROW28: seq<bv32> := [
    0xa00ae278, 0xd70dd2ee, 0x4e048354, 0x3903b3c2, 0xa7672661, 0xd06016f7, 0x4969474d, 0x3e6e77db]
  const ROW29: seq<bv32> := [
    0xaed16a4a, 0xd9d65adc, 0x40df0b66, 0x37d83bf0, 0xa9bcae53, 0xdebb9ec5, 0x47b2cf7f, 0x30b5ffe9]
  const ROW30: seq<bv32> := [
    0xbdbdf21c, 0xcabac28a, 0x53b39330, 0x24b4a3a6, 0xbad03605, 0xcdd70693, 0x54de5729, 0x23d967bf]
  const ROW31: seq<bv32> := [
    0xb3667a2e, 0xc4614ab8, 0x5d681b02, 0x2a6f2b94, 0xb40bbe37, 0xc30c8ea1, 0x5a05df1b, 0x2d02ef8d]

  function Row(k: nat): (r: seq<bv32>)
    requires k < 32
    ensures |r| == 8
  {
    if k < 16 then (if k < 8 then Rows0(k) else Rows8(k)) else if k < 24 then Rows16(k) else Rows24(k)
  }

  function Rows0(k: nat): (r: seq<bv32>)
    requires 0 <= k < 8
    ensures |r| == 8
  {
    if k < 4 then (if k < 2 then (if k == 0 then ROW0 else ROW1) else if k == 2 then ROW2 else ROW3)
    else if k < 6 then (if k == 4 then ROW4 else ROW5) else if k == 6 then ROW6 else ROW7
  }

  function Rows8(k: nat): (r: seq<bv32>)
    requires 8 <= k < 16
    ensures |r| == 8
  {
    if k < 12 then (if k < 10 then (if k == 8 then ROW8 else ROW9) else if k == 10 then ROW10 else ROW11)
    else if k < 14 then (if k == 12 then ROW12 else ROW13) else if k == 14 then ROW14 else ROW15
  }

  function Rows16(k: nat): (r: seq<bv32>)
    requires 16 <= k < 24
    ensures |r| == 8
  {
    if k < 20 then (if k < 18 then (if k == 16 then ROW16 else ROW17) else if k == 18 then ROW18 else ROW19)
    else if k < 22 then (if k == 20 then ROW20 else ROW21) else if k == 22 then ROW22 else ROW23
  }

  function Rows24(k: nat): (r: seq<bv32>)
    requires 24 <= k < 32
    ensures |r| == 8
  {
    if k < 28 then (if k < 26 then (if k == 24 then ROW24 else ROW25) else if k == 26 then ROW26 else ROW27)
    else if k < 30 then (if k == 28 then ROW28 else ROW29) else if k == 30 then ROW30 else ROW31
  }

  /** Entry `x` of the table. */
  function Entry(x: bv32): bv32
    requires x & 0xff == x
  {
    Row((x >> 3) as nat)[(x & 0x7) as nat]
  }

  // ---------------------------------------------------------------- reference

  /** Feed a sequence to a machine, one item after the other. */
  function Fold<S, B>(step: (S, B) -> S, c: S, data: seq<B>): S {
    if data == [] then c else Fold(step, step(c, data[0]), data[1..])
  }

  /** One step of the shift register: the message bit is mixed in at the low end. */
  function FeedBit(c: bv32, bit: bv32): bv32 {
    if (c ^ bit) & 1 == 1 then (c >> 1) ^ POLY else c >> 1
  }

  function Half(r: bv32): bv32 { r >> 1 }

  /** The bits of a byte, least significant first. */
  function BitsOf(b: bv8): seq<bv32> {
    var r := b as bv32;
    [r & 1, (r >> 1) & 1, (r >> 2) & 1, (r >> 3) & 1, (r >> 4) & 1, (r >> 5) & 1, (r >> 6) & 1, (r >> 7) & 1]
  }

  function Bits(data: seq<bv8>): seq<bv32> {
    if data == [] then [] else BitsOf(data[0]) + Bits(data[1..])
  }

  /** The CRC-32 of a byte sequence, one bit at a time. */
  function BitCrc(data: seq<bv8>): bv32 { Not(Fold(FeedBit, 0xffffffff, Bits(data))) }

  /** The checksum of a message of which `crc` covers what came before `data`. */
  function Continue(crc: bv32, data: seq<bv8>): bv32 { Not(Fold(FeedBit, Not(crc), Bits(data))) }

  function Not(c: bv32): bv32 { !c }

  // ---------------------------------------------------------------- eight steps of anything

  lemma {:induction false} FoldAppend<S, B>(step: (S, B) -> S, c: S, a: seq<B>, b: seq<B>)
    ensures Fold(step, c, a + b) == Fold(step, Fold(step, c, a), b)
    decreases |a|
  {
    if a == [] {
      assert a + b == b;
    } else {
      assert (a + b)[1..] == a[1..] + b;
      FoldAppend(step, step(c, a[0]), a[1..], b);
    }
  }

  lemma FoldOne<S, B>(step: (S, B) -> S, c: S, b: B, rest: seq<B>)
    ensures Fold(step, c, [b] + rest) == Fold(step, step(c, b), rest)
  {
    assert ([b] + rest)[1..] == rest;
  }

  lemma FoldEight<S, B>(step: (S, B) -> S, c: S, b0: B, b1: B, b2: B, b3: B, b4: B, b5: B, b6: B, b7: B)
    ensures Fold(step, c, [b0, b1, b2, b3, b4, b5, b6, b7]) ==
            step(step(step(step(step(step(step(step(c, b0), b1), b2), b3), b4), b5), b6), b7)
  {
    var c1 := step(c, b0);
    var c2 := step(c1, b1);
    var c3 := step(c2, b2);
    var c4 := step(c3, b3);
    var c5 := step(c4, b4);
    var c6 := step(c5, b5);
    var c7 := step(c6, b6);
    assert [b0, b1, b2, b3, b4, b5, b6, b7] == [b0] + [b1, b2, b3, b4, b5, b6, b7];
    FoldOne(step, c, b0, [b1, b2, b3, b4, b5, b6, b7]);
    assert [b1, b2, b3, b4, b5, b6, b7] == [b1] + [b2, b3, b4, b5, b6, b7];
    FoldOne(step, c1, b1, [b2, b3, b4, b5, b6, b7]);
    assert [b2, b3, b4, b5, b6, b7] == [b2] + [b3, b4, b5, b6, b7];
    FoldOne(step, c2, b2, [b3, b4, b5, b6, b7]);
    assert [b3, b4, b5, b6, b7] == [b3] + [b4, b5, b6, b7];
    FoldOne(step, c3, b3, [b4, b5, b6, b7]);
    assert [b4, b5, b6, b7] == [b4] + [b5, b6, b7];
    FoldOne(step, c4, b4, [b5, b6, b7]);
    assert [b5, b6, b7] == [b5] + [b6, b7];
    FoldOne(step, c5, b5, [b6, b7]);
    assert [b6, b7] == [b6] + [b7];
    FoldOne(step, c6, b6, [b7]);
    assert [b7] == [b7] + [];
    FoldOne(step, c7, b7, []);
  }

  function Eight<T>(f: T -> T, c: T): T { f(f(f(f(f(f(f(f(c)))))))) }

  /** Eight steps split into the part that is mixed and the part that is only shifted. */
  lemma EightApart<T(!new)>(f: T -> T, g: T -> T, mix: (T, T) -> T, ok: T -> bool, a: T, h: T)
    requires forall a, h :: ok(h) ==> f(mix(a, h)) == mix(f(a), g(h))
    requires ok(h) && ok(g(h)) && ok(g(g(h))) && ok(g(g(g(h)))) && ok(g(g(g(g(h))))) && ok(g(g(g(g(g(h))))))
    requires ok(g(g(g(g(g(g(h))))))) && ok(g(g(g(g(g(g(g(h))))))))
    ensures Eight(f, mix(a, h)) == mix(Eight(f, a), Eight(g, h))
  {
  }

  /** Feeding the items of `r` one at a time is mixing `r` in and stepping. */
  lemma EightFeed<T(!new)>(f: T -> T, g: T -> T, mix: (T, T) -> T, feed: (T, T) -> T, low: T -> T, c: T, r: T)
    requires forall c, r :: mix(feed(c, low(r)), g(r)) == f(mix(c, r))
    ensures var r1 := g(r);
            var r2 := g(r1);
            var r3 := g(r2);
            var r4 := g(r3);
            var r5 := g(r4);
            var r6 := g(r5);
            var r7 := g(r6);
            mix(feed(feed(feed(feed(feed(feed(feed(feed(c, low(r)), low(r1)), low(r2)), low(r3)), low(r4)), low(r5)),
                          low(r6)), low(r7)), g(r7)) == Eight(f, mix(c, r))
  {
  }

  // ---------------------------------------------------------------- the table is right

  /** A step with no message bit, and eight of them. */
  function Shift1(c: bv32): bv32 { FeedBit(c, 0) }

  function Eight0(c: bv32): bv32 { Eight(Shift1, c) }

  /** Eight consecutive values of a function. */
  function RowOf(f: bv32 -> bv32, h: bv32): seq<bv32> {
    [f(h | 0), f(h | 1), f(h | 2), f(h | 3), f(h | 4), f(h | 5), f(h | 6), f(h | 7)]
  }

  predicate Part0(f: bv32 -> bv32) {
    ROW0 == RowOf(f, 0x0) && ROW1 == RowOf(f, 0x8) && ROW2 == RowOf(f, 0x10) && ROW3 == RowOf(f, 0x18) &&
    ROW4 == RowOf(f, 0x20) && ROW5 == RowOf(f, 0x28) && ROW6 == RowOf(f, 0x30) && ROW7 == RowOf(f, 0x38)
  }

  predicate Part1(f: bv32 -> bv32) {
    ROW8 == RowOf(f, 0x40) && ROW9 == RowOf(f, 0x48) && ROW10 == RowOf(f, 0x50) && ROW11 == RowOf(f, 0x58) &&
    ROW12 == RowOf(f, 0x60) && ROW13 == RowOf(f, 0x68) && ROW14 == RowOf(f, 0x70) && ROW15 == RowOf(f, 0x78)
  }

  predicate Part2(f: bv32 -> bv32) {
    ROW16 == RowOf(f, 0x80) && ROW17 == RowOf(f, 0x88) && ROW18 == RowOf(f, 0x90) && ROW19 == RowOf(f, 0x98) &&
    ROW20 == RowOf(f, 0xa0) && ROW21 == RowOf(f, 0xa8) && ROW22 == RowOf(f, 0xb0) && ROW23 == RowOf(f, 0xb8)
  }

  predicate Part3(f: bv32 -> bv32) {
    ROW24 == RowOf(f, 0xc0) && ROW25 == RowOf(f, 0xc8) && ROW26 == RowOf(f, 0xd0) && ROW27 == RowOf(f, 0xd8) &&
    ROW28 == RowOf(f, 0xe0) && ROW29 == RowOf(f, 0xe8) && ROW30 == RowOf(f, 0xf0) && ROW31 == RowOf(f, 0xf8)
  }

  lemma Entry0() ensures Eight0(0) == 0x00000000 {}
  lemma Entry1() ensures Eight0(1) == 0x77073096 {}
  lemma Entry2() ensures Eight0(2) == 0xee0e612c {}
  lemma Entry3() ensures Eight0(3) == 0x990951ba {}
  lemma Entry4() ensures Eight0(4) == 0x076dc419 {}
  lemma Entry5() ensures Eight0(5) == 0x706af48f {}
  lemma Entry6() ensures Eight0(6) == 0xe963a535 {}
  lemma Entry7() ensures Eight0(7) == 0x9e6495a3 {}
  lemma RowAtZero(f: bv32 -> bv32) ensures RowOf(f, 0x0) == [f(0), f(1), f(2), f(3), f(4), f(5), f(6), f(7)] {}
  lemma Row0Is(f: bv32 -> bv32)
    requires f(0) == 0x00000000 && f(1) == 0x77073096 && f(2) == 0xee0e612c && f(3) == 0x990951ba
    requires f(4) == 0x076dc419 && f(5) == 0x706af48f && f(6) == 0xe963a535 && f(7) == 0x9e6495a3
    ensures ROW0 == RowOf(f, 0x0)
  {
    RowAtZero(f);
  }
  lemma Row0Holds()
    ensures ROW0 == RowOf(Eight0, 0x0)
  {
    Entry0(); Entry1(); Entry2(); Entry3(); Entry4(); Entry5(); Entry6(); Entry7();
    Row0Is(Eight0);
  }
  lemma Row1Holds() ensures ROW1 == RowOf(Eight0, 0x8) {}
  lemma Row2Holds() ensures ROW2 == RowOf(Eight0, 0x10) {}
  lemma Row3Holds() ensures ROW3 == RowOf(Eight0, 0x18) {}
  lemma Row4Holds() ensures ROW4 == RowOf(Eight0, 0x20) {}
  lemma Row5Holds() ensures ROW5 == RowOf(Eight0, 0x28) {}
  lemma Row6Holds() ensures ROW6 == RowOf(Eight0, 0x30) {}
  lemma Row7Holds() ensures ROW7 == RowOf(Eight0, 0x38) {}
  lemma Row8Holds() ensures ROW8 == RowOf(Eight0, 0x40) {}
  lemma Row9Holds() ensures ROW9 == RowOf(Eight0, 0x48) {}
  lemma Row10Holds() ensures ROW10 == RowOf(Eight0, 0x50) {}
  lemma Row11Holds() ensures ROW11 == RowOf(Eight0, 0x58) {}
  lemma Row12Holds() ensures ROW12 == RowOf(Eight0, 0x60) {}
  lemma Row13Holds() ensures ROW13 == RowOf(Eight0, 0x68) {}
  lemma Row14Holds() ensures ROW14 == RowOf(Eight0, 0x70) {}
  lemma Row15Holds() ensures ROW15 == RowOf(Eight0, 0x78) {}
  lemma Row16Holds() ensures ROW16 == RowOf(Eight0, 0x80) {}
  lemma Row17Holds() ensures ROW17 == RowOf(Eight0, 0x88) {}
  lemma Row18Holds() ensures ROW18 == RowOf(Eight0, 0x90) {}
  lemma Row19Holds() ensures ROW19 == RowOf(Eight0, 0x98) {}
  lemma Row20Holds() ensures ROW20 == RowOf(Eight0, 0xa0) {}
  lemma Row21Holds() ensures ROW21 == RowOf(Eight0, 0xa8) {}
  lemma Row22Holds() ensures ROW22 == RowOf(Eight0, 0xb0) {}
  lemma Row23Holds() ensures ROW23 == RowOf(Eight0, 0xb8) {}
  lemma Row24Holds() ensures ROW24 == RowOf(Eight0, 0xc0) {}
  lemma Row25Holds() ensures ROW25 == RowOf(Eight0, 0xc8) {}
  lemma Row26Holds() ensures ROW26 == RowOf(Eight0, 0xd0) {}
  lemma Row27Holds() ensures ROW27 == RowOf(Eight0, 0xd8) {}
  lemma Row28Holds() ensures ROW28 == RowOf(Eight0, 0xe0) {}
  lemma Row29Holds() ensures ROW29 == RowOf(Eight0, 0xe8) {}
  lemma Row30Holds() ensures ROW30 == RowOf(Eight0, 0xf0) {}
  lemma Row31Holds() ensures ROW31 == RowOf(Eight0, 0xf8) {}

  lemma Part0Holds()
    ensures Part0(Eight0)
  {
    Row0Holds(); Row1Holds(); Row2Holds(); Row3Holds();
    Row4Holds(); Row5Holds(); Row6Holds(); Row7Holds();
  }

  lemma Part1Holds()
    ensures Part1(Eight0)
  {
    Row8Holds(); Row9Holds(); Row10Holds(); Row11Holds();
    Row12Holds(); Row13Holds(); Row14Holds(); Row15Holds();
  }

  lemma Part2Holds()
    ensures Part2(Eight0)
  {
    Row16Holds(); Row17Holds(); Row18Holds(); Row19Holds();
    Row20Holds(); Row21Holds(); Row22Holds(); Row23Holds();
  }

  lemma Part3Holds()
    ensures Part3(Eight0)
  {
    Row24Holds(); Row25Holds(); Row26Holds(); Row27Holds();
    Row28Holds(); Row29Holds(); Row30Holds(); Row31Holds();
  }

  lemma RowIn0(f: bv32 -> bv32, h: bv32)
    requires Part0(f) && h & 0x38 == h
    ensures 0 <= (h >> 3) as nat < 8 && Row((h >> 3) as nat) == RowOf(f, h)
  {
    if h == 0x0 {
    } else if h == 0x8 {
    } else if h == 0x10 {
    } else if h == 0x18 {
    } else if h == 0x20 {
    } else if h == 0x28 {
    } else if h == 0x30 {
    }
  }

  lemma RowIn1(f: bv32 -> bv32, h: bv32)
    requires Part1(f) && h & 0x78 == h && h & 0x40 != 0
    ensures 8 <= (h >> 3) as nat < 16 && Row((h >> 3) as nat) == RowOf(f, h)
  {
    if h == 0x40 {
    } else if h == 0x48 {
    } else if h == 0x50 {
    } else if h == 0x58 {
    } else if h == 0x60 {
    } else if h == 0x68 {
    } else if h == 0x70 {
    }
  }

  lemma RowIn2(f: bv32 -> bv32, h: bv32)
    requires Part2(f) && h & 0xb8 == h && h & 0x80 != 0
    ensures 16 <= (h >> 3) as nat < 24 && Row((h >> 3) as nat) == RowOf(f, h)
  {
    if h == 0x80 {
    } else if h == 0x88 {
    } else if h == 0x90 {
    } else if h == 0x98 {
    } else if h == 0xa0 {
    } else if h == 0xa8 {
    } else if h == 0xb0 {
    }
  }

  lemma RowIn3(f: bv32 -> bv32, h: bv32)
    requires Part3(f) && h & 0xf8 == h && h & 0xc0 == 0xc0
    ensures 24 <= (h >> 3) as nat < 32 && Row((h >> 3) as nat) == RowOf(f, h)
  {
    if h == 0xc0 {
    } else if h == 0xc8 {
    } else if h == 0xd0 {
    } else if h == 0xd8 {
    } else if h == 0xe0 {
    } else if h == 0xe8 {
    } else if h == 0xf0 {
    }
  }

  lemma RowIs(f: bv32 -> bv32, h: bv32)
    requires Part0(f) && Part1(f) && Part2(f) && Part3(f) && h & 0xf8 == h
    ensures (h >> 3) as nat < 32 && Row((h >> 3) as nat) == RowOf(f, h)
  {
    if h & 0xc0 == 0 { RowIn0(f, h); } else if h & 0xc0 == 0x40 { RowIn1(f, h); }
    else if h & 0xc0 == 0x80 { RowIn2(f, h); } else { RowIn3(f, h); }
  }

  lemma RowEntry(f: bv32 -> bv32, h: bv32, l: bv32)
    requires l & 0x7 == l
    ensures l as nat < 8 && RowOf(f, h)[l as nat] == f(h | l)
  {
    if l == 0 {
    } else if l == 1 {
    } else if l == 2 {
    } else if l == 3 {
    } else if l == 4 {
    } else if l == 5 {
    } else if l == 6 {
    }
  }

  lemma ByteParts(x: bv32)
    requires x & 0xff == x
    ensures (x & 0xf8) & 0xf8 == x & 0xf8 && (x & 0x7) & 0x7 == x & 0x7 && (x & 0xf8) | (x & 0x7) == x
    ensures (x & 0xf8) >> 3 == x >> 3
  {
  }

  lemma EntryOf(f: bv32 -> bv32, x: bv32)
    requires Part0(f) && Part1(f) && Part2(f) && Part3(f) && x & 0xff == x
    ensures Entry(x) == f(x)
  {
    ByteParts(x);
    RowIs(f, x & 0xf8);
    RowEntry(f, x & 0xf8, x & 0x7);
  }

  /** Every entry of the table is eight steps of the shift register. */
  lemma EntryIsEight(x: bv32)
    requires x & 0xff == x
    ensures Entry(x) == Eight0(x)
  {
    Part0Holds();
    Part1Holds();
    Part2Holds();
    Part3Holds();
    EntryOf(Eight0, x);
  }

  // ---------------------------------------------------------------- a byte at a time

  function Xor(a: bv32, b: bv32): bv32 { a ^ b }

  function Low(r: bv32): bv32 { r & 1 }

  lemma FeedParts(c: bv32, r: bv32)
    ensures (c ^ (r & 1)) & 1 == ((c ^ r) ^ 0) & 1 && (c ^ r) >> 1 == (c >> 1) ^ (r >> 1)
    ensures ((c ^ r) >> 1) ^ POLY == ((c >> 1) ^ POLY) ^ (r >> 1)
  {
  }

  lemma FeedOdd(c: bv32, r: bv32)
    requires (c ^ (r & 1)) & 1 == 1
    ensures FeedBit(c, r & 1) ^ (r >> 1) == FeedBit(c ^ r, 0)
  {
    FeedParts(c, r);
    assert FeedBit(c, r & 1) == (c >> 1) ^ POLY;
    assert FeedBit(c ^ r, 0) == ((c ^ r) >> 1) ^ POLY;
  }

  lemma FeedEven(c: bv32, r: bv32)
    requires (c ^ (r & 1)) & 1 != 1
    ensures FeedBit(c, r & 1) ^ (r >> 1) == FeedBit(c ^ r, 0)
  {
    FeedParts(c, r);
  }

  /** A message bit may be mixed into the register before the step. */
  lemma FeedOne(c: bv32, r: bv32)
    ensures Xor(FeedBit(c, Low(r)), Half(r)) == Shift1(Xor(c, r))
  {
    if (c ^ (r & 1)) & 1 == 1 { FeedOdd(c, r); } else { FeedEven(c, r); }
  }

  lemma BitsAreLows(b: bv8)
    ensures var r := b as bv32;
            var r1 := Half(r);
            var r2 := Half(r1);
            var r3 := Half(r2);
            var r4 := Half(r3);
            var r5 := Half(r4);
            var r6 := Half(r5);
            var r7 := Half(r6);
            && BitsOf(b) == [Low(r), Low(r1), Low(r2), Low(r3), Low(r4), Low(r5), Low(r6), Low(r7)]
            && Half(r7) == 0
  {
  }

  lemma XorZero(x: bv32)
    ensures Xor(x, 0) == x
  {
  }

  /** Feeding the bits of a byte is mixing it in and stepping eight times. */
  lemma FeedByteIsEight(c: bv32, b: bv8)
    ensures Fold(FeedBit, c, BitsOf(b)) == Eight0(Xor(c, b as bv32))
  {
    var r := b as bv32;
    var r1 := Half(r);
    var r2 := Half(r1);
    var r3 := Half(r2);
    var r4 := Half(r3);
    var r5 := Half(r4);
    var r6 := Half(r5);
    var r7 := Half(r6);
    forall x: bv32, y: bv32 ensures Xor(FeedBit(x, Low(y)), Half(y)) == Shift1(Xor(x, y)) { FeedOne(x, y); }
    EightFeed(Shift1, Half, Xor, FeedBit, Low, c, r);
    BitsAreLows(b);
    FoldEight(FeedBit, c, Low(r), Low(r1), Low(r2), Low(r3), Low(r4), Low(r5), Low(r6), Low(r7));
    XorZero(Fold(FeedBit, c, BitsOf(b)));
  }

  predicate Even(c: bv32) { c & 1 == 0 }

  lemma EvenPart(a: bv32, h: bv32)
    requires h & 1 == 0
    ensures ((a ^ h) ^ 0) & 1 == (a ^ 0) & 1 && (a ^ h) >> 1 == (a >> 1) ^ (h >> 1)
    ensures ((a ^ h) >> 1) ^ POLY == ((a >> 1) ^ POLY) ^ (h >> 1)
  {
  }

  lemma ShiftOddApart(a: bv32, h: bv32)
    requires h & 1 == 0 && (a ^ 0) & 1 == 1
    ensures FeedBit(a ^ h, 0) == FeedBit(a, 0) ^ (h >> 1)
  {
    EvenPart(a, h);
    assert FeedBit(a, 0) == (a >> 1) ^ POLY;
    assert FeedBit(a ^ h, 0) == ((a ^ h) >> 1) ^ POLY;
  }

  lemma ShiftEvenApart(a: bv32, h: bv32)
    requires h & 1 == 0 && (a ^ 0) & 1 != 1
    ensures FeedBit(a ^ h, 0) == FeedBit(a, 0) ^ (h >> 1)
  {
    EvenPart(a, h);
  }

  lemma ShiftApart(a: bv32, h: bv32)
    requires Even(h)
    ensures Shift1(Xor(a, h)) == Xor(Shift1(a), Half(h))
  {
    if (a ^ 0) & 1 == 1 { ShiftOddApart(a, h); } else { ShiftEvenApart(a, h); }
  }

  lemma Evens(h: bv32)
    requires h & 0xff == 0
    ensures Even(h) && Even(Half(h)) && Even(Half(Half(h))) && Even(Half(Half(Half(h))))
    ensures Even(Half(Half(Half(Half(h))))) && Even(Half(Half(Half(Half(Half(h))))))
    ensures Even(Half(Half(Half(Half(Half(Half(h))))))) && Even(Half(Half(Half(Half(Half(Half(Half(h))))))))
    ensures Eight(Half, h) == h >> 8
  {
  }

  /** What stands above the lowest byte of the register is only shifted. */
  lemma EightAbove(a: bv32, h: bv32)
    requires h & 0xff == 0
    ensures Eight0(Xor(a, h)) == Xor(Eight0(a), h >> 8)
  {
    forall x: bv32, y: bv32 | Even(y) ensures Shift1(Xor(x, y)) == Xor(Shift1(x), Half(y)) { ShiftApart(x, y); }
    Evens(h);
    EightApart(Shift1, Half, Xor, Even, a, h);
  }

  lemma RegisterParts(c: bv32, r: bv32)
    requires r & 0xff == r
    ensures ((c ^ r) & 0xff) & 0xff == (c ^ r) & 0xff && (c & 0xffffff00) & 0xff == 0
    ensures Xor((c ^ r) & 0xff, c & 0xffffff00) == Xor(c, r) && (c & 0xffffff00) >> 8 == c >> 8
  {
  }

  lemma ByteFits(b: bv8)
    ensures (b as bv32) & 0xff == b as bv32
  {
  }

  /** One step of the program: look up an entry, shift the register by a byte. */
  function TableStep(c: bv32, b: bv8): bv32 {
    ByteFits(b);
    RegisterParts(c, b as bv32);
    Xor(Entry((c ^ (b as bv32)) & 0xff), c >> 8)
  }

  /** A step looks up the low byte and shifts what is above it. */
  lemma TableStepIs(f: bv32 -> bv32, c: bv32, b: bv8)
    requires forall x: bv32 :: x & 0xff == x ==> Entry(x) == f(x)
    requires forall a: bv32, h: bv32 :: h & 0xff == 0 ==> f(Xor(a, h)) == Xor(f(a), h >> 8)
    ensures TableStep(c, b) == f(Xor(c, b as bv32))
  {
    ByteFits(b);
    RegisterParts(c, b as bv32);
    assert f(Xor((c ^ (b as bv32)) & 0xff, c & 0xffffff00)) == Xor(f((c ^ (b as bv32)) & 0xff), (c & 0xffffff00) >> 8);
  }

  lemma TableStepIsEight(c: bv32, b: bv8)
    ensures TableStep(c, b) == Eight0(Xor(c, b as bv32))
  {
    forall x: bv32 | x & 0xff == x ensures Entry(x) == Eight0(x) { EntryIsEight(x); }
    forall a: bv32, h: bv32 | h & 0xff == 0 ensures Eight0(Xor(a, h)) == Xor(Eight0(a), h >> 8) { EightAbove(a, h); }
    TableStepIs(Eight0, c, b);
  }

  /** A table step feeds the eight bits of a byte. */
  lemma TableStepFeedsByte(c: bv32, b: bv8)
    ensures TableStep(c, b) == Fold(FeedBit, c, BitsOf(b))
  {
    TableStepIsEight(c, b);
    FeedByteIsEight(c, b);
  }

  // ---------------------------------------------------------------- buffers and files

  /** `calc_gnu_debuglink_crc32`. */
  method CalcCrc(crc: bv32, buf: seq<bv8>) returns (r: bv32)
    ensures r == Continue(crc, buf)
  {
    var c := Not(crc);
    var i := 0;
    while i < |buf|
      invariant 0 <= i <= |buf|
      invariant Fold(FeedBit, c, Bits(buf[i..])) == Fold(FeedBit, Not(crc), Bits(buf))
    {
      TableStepFeedsByte(c, buf[i]);
      FoldAppend(FeedBit, c, BitsOf(buf[i]), Bits(buf[i + 1..]));
      assert buf[i..][1..] == buf[i + 1..];
      c := TableStep(c, buf[i]);
      i := i + 1;
    }
    r := Not(c);
  }

  function Concat(chunks: seq<seq<bv8>>): seq<bv8> {
    if chunks == [] then [] else chunks[0] + Concat(chunks[1..])
  }

  lemma {:induction false} ConcatSnoc(chunks: seq<seq<bv8>>, chunk: seq<bv8>)
    ensures Concat(chunks + [chunk]) == Concat(chunks) + chunk
  {
    if chunks == [] {
      assert chunks + [chunk] == [chunk];
      assert Concat([chunk]) == chunk + Concat([chunk][1..]);
    } else {
      assert (chunks + [chunk])[1..] == chunks[1..] + [chunk];
      ConcatSnoc(chunks[1..], chunk);
    }
  }

  lemma {:induction false} BitsAppend(a: seq<bv8>, b: seq<bv8>)
    ensures Bits(a + b) == Bits(a) + Bits(b)
  {
    if a == [] {
      assert a + b == b;
    } else {
      assert (a + b)[1..] == a[1..] + b;
      BitsAppend(a[1..], b);
    }
  }

  lemma NotNot(c: bv32)
    ensures Not(Not(c)) == c
  {
  }

  lemma FoldTwo<S, B>(step: (S, B) -> S, not: S -> S, c: S, a: seq<B>, b: seq<B>)
    requires not(not(Fold(step, c, a))) == Fold(step, c, a)
    ensures not(Fold(step, not(not(Fold(step, c, a))), b)) == not(Fold(step, c, a + b))
  {
    FoldAppend(step, c, a, b);
  }

  /** A checksum continues from a checksum. */
  lemma ChunkStep(a: seq<bv8>, b: seq<bv8>)
    ensures Continue(BitCrc(a), b) == BitCrc(a + b)
  {
    BitsAppend(a, b);
    NotNot(Fold(FeedBit, 0xffffffff, Bits(a)));
    FoldTwo(FeedBit, Not, 0xffffffff, Bits(a), Bits(b));
  }

  lemma NextChunk(chunks: seq<seq<bv8>>, i: nat)
    requires i < |chunks|
    ensures Continue(BitCrc(Concat(chunks[..i])), chunks[i]) == BitCrc(Concat(chunks[..i + 1]))
  {
    assert chunks[..i + 1] == chunks[..i] + [chunks[i]];
    ConcatSnoc(chunks[..i], chunks[i]);
    ChunkStep(Concat(chunks[..i]), chunks[i]);
  }

  /** The loop of `debug_file_exists`: however the reads split the file, the result is whether
    * the wanted checksum is the CRC-32 of the whole file.
    */
  method FileMatches(chunks: seq<seq<bv8>>, wanted: bv32) returns (ok: bool)
    ensures ok <==> wanted == BitCrc(Concat(chunks))
  {
    var crc: bv32 := 0;
    var i := 0;
    EmptyCrc();
    while i < |chunks|
      invariant 0 <= i <= |chunks|
      invariant crc == BitCrc(Concat(chunks[..i]))
    {
      NextChunk(chunks, i);
      crc := CalcCrc(crc, chunks[i]);
      i := i + 1;
    }
    assert chunks[..i] == chunks;
    ok := wanted == crc;
  }

  lemma EmptyCrc()
    ensures BitCrc([]) == 0
  {
  }
}
