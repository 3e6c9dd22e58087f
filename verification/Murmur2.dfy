/**
 The partition hash of the producer.  Every mixing step is a permutation of the
 32-bit words, so on keys of one length the hash is a bijection in each aligned
 block: two keys that differ in one block never collide, and every hash value is
 reached.
 */
module Murmur2 {
  import opened Prelude
  import opened MixHash

  type Byte = b: bv32 | b < 0x100 witness 0
  function Times(x: bv32): bv32 { x * 0x5BD1E995 }
  function Fold24(x: bv32): bv32 { x ^ (x >> 24) }
  function Fold13(x: bv32): bv32 { x ^ (x >> 13) }
  function Fold15(x: bv32): bv32 { x ^ (x >> 15) }
  function Xor(x: bv32, y: bv32): bv32 { x ^ y }

  const MURMUR: Ops<bv32> := Ops(Times, Fold24, Fold13, Fold15, Xor)

  const SEED: bv32 := 0x9747B28C

  // ------------------------------------------------------------ specification

  /** Little-endian packing of four bytes. */
  function Pack(b0: Byte, b1: Byte, b2: Byte, b3: Byte): bv32 {
    b0 + (b1 << 8) + (b2 << 16) + (b3 << 24)
  }

  function Unpack(w: bv32): seq<Byte> {
    [w & 0xFF, (w >> 8) & 0xFF, (w >> 16) & 0xFF, w >> 24]
  }

  function BlockAt(data: seq<Byte>, i: nat): bv32
    requires 4 * i + 4 <= |data|
  {
    Pack(data[4 * i], data[4 * i + 1], data[4 * i + 2], data[4 * i + 3])
  }

  function Start(length: nat): bv32 {
    SEED ^ ((length % 0x1_0000_0000) as bv32)
  }

  /** The aligned blocks of a key. */
  function Words(data: seq<Byte>): seq<bv32> {
    seq(|data| / 4, i requires 0 <= i < |data| / 4 => BlockAt(data, i))
  }

  /** Byte `i` of the tail, or zero when the tail is shorter. */
  function TailByte(data: seq<Byte>, i: nat): bv32 {
    if i < |data| % 4 then data[|data| - |data| % 4 + i] else 0
  }

  function TailWord(b2: bv32, b1: bv32, b0: bv32): bv32 {
    (b2 << 16) ^ (b1 << 8) ^ b0
  }

  /** What the bytes after the last block contribute, if there are any. */
  function TailOf(data: seq<Byte>): Option<bv32> {
    if |data| % 4 == 0 then None
    else Some(TailWord(TailByte(data, 2), TailByte(data, 1), TailByte(data, 0)))
  }

  function Hash(data: seq<Byte>): bv32 {
    HashWords(MURMUR, Start(|data|), Words(data), TailOf(data))
  }

  // ------------------------------------------------------------- the hash loop

  /** The loop of `_murmur2` over its word operations. */
  method RunHash(f: Ops<bv32>, data: seq<Byte>) returns (h: bv32)
    ensures h == HashWords(f, Start(|data|), Words(data), TailOf(data))
  {
    h := Start(|data|);
    ghost var words := Words(data);
    for i := 0 to |data| / 4
      invariant h == Blocks(f, Start(|data|), words[..i])
    {
      var k := BlockAt(data, i);
      assert k == words[i] && words[..i + 1][..i] == words[..i];
      k := f.mul(k);
      k := f.x24(k);
      k := f.mul(k);
      h := f.mul(h);
      h := f.xor(h, k);
    }
    assert words[..|data| / 4] == words;
    if |data| % 4 != 0 {
      var tail := RunTail(data);
      h := f.xor(h, tail);
      h := f.mul(h);
    }
    h := f.x13(h);
    h := f.mul(h);
    h := f.x15(h);
  }

  /**
   The fall-through over the one to three bytes that are left.  The source xors
   them into the state one by one; here they are collected first (`TailXor`).
   */
  method RunTail(data: seq<Byte>) returns (t: bv32)
    ensures t == TailWord(TailByte(data, 2), TailByte(data, 1), TailByte(data, 0))
  {
    var extra, n := |data| % 4, |data| - |data| % 4;
    t := 0;
    if extra >= 3 {
      t := XorAt(t, data[n + 2], 16);
    }
    if extra >= 2 {
      t := XorAt(t, data[n + 1], 8);
    }
    if extra >= 1 {
      t := XorAt(t, data[n], 0);
    }
    TailXor(0, TailByte(data, 2), TailByte(data, 1), TailByte(data, 0));
  }

  /** `h ^= b << shift`. */
  function XorAt(h: bv32, b: bv32, shift: nat): bv32 {
    if shift == 16 then h ^ (b << 16) else if shift == 8 then h ^ (b << 8) else h ^ b
  }

  /** Xoring the tail bytes into a state one by one is xoring the tail word into it. */
  lemma TailXor(h: bv32, b2: bv32, b1: bv32, b0: bv32)
    ensures XorAt(XorAt(XorAt(h, b2, 16), b1, 8), b0, 0) == h ^ TailWord(b2, b1, b0)
    ensures XorAt(h, 0, 16) == h && XorAt(h, 0, 8) == h && XorAt(h, 0, 0) == h && h ^ 0 == h && 0 ^ h == h
  {
  }

  /** `_murmur2`. */
  method Murmur2(data: seq<Byte>) returns (h: bv32)
    ensures h == Hash(data)
  {
    h := RunHash(MURMUR, data);
  }

  /** Python's `%`: the remainder takes the sign of the divisor. */
  function FloorMod(x: int, n: int): (r: int)
    requires n != 0
    ensures n > 0 ==> 0 <= r < n
    ensures n < 0 ==> n < r <= 0
    ensures exists q :: x == n * q + r
  {
    var r := x % n;
    if n < 0 && r != 0 then
      assert x == n * (x / n - 1) + (r + n);
      r + n
    else
      assert x == n * (x / n) + r;
      r
  }

  /** `partition_for_key`, on the encoded key: always in range; no partitions is a division by zero. */
  method PartitionForKey(data: seq<Byte>, numPartitions: int) returns (p: Option<int>)
    ensures p.None? <==> numPartitions == 0
    ensures numPartitions > 0 ==> 0 <= p.value < numPartitions
    ensures p.Some? ==> p.value == FloorMod((Hash(data) & 0x7FFF_FFFF) as int, numPartitions)
  {
    var h := Murmur2(data);
    if numPartitions == 0 {
      return None;
    }
    p := Some(FloorMod((h & 0x7FFF_FFFF) as int, numPartitions));
  }

  // ----------------------------------------------------- every step inverts

  function Untimes(x: bv32): bv32 { x * 0xE59B19BD }
  function Unfold13(x: bv32): bv32 { x ^ (x >> 13) ^ (x >> 26) }
  function Unfold15(x: bv32): bv32 { x ^ (x >> 15) ^ (x >> 30) }

  const UNMURMUR: Ops<bv32> := Ops(Untimes, Fold24, Unfold13, Unfold15, Xor)

  lemma TimesThenUntimes(x: bv32)
    ensures Untimes(Times(x)) == x
  {
    calc {
      Untimes(Times(x));
      Untimes(x * 0x5BD1E995);
      (x * 0x5BD1E995) * 0xE59B19BD;
      x;
    }
  }

  lemma UntimesThenTimes(x: bv32)
    ensures Times(Untimes(x)) == x
  {
    calc {
      Times(Untimes(x));
      Times(x * 0xE59B19BD);
      (x * 0xE59B19BD) * 0x5BD1E995;
      x;
    }
  }

  /** `m` is odd, so multiplying by it is a permutation of the words. */
  lemma TimesInverse()
    ensures Inverse(Times, Untimes)
  {
    forall x ensures Untimes(Times(x)) == x { TimesThenUntimes(x); }
    forall x ensures Times(Untimes(x)) == x { UntimesThenTimes(x); }
  }

  lemma Fold24Inverse(x: bv32)
    ensures Fold24(Fold24(x)) == x
  {
    calc {
      Fold24(Fold24(x));
      Fold24(x ^ (x >> 24));
      (x ^ (x >> 24)) ^ ((x ^ (x >> 24)) >> 24);
      x;
    }
  }

  lemma Fold13Inverse(x: bv32)
    ensures Unfold13(Fold13(x)) == x && Fold13(Unfold13(x)) == x
  {
    calc {
      Unfold13(Fold13(x));
      Unfold13(x ^ (x >> 13));
      (x ^ (x >> 13)) ^ ((x ^ (x >> 13)) >> 13) ^ ((x ^ (x >> 13)) >> 26);
      x;
    }
    calc {
      Fold13(Unfold13(x));
      Fold13(x ^ (x >> 13) ^ (x >> 26));
      (x ^ (x >> 13) ^ (x >> 26)) ^ ((x ^ (x >> 13) ^ (x >> 26)) >> 13);
      x;
    }
  }

  lemma Fold15Inverse(x: bv32)
    ensures Unfold15(Fold15(x)) == x && Fold15(Unfold15(x)) == x
  {
    calc {
      Unfold15(Fold15(x));
      Unfold15(x ^ (x >> 15));
      (x ^ (x >> 15)) ^ ((x ^ (x >> 15)) >> 15) ^ ((x ^ (x >> 15)) >> 30);
      x;
    }
    calc {
      Fold15(Unfold15(x));
      Fold15(x ^ (x >> 15) ^ (x >> 30));
      (x ^ (x >> 15) ^ (x >> 30)) ^ ((x ^ (x >> 15) ^ (x >> 30)) >> 15);
      x;
    }
  }

  /** The concrete operations have the concrete inverses. */
  lemma MurmurInverse()
    ensures Inverses(MURMUR, UNMURMUR)
  {
    TimesInverse();
    forall x ensures Fold24(Fold24(x)) == x { Fold24Inverse(x); }
    forall x ensures Unfold13(Fold13(x)) == x && Fold13(Unfold13(x)) == x { Fold13Inverse(x); }
    forall x ensures Unfold15(Fold15(x)) == x && Fold15(Unfold15(x)) == x { Fold15Inverse(x); }
    forall a, b ensures Xor(Xor(a, b), b) == a { XorRight(a, b); }
    forall a, b ensures Xor(Xor(a, b), a) == b { XorLeft(a, b); }
    forall a, b ensures Xor(a, Xor(b, a)) == b { XorSolve(a, b); }
  }

  lemma XorRight(a: bv32, b: bv32)
    ensures Xor(Xor(a, b), b) == a
  {
    calc { Xor(Xor(a, b), b); Xor(a ^ b, b); (a ^ b) ^ b; a; }
  }

  lemma XorLeft(a: bv32, b: bv32)
    ensures Xor(Xor(a, b), a) == b
  {
    calc { Xor(Xor(a, b), a); Xor(a ^ b, a); (a ^ b) ^ a; b; }
  }

  lemma XorSolve(a: bv32, b: bv32)
    ensures Xor(a, Xor(b, a)) == b
  {
    calc { Xor(a, Xor(b, a)); Xor(a, b ^ a); a ^ (b ^ a); b; }
  }

  lemma PackInverse(w: bv32)
    ensures var b := Unpack(w); Pack(b[0], b[1], b[2], b[3]) == w
  {
  }

  lemma PackInjective(a0: Byte, a1: Byte, a2: Byte, a3: Byte, b0: Byte, b1: Byte, b2: Byte, b3: Byte)
    requires Pack(a0, a1, a2, a3) == Pack(b0, b1, b2, b3)
    ensures a0 == b0 && a1 == b1 && a2 == b2 && a3 == b3
  {
  }

  // ------------------------------------------------------------ back to bytes

  /** The two keys agree outside the aligned block `j`. */
  ghost predicate AgreeOutside(a: seq<Byte>, b: seq<Byte>, j: nat) {
    && |a| == |b| && 4 * j + 4 <= |a|
    && forall i :: 0 <= i < |a| && !(4 * j <= i < 4 * j + 4) ==> a[i] == b[i]
  }

  lemma AgreeWords(a: seq<Byte>, b: seq<Byte>, j: nat)
    requires AgreeOutside(a, b, j)
    ensures j < |Words(a)| && Words(b) == Words(a)[j := BlockAt(b, j)] && TailOf(a) == TailOf(b)
  {
    forall i | 0 <= i < |Words(a)| && i != j ensures Words(b)[i] == Words(a)[i] {
      assert BlockAt(a, i) == BlockAt(b, i);
    }
    forall i: nat ensures TailByte(a, i) == TailByte(b, i) {}
  }

  lemma BlocksDiffer(a: seq<Byte>, b: seq<Byte>, j: nat)
    requires AgreeOutside(a, b, j) && a != b
    ensures BlockAt(a, j) != BlockAt(b, j)
  {
    if BlockAt(a, j) == BlockAt(b, j) {
      PackInjective(a[4 * j], a[4 * j + 1], a[4 * j + 2], a[4 * j + 3],
                    b[4 * j], b[4 * j + 1], b[4 * j + 2], b[4 * j + 3]);
      assert false;
    }
  }

  /** Two keys that differ inside exactly one aligned block have different hashes. */
  lemma BlockSeparation(a: seq<Byte>, b: seq<Byte>, j: nat)
    requires AgreeOutside(a, b, j) && a != b
    ensures Hash(a) != Hash(b)
  {
    MurmurInverse();
    AgreeWords(a, b, j);
    BlocksDiffer(a, b, j);
    WordSeparation(MURMUR, UNMURMUR, Start(|a|), Words(a), TailOf(a), j, BlockAt(b, j));
  }

  lemma TailBytesDiffer(a0: bv32, a1: bv32, a2: bv32, b0: bv32, b1: bv32, b2: bv32)
    requires a0 < 0x100 && a1 < 0x100 && a2 < 0x100 && b0 < 0x100 && b1 < 0x100 && b2 < 0x100
    ensures a0 != b0 || a1 != b1 || a2 != b2 ==> TailWord(a2, a1, a0) != TailWord(b2, b1, b0)
  {
  }

  lemma TailsDiffer(a: seq<Byte>, b: seq<Byte>)
    requires |a| == |b| && a != b && a[..|a| - |a| % 4] == b[..|a| - |a| % 4]
    ensures TailOf(a).Some? && TailOf(b).Some? && TailOf(a) != TailOf(b)
  {
    var n := |a| - |a| % 4;
    assert exists i :: 0 <= i < |a| && a[i] != b[i];
    var i :| 0 <= i < |a| && a[i] != b[i];
    forall k | 0 <= k < n ensures a[k] == b[k] {
      assert a[..n][k] == b[..n][k];
    }
    TailBytesDiffer(TailByte(a, 0), TailByte(a, 1), TailByte(a, 2), TailByte(b, 0), TailByte(b, 1), TailByte(b, 2));
    assert TailByte(a, i - n) != TailByte(b, i - n);
  }

  lemma SameWords(a: seq<Byte>, b: seq<Byte>)
    requires |a| == |b| && a[..|a| - |a| % 4] == b[..|a| - |a| % 4]
    ensures Words(a) == Words(b)
  {
    var n := |a| - |a| % 4;
    forall i | 0 <= i < n ensures a[i] == b[i] {
      assert a[..n][i] == b[..n][i];
    }
    forall i | 0 <= i < |Words(a)| ensures Words(a)[i] == Words(b)[i] {
      assert BlockAt(a, i) == BlockAt(b, i);
    }
  }

  /** Two keys that differ only in the one to three bytes after the last block have different hashes. */
  lemma TailSeparation(a: seq<Byte>, b: seq<Byte>)
    requires |a| == |b| && a != b && a[..|a| - |a| % 4] == b[..|a| - |a| % 4]
    ensures Hash(a) != Hash(b)
  {
    MurmurInverse();
    SameWords(a, b);
    TailsDiffer(a, b);
    TailWordSeparation(MURMUR, UNMURMUR, Start(|a|), Words(a), TailOf(a).value, TailOf(b).value);
  }

  /** The key with its aligned block `j` replaced. */
  function SetBlock(data: seq<Byte>, j: nat, w: bv32): seq<Byte>
    requires 4 * j + 4 <= |data|
  {
    data[..4 * j] + Unpack(w) + data[4 * j + 4..]
  }

  lemma SetBlockAgrees(data: seq<Byte>, j: nat, w: bv32)
    requires 4 * j + 4 <= |data|
    ensures AgreeOutside(data, SetBlock(data, j, w), j) && BlockAt(SetBlock(data, j, w), j) == w
  {
    PackInverse(w);
    var key := SetBlock(data, j, w);
    assert key[4 * j..4 * j + 4] == Unpack(w);
    assert forall i :: 0 <= i < 4 ==> key[4 * j + i] == Unpack(w)[i];
  }

  /** Every 32-bit value is the hash of a key that agrees with the given one outside block `j`. */
  lemma BlockReachesEvery(data: seq<Byte>, j: nat, target: bv32) returns (w: bv32)
    requires 4 * j + 4 <= |data|
    ensures AgreeOutside(data, SetBlock(data, j, w), j)
    ensures Hash(SetBlock(data, j, w)) == target
  {
    MurmurInverse();
    assert j < |Words(data)|;
    w := WordReaches(MURMUR, UNMURMUR, Start(|data|), Words(data), TailOf(data), j, target);
    SetBlockAgrees(data, j, w);
    AgreeWords(data, SetBlock(data, j, w), j);
  }

  // --------------------------------------------------------------- known values

  /** The first byte of a block is its lowest: byte `i` fills the bits from `8 * i` up. */
  lemma PackIsLittleEndian(b0: Byte, b1: Byte, b2: Byte, b3: Byte)
    ensures
      var w := Pack(b0, b1, b2, b3);
      w & 0xFF == b0 && (w >> 8) & 0xFF == b1 && (w >> 16) & 0xFF == b2 && w >> 24 == b3
  {
  }

  lemma HashOfTail(data: seq<Byte>, t: bv32)
    requires 0 < |data| < 4 && TailOf(data) == Some(t)
    ensures Hash(data) == Fold15(Times(Fold13(Times(Xor(Start(|data|), t)))))
  {
    assert Words(data) == [];
  }

  lemma HashOfBlockAndTail(data: seq<Byte>, w: bv32, t: bv32)
    requires 4 < |data| < 8 && BlockAt(data, 0) == w && TailOf(data) == Some(t)
    ensures Hash(data) ==
            Fold15(Times(Fold13(Times(Xor(Xor(Times(Start(|data|)), Times(Fold24(Times(w)))), t)))))
  {
    assert Words(data) == [w];
    OneBlockHash(MURMUR, Start(|data|), w, t);
  }

  lemma Starts()
    ensures Start(0) == 0x9747B28C && Start(2) == 0x9747B28E && Start(3) == 0x9747B28F && Start(6) == 0x9747B28A
  {
    assert (0 as bv32) == 0 && (2 as bv32) == 2 && (3 as bv32) == 3 && (6 as bv32) == 6;
  }

  /** The values of Kafka's own hash for the empty key, "21", "abc" and "foobar". */
  lemma KnownHashes()
    ensures Hash([]) == 0x106E08D9
    ensures Hash([50, 49]) == 0xC5F2F8EC
    ensures Hash([97, 98, 99]) == 0x1C94221B
    ensures Hash([102, 111, 111, 98, 97, 114]) == 0xD0E47BBE
  {
    Starts();
    KnownEmpty();
    KnownTwo();
    KnownThree();
    KnownLong();
  }

  lemma KnownEmpty()
    ensures Hash([]) == 0x106E08D9
  {
    Starts();
    assert Words([]) == [] && TailOf([]) == None;
    assert Hash([]) == Fold15(Times(Fold13(0x9747B28C)));
  }

  lemma KnownTwo()
    ensures Hash([50, 49]) == 0xC5F2F8EC
  {
    Starts();
    var data: seq<Byte> := [50, 49];
    assert TailByte(data, 2) == 0 && TailByte(data, 1) == 49 && TailByte(data, 0) == 50;
    HashOfTail(data, TailWord(0, 49, 50));
  }

  lemma KnownThree()
    ensures Hash([97, 98, 99]) == 0x1C94221B
  {
    Starts();
    var data: seq<Byte> := [97, 98, 99];
    assert TailByte(data, 2) == 99 && TailByte(data, 1) == 98 && TailByte(data, 0) == 97;
    HashOfTail(data, TailWord(99, 98, 97));
  }

  lemma KnownLong()
    ensures Hash([102, 111, 111, 98, 97, 114]) == 0xD0E47BBE
  {
    Starts();
    var data: seq<Byte> := [102, 111, 111, 98, 97, 114];
    assert TailByte(data, 2) == 0 && TailByte(data, 1) == 114 && TailByte(data, 0) == 97;
    HashOfBlockAndTail(data, Pack(102, 111, 111, 98), TailWord(0, 114, 97));
  }
}
