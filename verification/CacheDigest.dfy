/** The Bloom filter of `proxy/src/cache_digest.rs` that peers exchange to say what they may hold. */
module CacheDigest {

  /** The first eight bytes of the seeded SHA-256 of a key, as a number. */
  type Hash = (string, nat) -> nat

  function Index(hash: Hash, key: string, seed: nat, bitCount: nat): (i: nat)
    requires bitCount > 0
    ensures i < bitCount
  {
    hash(key, seed) % bitCount
  }

  /** `1 << bit`. */
  function Mask(bit: nat): bv8
    requires bit < 8
  {
    if bit == 0 then 0x01 else if bit == 1 then 0x02 else if bit == 2 then 0x04 else if bit == 3 then 0x08
    else if bit == 4 then 0x10 else if bit == 5 then 0x20 else if bit == 6 then 0x40 else 0x80
  }

  lemma MaskIs(bit: nat)
    requires bit < 8
    ensures Mask(bit) == (1 as bv8) << bit
  {
  }

  function ByteLength(bitCount: nat): nat { (bitCount + 7) / 8 }

  predicate ByteHas(x: bv8, bit: nat)
    requires bit < 8
  {
    x & Mask(bit) != 0
  }

  function ByteWith(x: bv8, bit: nat): bv8
    requires bit < 8
  {
    x | Mask(bit)
  }

  lemma OrMask(x: bv8, a: nat, b: nat)
    requires a < 8 && b < 8
    ensures ByteHas(ByteWith(x, a), b) <==> a == b || ByteHas(x, b)
  {
  }

  predicate BitSet(bits: seq<bv8>, i: nat)
    requires i / 8 < |bits|
  {
    ByteHas(bits[i / 8], i % 8)
  }

  lemma InBytes(i: nat, bitCount: nat)
    requires i < bitCount
    ensures i / 8 < ByteLength(bitCount)
  {
  }

  /** The bits that a key switches on. */
  predicate Touches(hash: Hash, key: string, hashCount: nat, bitCount: nat, i: nat)
    requires bitCount > 0
  {
    exists seed :: 0 <= seed < hashCount && Index(hash, key, seed, bitCount) == i
  }

  /** The bytes hold exactly the bits of these keys. */
  ghost predicate Holds(bits: seq<bv8>, keys: set<string>, hash: Hash, hashCount: nat, bitCount: nat) {
    && bitCount > 0 && |bits| == ByteLength(bitCount)
    && forall i: nat :: i < bitCount ==>
        i / 8 < |bits| && (BitSet(bits, i) <==> exists k :: k in keys && Touches(hash, k, hashCount, bitCount, i))
  }

  /** What a query ought to answer: every bit of the key is a bit of some inserted key. */
  ghost predicate Covered(keys: set<string>, key: string, hash: Hash, hashCount: nat, bitCount: nat)
    requires bitCount > 0
  {
    forall seed: nat :: seed < hashCount ==> SeedCovered(keys, key, seed, hash, hashCount, bitCount)
  }

  ghost predicate SeedCovered(keys: set<string>, key: string, seed: nat, hash: Hash, hashCount: nat, bitCount: nat)
    requires bitCount > 0
  {
    exists k :: k in keys && Touches(hash, k, hashCount, bitCount, Index(hash, key, seed, bitCount))
  }

  /** A key that was inserted is always covered: there are no false negatives. */
  lemma InsertedIsCovered(keys: set<string>, key: string, hash: Hash, hashCount: nat, bitCount: nat)
    requires bitCount > 0 && key in keys
    ensures Covered(keys, key, hash, hashCount, bitCount)
  {
    forall seed: nat | seed < hashCount
      ensures SeedCovered(keys, key, seed, hash, hashCount, bitCount)
    {
      assert Touches(hash, key, hashCount, bitCount, Index(hash, key, seed, bitCount));
    }
  }

  function WithBit(bits: seq<bv8>, i: nat): seq<bv8>
    requires i / 8 < |bits|
  {
    bits[i / 8 := ByteWith(bits[i / 8], i % 8)]
  }

  lemma WithBitSets(bits: seq<bv8>, i: nat, j: nat)
    requires i / 8 < |bits| && j / 8 < |bits|
    ensures BitSet(WithBit(bits, i), j) <==> i == j || BitSet(bits, j)
  {
    hide ByteHas, ByteWith;
    if i / 8 == j / 8 {
      OrMask(bits[i / 8], i % 8, j % 8);
      assert i == j <==> i % 8 == j % 8;
    }
  }

  class Digest {
    var bits: seq<bv8>
    const bitCount: nat
    const hashCount: nat
    const hash: Hash

    /** This filter answers for exactly these keys. */
    ghost predicate Of(keys: set<string>)
      reads this
    {
      Holds(bits, keys, hash, hashCount, bitCount)
    }

    constructor (bitCount: nat, hashCount: nat, hash: Hash)
      ensures bitCount > 0 ==> Of({})
      ensures this.bitCount == bitCount && this.hashCount == hashCount && this.hash == hash
    {
      this.bitCount, this.hashCount, this.hash := bitCount, hashCount, hash;
      bits := seq(ByteLength(bitCount), _ => 0);
    }

    /** `from_bytes`, when the length is right. */
    constructor FromBytes(bytes: seq<bv8>, bitCount: nat, hashCount: nat, hash: Hash)
      requires |bytes| == ByteLength(bitCount)
      ensures bits == bytes && this.bitCount == bitCount && this.hashCount == hashCount && this.hash == hash
    {
      this.bitCount, this.hashCount, this.hash := bitCount, hashCount, hash;
      bits := bytes;
    }

    method ToBytes() returns (bytes: seq<bv8>)
      ensures bytes == bits
    {
      return bits;
    }

    method Insert(key: string, ghost keys: set<string>)
      requires Of(keys)
      modifies this
      ensures Of(keys + {key})
    {
      hide Index, ByteHas, ByteWith;
      for seed := 0 to hashCount
        invariant |bits| == ByteLength(bitCount)
        invariant forall i: nat :: i < bitCount ==> i / 8 < |bits| && (BitSet(bits, i) <==>
          (exists k :: k in keys && Touches(hash, k, hashCount, bitCount, i)) || Touches(hash, key, seed, bitCount, i))
      {
        ghost var before := bits;
        var index := Index(hash, key, seed, bitCount);
        InBytes(index, bitCount);
        bits := bits[index / 8 := ByteWith(bits[index / 8], index % 8)];
        forall i: nat | i < bitCount
          ensures i / 8 < |bits| && (BitSet(bits, i) <==>
            (exists k :: k in keys && Touches(hash, k, hashCount, bitCount, i)) || Touches(hash, key, seed + 1, bitCount, i))
        {
          WithBitSets(before, index, i);
          TouchesNext(hash, key, seed, bitCount, i);
        }
      }
      forall i: nat | i < bitCount
        ensures BitSet(bits, i) <==> exists k :: k in keys + {key} && Touches(hash, k, hashCount, bitCount, i)
      {
        if Touches(hash, key, hashCount, bitCount, i) {
          assert key in keys + {key};
        }
        if exists k :: k in keys && Touches(hash, k, hashCount, bitCount, i) {
          var k :| k in keys && Touches(hash, k, hashCount, bitCount, i);
          assert k in keys + {key};
        }
      }
    }

    /** `might_contain`: exactly the keys whose every bit is a bit of some inserted key. */
    method MightContain(key: string, ghost keys: set<string>) returns (r: bool)
      requires Of(keys)
      ensures r <==> Covered(keys, key, hash, hashCount, bitCount)
      ensures key in keys ==> r
    {
      if key in keys { InsertedIsCovered(keys, key, hash, hashCount, bitCount); }
      for seed := 0 to hashCount
        invariant forall s: nat :: s < seed ==> SeedCovered(keys, key, s, hash, hashCount, bitCount)
      {
        var index := Index(hash, key, seed, bitCount);
        InBytes(index, bitCount);
        if !ByteHas(bits[index / 8], index % 8) {
          assert !BitSet(bits, index);
          assert !SeedCovered(keys, key, seed, hash, hashCount, bitCount);
          return false;
        }
        assert BitSet(bits, index);
      }
      return true;
    }
  }

  lemma TouchesNext(hash: Hash, key: string, seed: nat, bitCount: nat, i: nat)
    requires bitCount > 0
    ensures Touches(hash, key, seed + 1, bitCount, i) <==> Touches(hash, key, seed, bitCount, i) || Index(hash, key, seed, bitCount) == i
  {
    if Index(hash, key, seed, bitCount) == i {
      assert 0 <= seed < seed + 1;
    }
    if Touches(hash, key, seed, bitCount, i) {
      var s :| 0 <= s < seed && Index(hash, key, s, bitCount) == i;
      assert 0 <= s < seed + 1;
    }
  }

  method FromBytes(bytes: seq<bv8>, bitCount: nat, hashCount: nat, hash: Hash) returns (d: Digest?)
    ensures d == null <==> |bytes| != ByteLength(bitCount)
    ensures d != null ==> fresh(d) && d.bits == bytes && d.bitCount == bitCount && d.hashCount == hashCount && d.hash == hash
  {
    if |bytes| != ByteLength(bitCount) {
      return null;
    }
    d := new Digest.FromBytes(bytes, bitCount, hashCount, hash);
  }

  /** A peer that receives the bytes answers every query as the sender would, for any positive bit count. */
  method Exchanged(sender: Digest, key: string, ghost keys: set<string>) returns (there: bool)
    requires sender.Of(keys)
    ensures there <==> Covered(keys, key, sender.hash, sender.hashCount, sender.bitCount)
    ensures key in keys ==> there
  {
    var bytes := sender.ToBytes();
    var copy := FromBytes(bytes, sender.bitCount, sender.hashCount, sender.hash);
    there := copy.MightContain(key, keys);
  }
}
