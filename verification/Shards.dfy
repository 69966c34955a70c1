/** The shard of a key: FNV-1a over its bytes, masked to 256 shards
    (src/algorithm/token_bucket.rs:22-25, 195-216). */
module Shards {

  type Key = seq<bv8>

  const NUM_SHARDS := 256
  const FNV_OFFSET_BASIS: bv64 := 0xcbf29ce484222325

  /** One byte of FNV-1a, wrapping at 64 bits. */
  function FnvStep(hash: bv64, byte: bv8): bv64 {
    (hash ^ (byte as bv64)) * 0x100000001b3
  }

  function FnvFrom(hash: bv64, key: Key): bv64
    decreases key
  {
    if key == [] then hash else FnvFrom(FnvStep(hash, key[0]), key[1..])
  }

  function Masked(hash: bv64): bv8 {
    (hash & 0xff) as bv8
  }

  function ShardIndex(key: Key): (i: nat)
    ensures i < NUM_SHARDS
  {
    Masked(FnvFrom(FNV_OFFSET_BASIS, key)) as nat
  }

  method GetShardIndex(key: Key) returns (index: nat)
    ensures index == ShardIndex(key)
  {
    var hash: bv64 := FNV_OFFSET_BASIS;
    for i := 0 to |key|
      invariant FnvFrom(hash, key[i..]) == FnvFrom(FNV_OFFSET_BASIS, key)
    {
      assert key[i..][0] == key[i] && key[i..][1..] == key[i + 1..];
      hash := FnvStep(hash, key[i]);
    }
    assert key[|key|..] == [];
    index := Masked(hash) as nat;
  }

  // The mask keeps only the low byte, and the low byte evolves on its own.

  function LowStep(low: bv8, byte: bv8): bv8 {
    (low ^ byte) * 0xb3
  }

  function LowFrom(low: bv8, key: Key): bv8
    decreases key
  {
    if key == [] then low else LowFrom(LowStep(low, key[0]), key[1..])
  }

  lemma LowByteOfStep(hash: bv64, byte: bv8)
    ensures Masked(FnvStep(hash, byte)) == LowStep(Masked(hash), byte)
  {
  }

  /** Eight bits suffice: the shard is that of a byte-wide hash. */
  lemma {:induction false} LowByteDecidesShard(hash: bv64, key: Key)
    ensures Masked(FnvFrom(hash, key)) == LowFrom(Masked(hash), key)
    decreases key
  {
    if key != [] {
      LowByteOfStep(hash, key[0]);
      LowByteDecidesShard(FnvStep(hash, key[0]), key[1..]);
    }
  }

  lemma LowStepIsInjective(low: bv8, low': bv8, byte: bv8)
    ensures LowStep(low, byte) == LowStep(low', byte) ==> low == low'
  {
  }

  lemma LowStepSeparatesBytes(low: bv8, byte: bv8, byte': bv8)
    ensures LowStep(low, byte) == LowStep(low, byte') ==> byte == byte'
  {
  }

  lemma {:induction false} LowFromIsInjective(low: bv8, low': bv8, key: Key)
    requires low != low'
    ensures LowFrom(low, key) != LowFrom(low', key)
    decreases key
  {
    if key != [] {
      LowStepIsInjective(low, low', key[0]);
      LowFromIsInjective(LowStep(low, key[0]), LowStep(low', key[0]), key[1..]);
    }
  }

  lemma {:induction false} LowFromSeparates(low: bv8, key: Key, i: nat, byte: bv8)
    requires i < |key| && byte != key[i]
    ensures LowFrom(low, key) != LowFrom(low, key[i := byte])
    decreases key
  {
    if i == 0 {
      assert key[0 := byte][1..] == key[1..];
      LowStepSeparatesBytes(low, key[0], byte);
      LowFromIsInjective(LowStep(low, key[0]), LowStep(low, byte), key[1..]);
    } else {
      assert key[i := byte][1..] == key[1..][i - 1 := byte];
      LowFromSeparates(LowStep(low, key[0]), key[1..], i - 1, byte);
    }
  }

  lemma {:induction false} ShardIsLowByte(key: Key)
    ensures ShardIndex(key) == LowFrom(0x25, key) as nat
  {
    LowByteDecidesShard(FNV_OFFSET_BASIS, key);
  }

  /** Changing any one byte of a key always moves it to another shard. */
  lemma OneByteMovesTheShard(key: Key, i: nat, byte: bv8)
    requires i < |key| && byte != key[i]
    ensures ShardIndex(key) != ShardIndex(key[i := byte])
  {
    ShardIsLowByte(key);
    ShardIsLowByte(key[i := byte]);
    LowFromSeparates(0x25, key, i, byte);
    ByteToNat(LowFrom(0x25, key), LowFrom(0x25, key[i := byte]));
  }

  lemma ByteToNat(x: bv8, y: bv8)
    ensures x != y ==> x as nat != y as nat
  {
    assert (x as nat) as bv8 == x && (y as nat) as bv8 == y;
  }

  // Published values of FNV-1a at 64 bits.

  lemma {:induction false} HashOf(hash: bv64, byte: bv8, rest: Key)
    ensures FnvFrom(hash, [byte] + rest) == FnvFrom(FnvStep(hash, byte), rest)
  {
    assert ([byte] + rest)[1..] == rest;
  }

  /** The hashes of "", "a" and "foobar", which FNV-1 and other variants do not have. */
  lemma KnownHashes()
    ensures FnvFrom(FNV_OFFSET_BASIS, []) == 0xcbf29ce484222325
    ensures FnvFrom(FNV_OFFSET_BASIS, [0x61]) == 0xaf63dc4c8601ec8c
    ensures FnvFrom(FNV_OFFSET_BASIS, [0x66, 0x6f, 0x6f, 0x62, 0x61, 0x72]) == 0x85944171f73967e8
  {
    var bar: Key := [0x62, 0x61, 0x72];
    assert [0x61 as bv8] == [0x61] + [];
    HashOf(FNV_OFFSET_BASIS, 0x61, []);
    assert [0x66, 0x6f, 0x6f, 0x62, 0x61, 0x72] == [0x66] + ([0x6f] + ([0x6f] + bar));
    HashOf(FNV_OFFSET_BASIS, 0x66, [0x6f] + ([0x6f] + bar));
    HashOf(0xaf63db4c8601ead9, 0x6f, [0x6f] + bar);
    HashOf(0x8985907b541d342, 0x6f, bar);
    assert bar == [0x62] + ([0x61] + ([0x72] + []));
    HashOf(0xdcb27518fed9d577, 0x62, [0x61] + ([0x72] + []));
    HashOf(0xdd120e790c2512af, 0x61, [0x72] + []);
    HashOf(0xcac165afa2fef40a, 0x72, []);
  }
}
