/** Shards as stored chunks (src/store.rs:104-150, src/store.rs:423-443): the byte form of a shard, the hash that
    names it, and the content-addressed store of one device. */
module Chunks {
  import opened Numbers
  import opened Goldilocks
  import opened Bytes
  import opened Erasure
  import opened Words

  /** A digest. Its length is left open; where the 32 bytes matter they are assumed. */
  type Digest = seq<Byte>
  type Hash = seq<Byte> -> Digest

  /** No two of these inputs share a digest. */
  ghost predicate CollisionFreeOn(h: Hash, inputs: set<seq<Byte>>) {
    forall a, b :: a in inputs && b in inputs && h(a) == h(b) ==> a == b
  }

  // ---------- the byte form of a shard ----------

  function ElementBytes(data: seq<Element>): (b: seq<Byte>)
    ensures |b| == 8 * |data|
  {
    if data == [] then [] else ToLE(data[0], 8) + ElementBytes(data[1..])
  }

  /** Whole 8-byte words only; a trailing partial word is dropped. */
  function BytesElements(bytes: seq<Byte>): (data: seq<Element>)
    ensures |data| == |bytes| / 8
  {
    if |bytes| < 8 then [] else [Reduce(FromLE(bytes[..8]))] + BytesElements(bytes[8..])
  }

  function BytesToShard(index: nat, bytes: seq<Byte>): Shard {
    Shard(index, BytesElements(bytes))
  }

  lemma {:induction false} BytesElementsInverse(data: seq<Element>)
    ensures BytesElements(ElementBytes(data)) == data
  {
    if data == [] {
    } else {
      BytesElementsInverse(data[1..]);
      var b := ElementBytes(data);
      assert b[..8] == ToLE(data[0], 8) && b[8..] == ElementBytes(data[1..]);
      Limits();
      FromLEToLE(data[0], 8);
      ReduceFixed(data[0]);
    }
  }

  method ShardToBytes(shard: Shard) returns (bytes: seq<Byte>)
    ensures bytes == ElementBytes(shard.data)
  {
    bytes := [];
    var i := 0;
    while i < |shard.data|
      invariant 0 <= i <= |shard.data|
      invariant ElementBytes(shard.data) == bytes + ElementBytes(shard.data[i..])
    {
      bytes := bytes + ToLE(shard.data[i], 8);
      assert shard.data[i..][1..] == shard.data[i + 1..];
      i := i + 1;
    }
  }

  method BytesToShardLoop(index: nat, bytes: seq<Byte>) returns (shard: Shard)
    ensures shard == BytesToShard(index, bytes)
  {
    var data: seq<Element> := [];
    var i := 0;
    while i < |bytes|
      invariant 0 <= i <= |bytes|
      invariant BytesElements(bytes) == data + BytesElements(bytes[i..])
    {
      var end := if i + 8 <= |bytes| then i + 8 else |bytes|;
      if end - i == 8 {
        assert bytes[i..][..8] == bytes[i..end] && bytes[i..][8..] == bytes[end..];
        data := data + [Reduce(FromLE(bytes[i..end]))];
      }
      i := end;
    }
    shard := Shard(index, data);
  }

  // ---------- the store of one device ----------

  datatype ChunkStore = ChunkStore(index: map<Digest, seq<Byte>>, capacity: Amount, used: Amount)

  datatype PutOutcome = Stored(store: ChunkStore, hash: Digest) | CapacityExceeded

  function EmptyStore(capacity: Amount): ChunkStore {
    ChunkStore(map[], capacity, 0)
  }

  function PutBytes(store: ChunkStore, h: Hash, bytes: seq<Byte>): PutOutcome {
    var hash := h(bytes);
    if store.capacity > 0 && SaturatingAdd(store.used, |bytes|) > store.capacity then CapacityExceeded
    else
      var used := if hash in store.index then store.used else SaturatingAdd(store.used, |bytes|);
      Stored(store.(index := store.index[hash := bytes], used := used), hash)
  }

  /** Every chunk is filed under its own hash. */
  ghost predicate Addressed(store: ChunkStore, h: Hash) {
    forall d :: d in store.index ==> h(store.index[d]) == d
  }

  /** The chunks of `a` are all in `b`. */
  ghost predicate Grows(a: ChunkStore, b: ChunkStore) {
    forall d :: d in a.index ==> d in b.index
  }

  lemma PutKeepsAddressing(store: ChunkStore, h: Hash, bytes: seq<Byte>)
    requires Addressed(store, h) && PutBytes(store, h, bytes).Stored?
    ensures var r := PutBytes(store, h, bytes);
            Addressed(r.store, h) && Grows(store, r.store) && r.hash == h(bytes) && r.hash in r.store.index
            && r.store.capacity == store.capacity
  {
  }
}
