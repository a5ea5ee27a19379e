/** Reading and writing byte strings: parsers that consume from the front, methods that advance an offset over a buffer,
    and lists of items put and parsed one after the other. */
module Cursor {
  import opened Bytes
  import opened Words

  type Id = b: seq<Byte> | |b| == 32 witness ZeroBytes(32)

  datatype Parsed<+T> = Got(value: T, rest: seq<Byte>) | Short {
    predicate IsFailure() {
      Short?
    }

    function PropagateFailure<U>(): Parsed<U>
      requires Short?
    {
      Short
    }

    function Extract(): (T, seq<Byte>)
      requires Got?
    {
      (value, rest)
    }
  }

  function TakeByte(s: seq<Byte>): Parsed<Byte> {
    if s == [] then Short else Got(s[0], s[1..])
  }

  function TakeId(s: seq<Byte>): Parsed<Id> {
    if |s| < 32 then Short else Got(s[..32], s[32..])
  }

  function TakeInt(n: nat, s: seq<Byte>): (p: Parsed<nat>)
    ensures p.Got? ==> p.value < Limit(n)
  {
    if |s| < n then Short else Got(FromLE(s[..n]), s[n..])
  }

  /** An 8-bit two's complement number. */
  function SignedByte(b: Byte): int {
    if b < 128 then b else b - 256
  }

  function ValenceByte(v: int): Byte {
    v % 256
  }

  lemma TakeByteBack(b: Byte, tail: seq<Byte>)
    ensures TakeByte([b] + tail) == Got(b, tail)
  {
    assert ([b] + tail)[1..] == tail;
  }

  lemma TakeIdBack(id: Id, tail: seq<Byte>)
    ensures TakeId(id + tail) == Got(id, tail)
  {
    assert (id + tail)[..32] == id && (id + tail)[32..] == tail;
  }

  lemma TakeIntBack(v: nat, n: nat, tail: seq<Byte>)
    requires v < Limit(n)
    ensures TakeInt(n, ToLE(v, n) + tail) == Got(v, tail)
  {
    assert (ToLE(v, n) + tail)[..n] == ToLE(v, n) && (ToLE(v, n) + tail)[n..] == tail;
    FromLEToLE(v, n);
  }

  lemma SignedByteBack(v: int)
    requires -128 <= v < 128
    ensures SignedByte(ValenceByte(v)) == v
  {
  }

  // ---------- lists ----------

  /** An item in front of a tail. */
  type Put<!T> = (T, seq<Byte>) -> seq<Byte>
  type Parse<!T> = seq<Byte> -> Parsed<T>

  function PutMany<T>(put: Put<T>, xs: seq<T>, tail: seq<Byte>): seq<Byte> {
    if xs == [] then tail else put(xs[0], PutMany(put, xs[1..], tail))
  }

  function ParseMany<T>(item: Parse<T>, n: nat, s: seq<Byte>, soFar: seq<T>): (p: Parsed<seq<T>>)
    ensures p.Got? ==> |p.value| == |soFar| + n
  {
    if n == 0 then Got(soFar, s)
    else
      var (x, r) :- item(s);
      ParseMany(item, n - 1, r, soFar + [x])
  }

  /** If every item comes back from its own encoding, so does the list. */
  lemma {:induction false} ManyBack<T(!new)>(put: Put<T>, item: Parse<T>, xs: seq<T>, tail: seq<Byte>, soFar: seq<T>)
    requires forall x, t :: x in xs ==> item(put(x, t)) == Got(x, t)
    ensures ParseMany(item, |xs|, PutMany(put, xs, tail), soFar) == Got(soFar + xs, tail)
  {
    if xs == [] {
      assert soFar + xs == soFar;
    } else {
      ManyBack(put, item, xs[1..], tail, soFar + [xs[0]]);
      assert soFar + [xs[0]] + xs[1..] == soFar + xs;
    }
  }

  /** What is put in front does not depend on the tail. */
  ghost predicate Prefixes<T(!new)>(put: Put<T>) {
    forall x, mid, tail :: put(x, mid + tail) == put(x, mid) + tail
  }

  lemma {:induction false} PutManyTail<T(!new)>(put: Put<T>, xs: seq<T>, tail: seq<Byte>)
    requires Prefixes(put)
    ensures PutMany(put, xs, tail) == PutMany(put, xs, []) + tail
  {
    if xs == [] {
      assert [] + tail == tail;
    } else {
      PutManyTail(put, xs[1..], tail);
    }
  }

  lemma {:induction false} PutManySnoc<T(!new)>(put: Put<T>, xs: seq<T>, x: T)
    requires Prefixes(put)
    ensures PutMany(put, xs + [x], []) == PutMany(put, xs, []) + put(x, [])
  {
    if xs == [] {
      assert xs + [x] == [x];
      assert [] + put(x, []) == put(x, []);
    } else {
      PutManySnoc(put, xs[1..], x);
      assert (xs + [x])[1..] == xs[1..] + [x];
    }
  }

  // ---------- reading at an offset ----------

  /** r and the new offset say what the parse of the remaining bytes says. */
  ghost predicate ReadAs<T(!new)>(r: Option<T>, bytes: seq<Byte>, off: nat, p: Parsed<T>) {
    && off <= |bytes|
    && match p
       case Short => r == None
       case Got(v, rest) => r == Some(v) && bytes[off..] == rest
  }

  method ReadByte(bytes: seq<Byte>, off: nat) returns (r: Option<Byte>, next: nat)
    requires off <= |bytes|
    ensures ReadAs(r, bytes, next, TakeByte(bytes[off..]))
  {
    if off == |bytes| {
      return None, off;
    }
    r, next := Some(bytes[off]), off + 1;
    assert bytes[off..][1..] == bytes[off + 1..];
  }

  method Read32(bytes: seq<Byte>, off: nat) returns (r: Option<Id>, next: nat)
    requires off <= |bytes|
    ensures ReadAs(r, bytes, next, TakeId(bytes[off..]))
  {
    if off + 32 > |bytes| {
      return None, off;
    }
    r, next := Some(bytes[off..off + 32]), off + 32;
    assert bytes[off..][..32] == bytes[off..off + 32];
  }

  method ReadInt(bytes: seq<Byte>, off: nat, n: nat) returns (r: Option<nat>, next: nat)
    requires off <= |bytes|
    ensures ReadAs(r, bytes, next, TakeInt(n, bytes[off..]))
  {
    if off + n > |bytes| {
      return None, off;
    }
    r, next := Some(FromLE(bytes[off..off + n])), off + n;
    assert bytes[off..][..n] == bytes[off..off + n];
  }
}
