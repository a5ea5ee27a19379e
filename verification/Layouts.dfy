/** Where the fields of encoded messages are (src/wire.rs:34-68, src/wire.rs:141-223, src/frames.rs:132-170): byte positions
    and widths, said of the bytes alone. */
module Layouts {
  import opened Goldilocks
  import opened Bytes
  import opened Shards
  import opened Cursor
  import Wire
  import Frames
  import Tickets
  import Radio

  // ---------- positions ----------

  /** From position p on the bytes are s. */
  predicate At(b: seq<Byte>, p: nat, s: seq<Byte>) {
    p <= |b| && b[p..] == s
  }

  /** The bytes at position p are x. */
  predicate BytesAre(b: seq<Byte>, p: nat, x: seq<Byte>) {
    p + |x| <= |b| && b[p..p + |x|] == x
  }

  /** The w bytes at position p are the little-endian number v. */
  predicate NumberIs(b: seq<Byte>, p: nat, w: nat, v: int) {
    p + w <= |b| && LittleEndian(b, p, w) == v
  }

  lemma AtBytes(b: seq<Byte>, p: nat, x: seq<Byte>, rest: seq<Byte>)
    requires At(b, p, x + rest)
    ensures BytesAre(b, p, x) && At(b, p + |x|, rest)
  {
    assert b[p..][..|x|] == x && b[p..][|x|..] == rest;
    assert b[p..][..|x|] == b[p..p + |x|] && b[p..][|x|..] == b[p + |x|..];
  }

  lemma AtNumber(b: seq<Byte>, p: nat, v: nat, w: nat, rest: seq<Byte>)
    requires At(b, p, ToLE(v, w) + rest) && v < Limit(w)
    ensures NumberIs(b, p, w, v) && At(b, p + w, rest)
  {
    AtBytes(b, p, ToLE(v, w), rest);
    forall j | 0 <= j < w
      ensures ByteAt(b, p + j) == ByteAt(ToLE(v, w), j)
    {
      assert b[p..p + w][j] == b[p + j];
    }
    NumberOfBytes(ToLE(v, w), b, p, w);
    FromLEToLE(v, w);
  }

  lemma AtTheEnd(b: seq<Byte>, p: nat)
    requires At(b, p, [])
    ensures |b| == p
  {
    assert |b[p..]| == |b| - p;
  }

  /** The i-th of a list of items, each w bytes wide. */
  lemma {:induction false} AtItem<T(!new)>(b: seq<Byte>, p: nat, put: Put<T>, w: nat, xs: seq<T>, tail: seq<Byte>, i: nat) returns (rest: seq<Byte>)
    requires At(b, p, PutMany(put, xs, tail)) && Prefixes(put) && (forall x :: x in xs ==> |put(x, [])| == w) && i < |xs|
    ensures p + w * i <= |b| && At(b, p + w * i, put(xs[i], rest))
    decreases i
  {
    rest := PutMany(put, xs[1..], tail);
    assert PutMany(put, xs, tail) == put(xs[0], rest);
    hide PutMany;
    if i == 0 {
      assert p + w * 0 == p;
    } else {
      assert [] + rest == rest;
      AtBytes(b, p, put(xs[0], []), rest);
      rest := AtItem(b, p + w, put, w, xs[1..], tail, i - 1);
      NextOffset(p, w, i);
      assert xs[1..][i - 1] == xs[i];
    }
  }

  lemma NextOffset(p: nat, w: nat, i: nat)
    requires i > 0
    ensures p + w + w * (i - 1) == p + w * i
  {
  }

  lemma {:induction false} AtEnd<T(!new)>(b: seq<Byte>, p: nat, put: Put<T>, w: nat, xs: seq<T>, tail: seq<Byte>)
    requires At(b, p, PutMany(put, xs, tail)) && Prefixes(put) && forall x :: x in xs ==> |put(x, [])| == w
    ensures At(b, p + w * |xs|, tail)
    decreases |xs|
  {
    if xs != [] {
      var rest := PutMany(put, xs[1..], tail);
      assert [] + rest == rest;
      AtBytes(b, p, put(xs[0], []), rest);
      AtEnd(b, p + w, put, w, xs[1..], tail);
      NextOffset(p, w, |xs|);
    }
  }

  // ---------- settle messages ----------

  /** A link: three ids, 16 bytes of amount, one of valence, eight of price; 121 bytes. */
  predicate LinkAt(b: seq<Byte>, p: nat, l: Wire.Link) {
    && BytesAre(b, p, l.neuron) && BytesAre(b, p + 32, l.from) && BytesAre(b, p + 64, l.to)
    && NumberIs(b, p + 96, 16, l.amount) && BytesAre(b, p + 112, [l.valence % 256]) && NumberIs(b, p + 113, 8, l.price)
  }

  lemma WireLinkAt(b: seq<Byte>, p: nat, l: Wire.Link, rest: seq<Byte>)
    requires At(b, p, Wire.PutLink(l, rest)) && Wire.LinkFits(l)
    ensures LinkAt(b, p, l)
  {
    Limits();
    hide ToLE, Limit, LittleEndian;
    var s5 := ToLE(l.price, 8) + rest;
    var s4 := [ValenceByte(l.valence)] + s5;
    var s3 := ToLE(l.amount, 16) + s4;
    AtBytes(b, p, l.neuron, l.from + (l.to + s3));
    AtBytes(b, p + 32, l.from, l.to + s3);
    AtBytes(b, p + 64, l.to, s3);
    AtNumber(b, p + 96, l.amount, 16, s4);
    AtBytes(b, p + 112, [ValenceByte(l.valence)], s5);
    AtNumber(b, p + 113, l.price, 8, rest);
  }

  lemma WireLinkSize(l: Wire.Link)
    ensures |Wire.PutLink(l, [])| == 121
  {
    hide ToLE;
  }

  /** The first six bytes of a message: the letters FSET, version 1, and the type. */
  predicate HeaderIs(b: seq<Byte>, ty: Byte) {
    BytesAre(b, 0, [0x46, 0x53, 0x45, 0x54, 1, ty])
  }

  /** A claim: type 1; topic, claim id, sender; belief and prediction; the links. */
  lemma ClaimLayout(walk: Wire.Walk, topic: Id, claimId: Id, sender: Id, claim: Wire.Claim)
    requires |claim.links| < 0x1_0000_0000 && forall i :: 0 <= i < |claim.links| ==> Wire.LinkFits(claim.links[i])
    ensures
      var b := Wire.Encoded(walk, Wire.ClaimAnnounce(topic, claimId, sender, claim));
      && |b| == 122 + 121 * |claim.links| && HeaderIs(b, 1)
      && BytesAre(b, 6, topic) && BytesAre(b, 38, claimId) && BytesAre(b, 70, sender)
      && NumberIs(b, 102, 8, claim.belief) && NumberIs(b, 110, 8, claim.prediction) && NumberIs(b, 118, 4, |claim.links|)
      && forall i :: 0 <= i < |claim.links| ==> LinkAt(b, 122 + 121 * i, claim.links[i])
  {
    Limits();
    Wire.PutsArePrefixes();
    hide ToLE, Limit, LittleEndian, Wire.PutLink, Prefixes, PutMany, LinkAt;
    var b := Wire.Encoded(walk, Wire.ClaimAnnounce(topic, claimId, sender, claim));
    var links := PutMany(Wire.PutLink, claim.links, []);
    var s3 := ToLE(|claim.links|, 4) + links;
    var s2 := ToLE(claim.prediction, 8) + s3;
    var s1 := ToLE(claim.belief, 8) + s2;
    assert b == [0x46, 0x53, 0x45, 0x54, 1, 1] + (topic + (claimId + (sender + s1)));
    AtBytes(b, 0, [0x46, 0x53, 0x45, 0x54, 1, 1], topic + (claimId + (sender + s1)));
    AtBytes(b, 6, topic, claimId + (sender + s1));
    AtBytes(b, 38, claimId, sender + s1);
    AtBytes(b, 70, sender, s1);
    AtNumber(b, 102, claim.belief, 8, s2);
    AtNumber(b, 110, claim.prediction, 8, s3);
    AtNumber(b, 118, |claim.links|, 4, links);
    LinksAt(b, 122, claim.links);
  }

  lemma LinksAt(b: seq<Byte>, p: nat, links: seq<Wire.Link>)
    requires At(b, p, PutMany(Wire.PutLink, links, [])) && forall i :: 0 <= i < |links| ==> Wire.LinkFits(links[i])
    ensures |b| == p + 121 * |links| && forall i :: 0 <= i < |links| ==> LinkAt(b, p + 121 * i, links[i])
  {
    LinksWide(links);
    hide Wire.PutLink, Prefixes, PutMany, LinkAt, Wire.LinkFits, At;
    AtEnd(b, p, Wire.PutLink, 121, links, []);
    AtTheEnd(b, p + 121 * |links|);
    forall i | 0 <= i < |links|
      ensures LinkAt(b, p + 121 * i, links[i])
    {
      OneLinkAt(b, p, links, i);
    }
  }

  lemma LinksWide(links: seq<Wire.Link>)
    ensures Prefixes(Wire.PutLink) && forall l :: l in links ==> |Wire.PutLink(l, [])| == 121
  {
    Wire.PutsArePrefixes();
    forall l | l in links
      ensures |Wire.PutLink(l, [])| == 121
    {
      WireLinkSize(l);
    }
  }

  lemma OneLinkAt(b: seq<Byte>, p: nat, links: seq<Wire.Link>, i: nat)
    requires At(b, p, PutMany(Wire.PutLink, links, [])) && i < |links| && Wire.LinkFits(links[i])
    ensures LinkAt(b, p + 121 * i, links[i])
  {
    LinksWide(links);
    hide Wire.PutLink, Prefixes, PutMany, LinkAt, Wire.LinkFits, At;
    var rest := AtItem(b, p, Wire.PutLink, 121, links, [], i);
    WireLinkAt(b, p + 121 * i, links[i], rest);
  }

  /** A receipt announcement: type 3; topic, receipt hash, epoch. */
  lemma ReceiptLayout(walk: Wire.Walk, topic: Id, receiptHash: Id, epoch: nat)
    requires epoch < 0x1_0000_0000_0000_0000
    ensures
      var b := Wire.Encoded(walk, Wire.ReceiptHash(topic, receiptHash, epoch));
      |b| == 78 && HeaderIs(b, 3) && BytesAre(b, 6, topic) && BytesAre(b, 38, receiptHash) && NumberIs(b, 70, 8, epoch)
  {
    Limits();
    hide ToLE, Limit, LittleEndian;
    var b := Wire.Encoded(walk, Wire.ReceiptHash(topic, receiptHash, epoch));
    assert ToLE(epoch, 8) + [] == ToLE(epoch, 8);
    assert b == [0x46, 0x53, 0x45, 0x54, 1, 3] + (topic + (receiptHash + ToLE(epoch, 8)));
    AtBytes(b, 0, [0x46, 0x53, 0x45, 0x54, 1, 3], topic + (receiptHash + ToLE(epoch, 8)));
    AtBytes(b, 6, topic, receiptHash + ToLE(epoch, 8));
    AtBytes(b, 38, receiptHash, ToLE(epoch, 8));
    AtNumber(b, 70, epoch, 8, []);
  }

  /** The counter, the number of sums, and the sums of eight bytes each. */
  predicate SumsFields(b: seq<Byte>, p: nat, acc: Tickets.Acc) {
    && NumberIs(b, p, 8, acc.k) && NumberIs(b, p + 8, 4, |acc.sumM|)
    && forall i :: 0 <= i < |acc.sumM| ==> NumberIs(b, p + 12 + 8 * i, 8, acc.sumM[i])
  }

  /** The number of samples, the samples of 40 bytes each, the commitment; and no more. */
  predicate SamplesFields(b: seq<Byte>, p: nat, samples: seq<Tickets.SampleId>, commitment: seq<Byte>) {
    && NumberIs(b, p, 4, |samples|)
    && (forall i :: 0 <= i < |samples| ==> SampleAt(b, p + 4 + 40 * i, samples[i]))
    && BytesAre(b, p + 4 + 40 * |samples|, commitment)
    && |b| == p + 36 + 40 * |samples|
  }

  /** An accumulator with its samples in this order. */
  predicate AccAt(b: seq<Byte>, p: nat, acc: Tickets.Acc, samples: seq<Tickets.SampleId>) {
    SumsFields(b, p, acc) && SamplesFields(b, p + 12 + 8 * |acc.sumM|, samples, acc.commitment)
  }

  lemma WalkListsSeen(walk: Wire.Walk, seen: set<Tickets.SampleId>)
    requires Wire.Walks(walk)
    ensures |walk(seen)| == |seen| && forall x :: x in walk(seen) ==> x in seen
  {
    Wire.WalkLength(walk, seen);
  }

  /** The body of an accumulator message. */
  lemma AccBodyAt(b: seq<Byte>, p: nat, walk: Wire.Walk, acc: Tickets.Acc)
    requires At(b, p, Wire.PutAcc(walk, acc, [])) && Wire.Walks(walk)
    requires Wire.AccFits(acc) && |acc.sumM| < 0x1_0000_0000 && |acc.seen| < 0x1_0000_0000
    ensures |walk(acc.seen)| == |acc.seen| && AccAt(b, p, acc, walk(acc.seen))
  {
    hide At, Wire.PutAcc, Wire.AccFits, Wire.Walks, SumsFields, SamplesFields;
    WalkListsSeen(walk, acc.seen);
    AccIs(walk, acc);
    SumsPartAt(b, p, acc, SamplesText(acc, walk(acc.seen)));
    SamplesPartAt(b, p + 12 + 8 * |acc.sumM|, walk(acc.seen), acc);
  }

  function SamplesText(acc: Tickets.Acc, samples: seq<Tickets.SampleId>): seq<Byte> {
    ToLE(|acc.seen|, 4) + PutMany(Wire.PutSample, samples, acc.commitment + [])
  }

  function SumsText(acc: Tickets.Acc, tail: seq<Byte>): seq<Byte> {
    ToLE(acc.k, 8) + (ToLE(|acc.sumM|, 4) + PutMany(Wire.PutElement, acc.sumM, tail))
  }

  lemma AccIs(walk: Wire.Walk, acc: Tickets.Acc)
    ensures Wire.PutAcc(walk, acc, []) == SumsText(acc, SamplesText(acc, walk(acc.seen)))
  {
    hide ToLE, PutMany;
  }

  lemma SumsPartAt(b: seq<Byte>, p: nat, acc: Tickets.Acc, tail: seq<Byte>)
    requires At(b, p, SumsText(acc, tail))
    requires Wire.AccFits(acc) && |acc.sumM| < 0x1_0000_0000
    ensures SumsFields(b, p, acc) && At(b, p + 12 + 8 * |acc.sumM|, tail)
  {
    Limits();
    var s2 := PutMany(Wire.PutElement, acc.sumM, tail);
    hide ToLE, Limit, LittleEndian, PutMany, NumberIs, At;
    AtNumber(b, p, acc.k, 8, ToLE(|acc.sumM|, 4) + s2);
    AtNumber(b, p + 8, |acc.sumM|, 4, s2);
    SumsAt(b, p + 12, acc.sumM, tail);
  }

  lemma SamplesPartAt(b: seq<Byte>, p: nat, samples: seq<Tickets.SampleId>, acc: Tickets.Acc)
    requires At(b, p, SamplesText(acc, samples))
    requires |samples| == |acc.seen| < 0x1_0000_0000 && Wire.AccFits(acc) && forall x :: x in samples ==> x in acc.seen
    ensures SamplesFields(b, p, samples, acc.commitment)
  {
    Limits();
    var end := acc.commitment + [];
    hide ToLE, Limit, LittleEndian, PutMany, SampleAt, NumberIs, BytesAre, At;
    AtNumber(b, p, |samples|, 4, PutMany(Wire.PutSample, samples, end));
    SamplesAt(b, p + 4, samples, end);
    AtBytes(b, p + 4 + 40 * |samples|, acc.commitment, []);
    AtTheEnd(b, p + 4 + 40 * |samples| + 32);
  }

  /** An accumulator: type 2; topic, miner; the accumulator with its samples in the walk's order. */
  lemma AccLayout(walk: Wire.Walk, topic: Id, miner: Id, acc: Tickets.Acc)
    requires Wire.Walks(walk) && Wire.AccFits(acc) && |acc.sumM| < 0x1_0000_0000 && |acc.seen| < 0x1_0000_0000
    ensures
      var b := Wire.Encoded(walk, Wire.SelfAcc(topic, miner, acc));
      HeaderIs(b, 2) && BytesAre(b, 6, topic) && BytesAre(b, 38, miner) && AccAt(b, 70, acc, walk(acc.seen))
  {
    hide Wire.PutAcc, AccAt, Wire.AccFits, Wire.Walks;
    var b := Wire.Encoded(walk, Wire.SelfAcc(topic, miner, acc));
    var body := Wire.PutAcc(walk, acc, []);
    assert b == [0x46, 0x53, 0x45, 0x54, 1, 2] + (topic + (miner + body));
    WholeAt(b);
    AtBytes(b, 0, [0x46, 0x53, 0x45, 0x54, 1, 2], topic + (miner + body));
    AtBytes(b, 6, topic, miner + body);
    AtBytes(b, 38, miner, body);
    AccBodyAt(b, 70, walk, acc);
  }

  lemma WholeAt(b: seq<Byte>)
    ensures At(b, 0, b)
  {
    assert b[0..] == b;
  }

  predicate SampleAt(b: seq<Byte>, p: nat, x: Tickets.SampleId) {
    BytesAre(b, p, x.miner) && NumberIs(b, p + 32, 8, x.nonce)
  }

  lemma SumsAt(b: seq<Byte>, p: nat, es: seq<Element>, tail: seq<Byte>)
    requires At(b, p, PutMany(Wire.PutElement, es, tail))
    ensures At(b, p + 8 * |es|, tail) && forall i :: 0 <= i < |es| ==> NumberIs(b, p + 8 * i, 8, es[i])
  {
    Limits();
    Wire.PutsArePrefixes();
    hide Prefixes, PutMany, ToLE, Limit, LittleEndian;
    AtEnd(b, p, Wire.PutElement, 8, es, tail);
    forall i | 0 <= i < |es|
      ensures NumberIs(b, p + 8 * i, 8, es[i])
    {
      var rest := AtItem(b, p, Wire.PutElement, 8, es, tail, i);
      AtNumber(b, p + 8 * i, es[i], 8, rest);
    }
  }

  lemma SamplesAt(b: seq<Byte>, p: nat, xs: seq<Tickets.SampleId>, tail: seq<Byte>)
    requires At(b, p, PutMany(Wire.PutSample, xs, tail)) && forall x :: x in xs ==> |x.miner| == 32 && x.nonce < Limit(8)
    ensures At(b, p + 40 * |xs|, tail) && forall i :: 0 <= i < |xs| ==> SampleAt(b, p + 40 * i, xs[i])
  {
    Wire.PutsArePrefixes();
    hide Prefixes, PutMany, ToLE, Limit, LittleEndian;
    AtEnd(b, p, Wire.PutSample, 40, xs, tail);
    forall i | 0 <= i < |xs|
      ensures SampleAt(b, p + 40 * i, xs[i])
    {
      var rest := AtItem(b, p, Wire.PutSample, 40, xs, tail, i);
      AtBytes(b, p + 40 * i, xs[i].miner, ToLE(xs[i].nonce, 8) + rest);
      AtNumber(b, p + 40 * i + 32, xs[i].nonce, 8, rest);
    }
  }

  // ---------- signal payloads ----------

  /** A link of a signal: four ids, eight bytes of amount, one of valence, eight of height; 145 bytes. */
  predicate CyberlinkAt(b: seq<Byte>, p: nat, l: Frames.Cyberlink) {
    && BytesAre(b, p, l.neuron) && BytesAre(b, p + 32, l.from) && BytesAre(b, p + 64, l.to) && BytesAre(b, p + 96, l.token)
    && NumberIs(b, p + 128, 8, l.amount) && BytesAre(b, p + 136, [l.valence % 256]) && NumberIs(b, p + 137, 8, l.height)
  }

  lemma OneCyberlinkAt(b: seq<Byte>, p: nat, l: Frames.Cyberlink, rest: seq<Byte>)
    requires At(b, p, Frames.PutLink(l, rest)) && Frames.LinkFits(l)
    ensures CyberlinkAt(b, p, l)
  {
    hide ToLE, Limit, LittleEndian;
    var s3 := ToLE(l.height, 8) + rest;
    var s2 := [ValenceByte(l.valence)] + s3;
    var s1 := ToLE(l.amount, 8) + s2;
    AtBytes(b, p, l.neuron, l.from + (l.to + (l.token + s1)));
    AtBytes(b, p + 32, l.from, l.to + (l.token + s1));
    AtBytes(b, p + 64, l.to, l.token + s1);
    AtBytes(b, p + 96, l.token, s1);
    AtNumber(b, p + 128, l.amount, 8, s2);
    AtBytes(b, p + 136, [ValenceByte(l.valence)], s3);
    AtNumber(b, p + 137, l.height, 8, rest);
  }

  lemma CyberlinksWide(links: seq<Frames.Cyberlink>)
    ensures Prefixes(Frames.PutLink) && forall l :: l in links ==> |Frames.PutLink(l, [])| == 145
  {
    Frames.PutsArePrefixes();
    hide ToLE;
  }

  lemma CyberlinksAt(b: seq<Byte>, p: nat, links: seq<Frames.Cyberlink>, tail: seq<Byte>, i: nat)
    requires At(b, p, PutMany(Frames.PutLink, links, tail)) && i < |links| && Frames.LinkFits(links[i])
    ensures CyberlinkAt(b, p + 145 * i, links[i])
  {
    CyberlinksWide(links);
    hide Frames.PutLink, Prefixes, PutMany, CyberlinkAt, Frames.LinkFits, At;
    var rest := AtItem(b, p, Frames.PutLink, 145, links, tail, i);
    OneCyberlinkAt(b, p + 145 * i, links[i], rest);
  }

  /** A box move: its nullifier and a tag; after tag 1 the point and eight bytes of value. */
  predicate MoveAt(b: seq<Byte>, p: nat, m: Frames.BoxMove) {
    && BytesAre(b, p, m.nullifier)
    && match m.commitment
       case None => BytesAre(b, p + 32, [0])
       case Some(c) => BytesAre(b, p + 32, [1]) && BytesAre(b, p + 33, c.0) && NumberIs(b, p + 65, 8, c.1)
  }

  function MoveSize(m: Frames.BoxMove): nat {
    if m.commitment.Some? then 73 else 33
  }

  /** Where the i-th of a list of moves starts. */
  function MovesBefore(moves: seq<Frames.BoxMove>, i: nat): nat
    requires i <= |moves|
  {
    if i == 0 then 0 else MoveSize(moves[0]) + MovesBefore(moves[1..], i - 1)
  }

  lemma OneMoveAt(b: seq<Byte>, p: nat, m: Frames.BoxMove, rest: seq<Byte>)
    requires At(b, p, Frames.PutMove(m, rest)) && Frames.MoveFits(m)
    ensures MoveAt(b, p, m) && At(b, p + MoveSize(m), rest)
  {
    hide ToLE, Limit, LittleEndian;
    match m.commitment {
      case None => {
        AtBytes(b, p, m.nullifier, [0] + rest);
        AtBytes(b, p + 32, [0], rest);
      }
      case Some(c) => {
        var s1 := c.0 + (ToLE(c.1, 8) + rest);
        AtBytes(b, p, m.nullifier, [1] + s1);
        assert [1] + (c.0 + (ToLE(c.1, 8) + rest)) == [1] + s1;
        AtBytes(b, p + 32, [1], s1);
        AtBytes(b, p + 33, c.0, ToLE(c.1, 8) + rest);
        AtNumber(b, p + 65, c.1, 8, rest);
      }
    }
  }

  lemma {:induction false} MovesAt(b: seq<Byte>, p: nat, moves: seq<Frames.BoxMove>, tail: seq<Byte>)
    requires At(b, p, PutMany(Frames.PutMove, moves, tail)) && forall m :: m in moves ==> Frames.MoveFits(m)
    ensures forall i :: 0 <= i < |moves| ==> MoveAt(b, p + MovesBefore(moves, i), moves[i])
    ensures At(b, p + MovesBefore(moves, |moves|), tail)
    decreases |moves|
  {
    hide Frames.PutMove, Frames.MoveFits, MoveAt, MoveSize, At;
    if moves != [] {
      OneMoveAt(b, p, moves[0], PutMany(Frames.PutMove, moves[1..], tail));
      MovesAt(b, p + MoveSize(moves[0]), moves[1..], tail);
    }
  }

  predicate PayAt(b: seq<Byte>, p: nat, d: (Id, nat)) {
    BytesAre(b, p, d.0) && NumberIs(b, p + 32, 8, d.1)
  }

  lemma PaysAt(b: seq<Byte>, p: nat, pays: seq<(Id, nat)>)
    requires At(b, p, PutMany(Frames.PutPay, pays, [])) && forall d :: d in pays ==> Frames.PayFits(d)
    ensures |b| == p + 40 * |pays| && forall i :: 0 <= i < |pays| ==> PayAt(b, p + 40 * i, pays[i])
  {
    PaysWide(pays);
    hide Frames.PutPay, Frames.PayFits, Prefixes, PutMany, At, PayAt;
    AtEnd(b, p, Frames.PutPay, 40, pays, []);
    AtTheEnd(b, p + 40 * |pays|);
    forall i | 0 <= i < |pays|
      ensures PayAt(b, p + 40 * i, pays[i])
    {
      OnePayAt(b, p, pays, i);
    }
  }

  lemma PaysWide(pays: seq<(Id, nat)>)
    ensures Prefixes(Frames.PutPay) && forall d :: d in pays ==> |Frames.PutPay(d, [])| == 40
  {
    Frames.PutsArePrefixes();
    hide ToLE;
  }

  lemma OnePayAt(b: seq<Byte>, p: nat, pays: seq<(Id, nat)>, i: nat)
    requires At(b, p, PutMany(Frames.PutPay, pays, [])) && i < |pays| && Frames.PayFits(pays[i])
    ensures PayAt(b, p + 40 * i, pays[i])
  {
    PaysWide(pays);
    hide Prefixes, PutMany, ToLE, Limit, LittleEndian;
    var rest := AtItem(b, p, Frames.PutPay, 40, pays, [], i);
    AtBytes(b, p + 40 * i, pays[i].0, ToLE(pays[i].1, 8) + rest);
    AtNumber(b, p + 40 * i + 32, pays[i].1, 8, rest);
  }

  /** Neuron, step, previous hash, height, the number of links and the links. */
  predicate CoreFields(b: seq<Byte>, s: Frames.Signal) {
    && BytesAre(b, 0, s.neuron) && NumberIs(b, 32, 8, s.step) && BytesAre(b, 40, s.prev) && NumberIs(b, 72, 8, s.height)
    && NumberIs(b, 80, 4, |s.links|) && forall i :: 0 <= i < |s.links| ==> CyberlinkAt(b, 84 + 145 * i, s.links[i])
  }

  /** The number of box moves and the moves. */
  predicate MoveFields(b: seq<Byte>, p: nat, s: Frames.Signal) {
    && NumberIs(b, p, 4, |s.boxMoves|)
    && forall i :: 0 <= i < |s.boxMoves| ==> MoveAt(b, p + 4 + MovesBefore(s.boxMoves, i), s.boxMoves[i])
  }

  /** The number of payments, the payments of 40 bytes each, and no more. */
  predicate PayFields(b: seq<Byte>, p: nat, s: Frames.Signal) {
    && NumberIs(b, p, 4, |s.deltaPi|) && |b| == p + 4 + 40 * |s.deltaPi|
    && forall i :: 0 <= i < |s.deltaPi| ==> PayAt(b, p + 4 + 40 * i, s.deltaPi[i])
  }

  /** A signal payload: the fields up to the links, then the box moves, then the payments. */
  lemma SignalLayout(s: Frames.Signal)
    requires Frames.Fits(s) && Frames.Counted(s)
    ensures
      var b := Frames.Serialized(s);
      var moves := 84 + 145 * |s.links|;
      && CoreFields(b, s) && MoveFields(b, moves, s)
      && PayFields(b, moves + 4 + MovesBefore(s.boxMoves, |s.boxMoves|), s)
  {
    var b := Frames.Serialized(s);
    var moves := 84 + 145 * |s.links|;
    SerializedIs(s);
    hide At, CoreFields, MoveFields, PayFields, Frames.Fits, MovesBefore, Frames.Serialized, Frames.PutCore,
      Frames.PutMoveSection, Frames.PutPaySection, Frames.Counted;
    CoreAt(b, s, Frames.PutMoveSection(s, Frames.PutPaySection(s)));
    MovesPartAt(b, moves, s);
    PaysPartAt(b, moves + 4 + MovesBefore(s.boxMoves, |s.boxMoves|), s);
  }

  lemma SerializedIs(s: Frames.Signal)
    ensures Frames.Serialized(s) == Frames.PutCore(s, Frames.PutMoveSection(s, Frames.PutPaySection(s)))
  {
    hide Frames.PutCore, Frames.PutMoveSection, Frames.PutPaySection;
  }

  lemma MovesPartAt(b: seq<Byte>, p: nat, s: Frames.Signal)
    requires At(b, p, Frames.PutMoveSection(s, Frames.PutPaySection(s))) && Frames.Fits(s) && Frames.Counted(s)
    ensures MoveFields(b, p, s) && At(b, p + 4 + MovesBefore(s.boxMoves, |s.boxMoves|), Frames.PutPaySection(s))
  {
    hide ToLE, Limit, LittleEndian, PutMany, NumberIs, At, MoveAt, Frames.PutPaySection, MovesBefore, Frames.MoveFits;
    AtNumber(b, p, |s.boxMoves|, 4, PutMany(Frames.PutMove, s.boxMoves, Frames.PutPaySection(s)));
    MovesAt(b, p + 4, s.boxMoves, Frames.PutPaySection(s));
  }

  lemma PaysPartAt(b: seq<Byte>, p: nat, s: Frames.Signal)
    requires At(b, p, Frames.PutPaySection(s)) && Frames.Fits(s) && Frames.Counted(s)
    ensures PayFields(b, p, s)
  {
    hide ToLE, Limit, LittleEndian, PutMany, NumberIs, At, PayAt, Frames.PayFits;
    AtNumber(b, p, |s.deltaPi|, 4, PutMany(Frames.PutPay, s.deltaPi, []));
    PaysAt(b, p + 4, s.deltaPi);
  }

  lemma CoreAt(b: seq<Byte>, s: Frames.Signal, tail: seq<Byte>)
    requires b == Frames.PutCore(s, tail) && Frames.Fits(s) && Frames.Counted(s)
    ensures CoreFields(b, s) && At(b, 84 + 145 * |s.links|, tail)
  {
    hide ToLE, Limit, LittleEndian, PutMany, CyberlinkAt;
    var s4 := PutMany(Frames.PutLink, s.links, tail);
    var s3 := ToLE(|s.links|, 4) + s4;
    var s2 := ToLE(s.height, 8) + s3;
    var s1 := ToLE(s.step, 8) + (s.prev + s2);
    WholeAt(b);
    hide At, NumberIs, BytesAre;
    AtBytes(b, 0, s.neuron, s1);
    AtNumber(b, 32, s.step, 8, s.prev + s2);
    AtBytes(b, 40, s.prev, s2);
    AtNumber(b, 72, s.height, 8, s3);
    AtNumber(b, 80, |s.links|, 4, s4);
    CyberlinksWide(s.links);
    hide Prefixes, Frames.PutLink;
    AtEnd(b, 84, Frames.PutLink, 145, s.links, tail);
    forall i | 0 <= i < |s.links|
      ensures CyberlinkAt(b, 84 + 145 * i, s.links[i])
    {
      CyberlinksAt(b, 84, s.links, tail, i);
    }
  }

  // ---------- frames of the stream ----------

  /** A frame: four bytes of length, then the body. */
  lemma FrameLayout(body: seq<Byte>)
    requires |body| < 0x1_0000_0000
    ensures |Radio.Frame(body)| == 4 + |body| && NumberIs(Radio.Frame(body), 0, 4, |body|) && BytesAre(Radio.Frame(body), 4, body)
  {
    Limits();
    hide ToLE, Limit, LittleEndian;
    var b := Radio.Frame(body);
    WholeAt(b);
    AtNumber(b, 0, |body|, 4, body);
    assert body + [] == body;
    AtBytes(b, 4, body, []);
  }
}
