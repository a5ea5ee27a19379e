/** The settle-message codec (src/wire.rs): encoders that append to a buffer, decoders that advance an offset, and the
    exact messages that survive the trip. */
module Wire {
  import opened Sequences
  import opened Goldilocks
  import opened Bytes
  import opened Cursor
  import opened Tickets
  import opened Words

  datatype Link = Link(neuron: Id, from: Id, to: Id, amount: nat, valence: int, price: Element)

  datatype Claim = Claim(id: Id, neuron: Id, links: seq<Link>, belief: Element, prediction: Element)

  datatype Msg =
    | ClaimAnnounce(topic: Id, claimId: Id, sender: Id, claim: Claim)
    | SelfAcc(topic: Id, miner: Id, acc: Acc)
    | ReceiptHash(topic: Id, receiptHash: Id, epoch: nat)

  const MAGIC: seq<Byte> := [0x46, 0x53, 0x45, 0x54]
  const VERSION: Byte := 1
  const TY_CLAIM: Byte := 1
  const TY_SELF_ACC: Byte := 2
  const TY_RECEIPT: Byte := 3

  /** The values the fixed-width fields can hold. */
  predicate LinkFits(l: Link) {
    l.amount < Limit(16) && -128 <= l.valence < 128
  }

  predicate AccFits(a: Acc) {
    && a.k < Limit(8) && |a.commitment| == 32
    && forall s :: s in a.seen ==> |s.miner| == 32 && s.nonce < Limit(8)
  }

  predicate Fits(m: Msg) {
    match m
    case ClaimAnnounce(_, _, _, claim) => forall i :: 0 <= i < |claim.links| ==> LinkFits(claim.links[i])
    case SelfAcc(_, _, acc) => AccFits(acc)
    case ReceiptHash(_, _, epoch) => epoch < Limit(8)
  }

  /** In which order the set of samples is walked: any listing of every set. */
  type Walk = set<SampleId> -> seq<SampleId>

  ghost predicate Walks(walk: Walk) {
    forall s :: NoDup(walk(s)) && Elements(walk(s)) == s
  }

  // ---------- the format, as text put before a tail ----------

  function PutLink(l: Link, tail: seq<Byte>): seq<Byte> {
    l.neuron + (l.from + (l.to + (ToLE(l.amount, 16) + ([ValenceByte(l.valence)] + (ToLE(l.price, 8) + tail)))))
  }

  function PutClaim(c: Claim, tail: seq<Byte>): seq<Byte> {
    ToLE(c.belief, 8) + (ToLE(c.prediction, 8) + (ToLE(|c.links|, 4) + PutMany(PutLink, c.links, tail)))
  }

  function PutElement(e: Element, tail: seq<Byte>): seq<Byte> {
    ToLE(e, 8) + tail
  }

  function PutSample(x: SampleId, tail: seq<Byte>): seq<Byte> {
    x.miner + (ToLE(x.nonce, 8) + tail)
  }

  function PutAcc(walk: Walk, a: Acc, tail: seq<Byte>): seq<Byte> {
    ToLE(a.k, 8) + (ToLE(|a.sumM|, 4) + PutMany(PutElement, a.sumM,
      ToLE(|a.seen|, 4) + PutMany(PutSample, walk(a.seen), a.commitment + tail)))
  }

  function Header(ty: Byte): seq<Byte> {
    MAGIC + [VERSION, ty]
  }

  function Encoded(walk: Walk, m: Msg): seq<Byte> {
    match m
    case ClaimAnnounce(topic, claimId, sender, claim) =>
      Header(TY_CLAIM) + (topic + (claimId + (sender + PutClaim(claim, []))))
    case SelfAcc(topic, miner, acc) => Header(TY_SELF_ACC) + (topic + (miner + PutAcc(walk, acc, [])))
    case ReceiptHash(topic, receiptHash, epoch) => Header(TY_RECEIPT) + (topic + (receiptHash + ToLE(epoch, 8)))
  }

  // ---------- reading from the front ----------

  function TakeElement(s: seq<Byte>): Parsed<Element> {
    var (v, r) :- TakeInt(8, s);
    Got(Reduce(v), r)
  }

  function ParseLink(s: seq<Byte>): Parsed<Link> {
    var (neuron, s1) :- TakeId(s);
    var (from, s2) :- TakeId(s1);
    var (to, s3) :- TakeId(s2);
    var (amount, s4) :- TakeInt(16, s3);
    if s4 == [] then Short
    else
      var (price, s5) :- TakeElement(s4[1..]);
      Got(Link(neuron, from, to, amount, SignedByte(s4[0]), price), s5)
  }

  function ParseClaim(s: seq<Byte>, id: Id, neuron: Id): Parsed<Claim> {
    var (belief, s1) :- TakeElement(s);
    var (prediction, s2) :- TakeElement(s1);
    var (n, s3) :- TakeInt(4, s2);
    var (links, s4) :- ParseMany(ParseLink, n, s3, []);
    Got(Claim(id, neuron, links, belief, prediction), s4)
  }

  function ParseSample(s: seq<Byte>): Parsed<SampleId> {
    var (miner, s1) :- TakeId(s);
    var (nonce, s2) :- TakeInt(8, s1);
    Got(SampleId(miner, nonce), s2)
  }

  /** The samples as a set: repetitions collapse. */
  function ParseSamples(n: nat, s: seq<Byte>): Parsed<set<SampleId>> {
    var (samples, r) :- ParseMany(ParseSample, n, s, []);
    Got(Elements(samples), r)
  }

  function ParseAcc(s: seq<Byte>): Parsed<Acc> {
    var (k, s1) :- TakeInt(8, s);
    var (n, s2) :- TakeInt(4, s1);
    var (sumM, s3) :- ParseMany(TakeElement, n, s2, []);
    var (sn, s4) :- TakeInt(4, s3);
    var (seen, s5) :- ParseSamples(sn, s4);
    var (commitment, s6) :- TakeId(s5);
    Got(Acc(sumM, k, seen, commitment), s6)
  }

  function ParseBody(ty: Byte, s: seq<Byte>): Parsed<Msg> {
    if ty == TY_CLAIM then
      var (topic, s1) :- TakeId(s);
      var (claimId, s2) :- TakeId(s1);
      var (sender, s3) :- TakeId(s2);
      var (claim, s4) :- ParseClaim(s3, claimId, sender);
      Got(ClaimAnnounce(topic, claimId, sender, claim), s4)
    else if ty == TY_SELF_ACC then
      var (topic, s1) :- TakeId(s);
      var (miner, s2) :- TakeId(s1);
      var (acc, s3) :- ParseAcc(s2);
      Got(SelfAcc(topic, miner, acc), s3)
    else if ty == TY_RECEIPT then
      var (topic, s1) :- TakeId(s);
      var (receiptHash, s2) :- TakeId(s1);
      var (epoch, s3) :- TakeInt(8, s2);
      Got(ReceiptHash(topic, receiptHash, epoch), s3)
    else Short
  }

  /** Bytes after the message are ignored. */
  function Decoded(bytes: seq<Byte>): Option<Msg> {
    if |bytes| < 6 || bytes[..4] != MAGIC || bytes[4] != VERSION then None
    else
      var p := ParseBody(bytes[5], bytes[6..]);
      if p.Got? then Some(p.value) else None
  }

  // ---------- the round trip ----------

  lemma TakeElementBack(e: Element, tail: seq<Byte>)
    ensures TakeElement(ToLE(e, 8) + tail) == Got(e, tail)
  {
    Limits();
    TakeIntBack(e, 8, tail);
    ReduceFixed(e);
  }

  lemma LinkBack(l: Link, tail: seq<Byte>)
    requires LinkFits(l)
    ensures ParseLink(PutLink(l, tail)) == Got(l, tail)
  {
    hide TakeId, TakeInt, TakeElement, SignedByte, ValenceByte, ToLE, Limit;
    var s5 := ToLE(l.price, 8) + tail;
    var s4 := [ValenceByte(l.valence)] + s5;
    var s3 := ToLE(l.amount, 16) + s4;
    TakeIdBack(l.neuron, l.from + (l.to + s3));
    TakeIdBack(l.from, l.to + s3);
    TakeIdBack(l.to, s3);
    TakeIntBack(l.amount, 16, s4);
    assert s4[0] == ValenceByte(l.valence) && s4[1..] == s5;
    SignedByteBack(l.valence);
    TakeElementBack(l.price, tail);
  }

  lemma ClaimBack(c: Claim, tail: seq<Byte>)
    requires |c.links| < Limit(4) && forall i :: 0 <= i < |c.links| ==> LinkFits(c.links[i])
    ensures ParseClaim(PutClaim(c, tail), c.id, c.neuron) == Got(c, tail)
  {
    forall l, t | l in c.links
      ensures ParseLink(PutLink(l, t)) == Got(l, t)
    {
      LinkBack(l, t);
    }
    hide TakeInt, TakeElement, ParseMany, PutMany, ToLE, Limit;
    var s3 := PutMany(PutLink, c.links, tail);
    var s2 := ToLE(|c.links|, 4) + s3;
    TakeElementBack(c.belief, ToLE(c.prediction, 8) + s2);
    TakeElementBack(c.prediction, s2);
    TakeIntBack(|c.links|, 4, s3);
    ManyBack(PutLink, ParseLink, c.links, tail, []);
    assert [] + c.links == c.links;
  }

  lemma SampleBack(x: SampleId, tail: seq<Byte>)
    requires |x.miner| == 32 && x.nonce < Limit(8)
    ensures ParseSample(PutSample(x, tail)) == Got(x, tail)
  {
    hide TakeId, TakeInt, ToLE, Limit;
    TakeIdBack(x.miner, ToLE(x.nonce, 8) + tail);
    TakeIntBack(x.nonce, 8, tail);
  }

  lemma SumsBack(es: seq<Element>, tail: seq<Byte>)
    ensures ParseMany(TakeElement, |es|, PutMany(PutElement, es, tail), []) == Got(es, tail)
  {
    forall e, t | e in es
      ensures TakeElement(PutElement(e, t)) == Got(e, t)
    {
      TakeElementBack(e, t);
    }
    ManyBack(PutElement, TakeElement, es, tail, []);
    assert [] + es == es;
  }

  lemma SeenBack(walk: Walk, seen: set<SampleId>, tail: seq<Byte>)
    requires Walks(walk) && forall s :: s in seen ==> |s.miner| == 32 && s.nonce < Limit(8)
    ensures ParseSamples(|seen|, PutMany(PutSample, walk(seen), tail)) == Got(seen, tail)
  {
    WalkLength(walk, seen);
    forall x, t | x in walk(seen)
      ensures ParseSample(PutSample(x, t)) == Got(x, t)
    {
      assert x in Elements(walk(seen));
      SampleBack(x, t);
    }
    ManyBack(PutSample, ParseSample, walk(seen), tail, []);
    assert [] + walk(seen) == walk(seen);
  }

  lemma AccBack(walk: Walk, a: Acc, tail: seq<Byte>)
    requires Walks(walk) && AccFits(a) && |a.sumM| < Limit(4) && |a.seen| < Limit(4)
    ensures ParseAcc(PutAcc(walk, a, tail)) == Got(a, tail)
  {
    hide TakeId, TakeInt, ParseMany, ParseSamples, PutMany, ToLE, Limit, Walks, Elements;
    var s5 := a.commitment + tail;
    var s4 := PutMany(PutSample, walk(a.seen), s5);
    var s3 := ToLE(|a.seen|, 4) + s4;
    var s2 := PutMany(PutElement, a.sumM, s3);
    TakeIntBack(a.k, 8, ToLE(|a.sumM|, 4) + s2);
    TakeIntBack(|a.sumM|, 4, s2);
    SumsBack(a.sumM, s3);
    TakeIntBack(|a.seen|, 4, s4);
    SeenBack(walk, a.seen, s5);
    TakeIdBack(a.commitment, tail);
  }

  lemma WalkLength(walk: Walk, s: set<SampleId>)
    requires Walks(walk)
    ensures |walk(s)| == |s| && NoDup(walk(s)) && Elements(walk(s)) == s
  {
    NoDupCardinality(walk(s));
  }

  /** What the format can carry: 32-bit counts, and a claim announced under its own id and neuron. */
  predicate Carried(m: Msg) {
    match m
    case ClaimAnnounce(_, claimId, sender, claim) =>
      |claim.links| < Limit(4) && claim.id == claimId && claim.neuron == sender
    case SelfAcc(_, _, acc) => |acc.sumM| < Limit(4) && |acc.seen| < Limit(4)
    case ReceiptHash(_, _, _) => true
  }

  lemma HeaderBack(ty: Byte, body: seq<Byte>)
    ensures Decoded(Header(ty) + body) == (var p := ParseBody(ty, body); if p.Got? then Some(p.value) else None)
  {
    var b := Header(ty) + body;
    assert b[..4] == MAGIC && b[4] == VERSION && b[5] == ty && b[6..] == body;
  }

  lemma CarriedComesBack(walk: Walk, m: Msg)
    requires Walks(walk) && Fits(m) && Carried(m)
    ensures Decoded(Encoded(walk, m)) == Some(m)
  {
    hide TakeId, TakeInt, ParseClaim, ParseAcc, PutClaim, PutAcc, ToLE, Decoded, Header, Limit;
    match m
    case ClaimAnnounce(topic, claimId, sender, claim) =>
      var s3 := PutClaim(claim, []);
      HeaderBack(TY_CLAIM, topic + (claimId + (sender + s3)));
      TakeIdBack(topic, claimId + (sender + s3));
      TakeIdBack(claimId, sender + s3);
      TakeIdBack(sender, s3);
      ClaimBack(claim, []);
    case SelfAcc(topic, miner, acc) =>
      var s2 := PutAcc(walk, acc, []);
      HeaderBack(TY_SELF_ACC, topic + (miner + s2));
      TakeIdBack(topic, miner + s2);
      TakeIdBack(miner, s2);
      AccBack(walk, acc, []);
    case ReceiptHash(topic, receiptHash, epoch) =>
      var s2 := ToLE(epoch, 8);
      HeaderBack(TY_RECEIPT, topic + (receiptHash + s2));
      TakeIdBack(topic, receiptHash + s2);
      TakeIdBack(receiptHash, s2);
      TakeIntBack(epoch, 8, []);
      assert s2 + [] == s2;
  }

  /** Whatever is decoded could have been carried. */
  lemma DecodedIsCarried(bytes: seq<Byte>)
    ensures Decoded(bytes).Some? ==> Carried(Decoded(bytes).value)
  {
    hide TakeId, TakeInt, TakeElement, ParseMany, Limit;
    assert forall ss: seq<SampleId> :: |Elements(ss)| <= |ss| by {
      forall ss: seq<SampleId>
        ensures |Elements(ss)| <= |ss|
      {
        NoMoreElements(ss);
      }
    }
    hide Elements;
  }

  lemma {:induction false} NoMoreElements(ss: seq<SampleId>)
    ensures |Elements(ss)| <= |ss|
  {
    if ss != [] {
      NoMoreElements(ss[1..]);
      assert Elements(ss) == {ss[0]} + Elements(ss[1..]);
    }
  }

  /** A message comes back from its encoding exactly when the format can carry it. */
  lemma RoundTripIff(walk: Walk, m: Msg)
    requires Walks(walk) && Fits(m)
    ensures Decoded(Encoded(walk, m)) == Some(m) <==> Carried(m)
  {
    if Carried(m) {
      CarriedComesBack(walk, m);
    } else {
      DecodedIsCarried(Encoded(walk, m));
    }
  }

  // ---------- encoders ----------

  lemma PutsArePrefixes()
    ensures Prefixes(PutLink) && Prefixes(PutElement) && Prefixes(PutSample)
  {
    hide ToLE;
    forall l: Link, mid, tail
      ensures PutLink(l, mid + tail) == PutLink(l, mid) + tail
    {
    }
    forall e: Element, mid, tail
      ensures PutElement(e, mid + tail) == PutElement(e, mid) + tail
    {
    }
    forall x: SampleId, mid, tail
      ensures PutSample(x, mid + tail) == PutSample(x, mid) + tail
    {
    }
  }

  method EncodeLink(out: seq<Byte>, l: Link) returns (r: seq<Byte>)
    ensures r == out + PutLink(l, [])
  {
    hide ToLE;
    r := out + l.neuron;
    r := r + l.from;
    r := r + l.to;
    r := r + ToLE(l.amount, 16);
    r := r + [ValenceByte(l.valence)];
    r := r + ToLE(l.price, 8);
  }

  method EncodeClaimBody(out: seq<Byte>, claim: Claim) returns (r: seq<Byte>)
    ensures r == out + PutClaim(claim, [])
  {
    PutsArePrefixes();
    hide ToLE, PutLink, Prefixes;
    r := out + ToLE(claim.belief, 8);
    r := r + ToLE(claim.prediction, 8);
    r := r + ToLE(|claim.links|, 4);
    ghost var head := r;
    var i := 0;
    while i < |claim.links|
      invariant 0 <= i <= |claim.links| && r == head + PutMany(PutLink, claim.links[..i], [])
    {
      r := EncodeLink(r, claim.links[i]);
      PutManySnoc(PutLink, claim.links[..i], claim.links[i]);
      assert claim.links[..i + 1] == claim.links[..i] + [claim.links[i]];
      i := i + 1;
    }
    assert claim.links[..i] == claim.links;
  }

  method EncodeElements(out: seq<Byte>, es: seq<Element>) returns (r: seq<Byte>)
    ensures r == out + PutMany(PutElement, es, [])
  {
    PutsArePrefixes();
    hide ToLE, Prefixes;
    r := out;
    var i := 0;
    while i < |es|
      invariant 0 <= i <= |es| && r == out + PutMany(PutElement, es[..i], [])
    {
      r := r + ToLE(es[i], 8);
      PutManySnoc(PutElement, es[..i], es[i]);
      assert es[..i + 1] == es[..i] + [es[i]];
      i := i + 1;
    }
    assert es[..i] == es;
  }

  method EncodeSamples(out: seq<Byte>, ss: seq<SampleId>) returns (r: seq<Byte>)
    ensures r == out + PutMany(PutSample, ss, [])
  {
    PutsArePrefixes();
    hide ToLE, Prefixes;
    r := out;
    var i := 0;
    while i < |ss|
      invariant 0 <= i <= |ss| && r == out + PutMany(PutSample, ss[..i], [])
    {
      r := r + ss[i].miner;
      r := r + ToLE(ss[i].nonce, 8);
      PutManySnoc(PutSample, ss[..i], ss[i]);
      assert ss[..i + 1] == ss[..i] + [ss[i]];
      i := i + 1;
    }
    assert ss[..i] == ss;
  }

  method EncodeAccBody(out: seq<Byte>, walk: Walk, acc: Acc) returns (r: seq<Byte>)
    ensures r == out + PutAcc(walk, acc, [])
  {
    PutsArePrefixes();
    hide ToLE, PutMany, Prefixes;
    r := out + ToLE(acc.k, 8);
    r := r + ToLE(|acc.sumM|, 4);
    r := EncodeElements(r, acc.sumM);
    r := r + ToLE(|acc.seen|, 4);
    r := EncodeSamples(r, walk(acc.seen));
    r := r + acc.commitment;
    PutManyTail(PutSample, walk(acc.seen), acc.commitment);
    PutManyTail(PutElement, acc.sumM, ToLE(|acc.seen|, 4) + PutMany(PutSample, walk(acc.seen), acc.commitment));
    assert acc.commitment + [] == acc.commitment;
  }

  method EncodeSettleMsg(walk: Walk, m: Msg) returns (out: seq<Byte>)
    ensures out == Encoded(walk, m)
  {
    hide ToLE, PutClaim, PutAcc, Header;
    match m
    case ClaimAnnounce(topic, claimId, sender, claim) =>
      out := Header(TY_CLAIM) + topic;
      out := out + claimId;
      out := out + sender;
      out := EncodeClaimBody(out, claim);
    case SelfAcc(topic, miner, acc) =>
      out := Header(TY_SELF_ACC) + topic;
      out := out + miner;
      out := EncodeAccBody(out, walk, acc);
    case ReceiptHash(topic, receiptHash, epoch) =>
      out := Header(TY_RECEIPT) + topic;
      out := out + receiptHash;
      out := out + ToLE(epoch, 8);
  }

  // ---------- decoders ----------

  method ReadElement(bytes: seq<Byte>, off: nat) returns (r: Option<Element>, next: nat)
    requires off <= |bytes|
    ensures ReadAs(r, bytes, next, TakeElement(bytes[off..]))
  {
    hide TakeInt;
    var v;
    v, next := ReadInt(bytes, off, 8);
    r := if v.Some? then Some(Reduce(v.value)) else None;
  }

  method DecodeLink(bytes: seq<Byte>, off: nat) returns (r: Option<Link>, next: nat)
    requires off <= |bytes|
    ensures ReadAs(r, bytes, next, ParseLink(bytes[off..]))
  {
    hide TakeId, TakeInt, TakeElement;
    r := None;
    var neuron, from, to, amount, price;
    neuron, next := Read32(bytes, off);
    if neuron.None? { return; }
    from, next := Read32(bytes, next);
    if from.None? { return; }
    to, next := Read32(bytes, next);
    if to.None? { return; }
    amount, next := ReadInt(bytes, next, 16);
    if amount.None? { return; }
    if next >= |bytes| { return; }
    var valence := SignedByte(bytes[next]);
    assert bytes[next..][1..] == bytes[next + 1..];
    next := next + 1;
    price, next := ReadElement(bytes, next);
    if price.None? { return; }
    r := Some(Link(neuron.value, from.value, to.value, amount.value, valence, price.value));
  }

  method DecodeLinks(bytes: seq<Byte>, off: nat, n: nat) returns (r: Option<seq<Link>>, next: nat)
    requires off <= |bytes|
    ensures ReadAs(r, bytes, next, ParseMany(ParseLink, n, bytes[off..], []))
  {
    hide ParseLink;
    var links := [];
    next := off;
    var i := 0;
    while i < n
      invariant 0 <= i <= n && next <= |bytes|
      invariant ParseMany(ParseLink, n, bytes[off..], []) == ParseMany(ParseLink, n - i, bytes[next..], links)
    {
      var l;
      l, next := DecodeLink(bytes, next);
      if l.None? {
        return None, next;
      }
      links := links + [l.value];
      i := i + 1;
    }
    r := Some(links);
  }

  method DecodeClaimBody(bytes: seq<Byte>, off: nat, id: Id, neuron: Id) returns (r: Option<Claim>, next: nat)
    requires off <= |bytes|
    ensures ReadAs(r, bytes, next, ParseClaim(bytes[off..], id, neuron))
  {
    hide TakeInt, TakeElement, ParseMany;
    r := None;
    var belief, prediction, n, links;
    belief, next := ReadElement(bytes, off);
    if belief.None? { return; }
    prediction, next := ReadElement(bytes, next);
    if prediction.None? { return; }
    n, next := ReadInt(bytes, next, 4);
    if n.None? { return; }
    links, next := DecodeLinks(bytes, next, n.value);
    if links.None? { return; }
    r := Some(Claim(id, neuron, links.value, belief.value, prediction.value));
  }

  method DecodeElements(bytes: seq<Byte>, off: nat, n: nat) returns (r: Option<seq<Element>>, next: nat)
    requires off <= |bytes|
    ensures ReadAs(r, bytes, next, ParseMany(TakeElement, n, bytes[off..], []))
  {
    hide TakeElement;
    var es := [];
    next := off;
    var i := 0;
    while i < n
      invariant 0 <= i <= n && next <= |bytes|
      invariant ParseMany(TakeElement, n, bytes[off..], []) == ParseMany(TakeElement, n - i, bytes[next..], es)
    {
      var e;
      e, next := ReadElement(bytes, next);
      if e.None? {
        return None, next;
      }
      es := es + [e.value];
      i := i + 1;
    }
    r := Some(es);
  }

  method DecodeSamples(bytes: seq<Byte>, off: nat, n: nat)
    returns (r: Option<set<SampleId>>, next: nat)
    requires off <= |bytes|
    ensures ReadAs(r, bytes, next, ParseSamples(n, bytes[off..]))
  {
    hide TakeId, TakeInt, Elements;
    var seen: set<SampleId> := {};
    ghost var listed: seq<SampleId> := [];
    next := off;
    assert Elements<SampleId>([]) == {} by { NothingListed(); }
    var i := 0;
    while i < n
      invariant 0 <= i <= n && next <= |bytes| && seen == Elements(listed)
      invariant ParseMany(ParseSample, n, bytes[off..], []) == ParseMany(ParseSample, n - i, bytes[next..], listed)
    {
      var miner, nonce;
      miner, next := Read32(bytes, next);
      if miner.None? {
        return None, next;
      }
      nonce, next := ReadInt(bytes, next, 8);
      if nonce.None? {
        return None, next;
      }
      OneMoreListed(listed, SampleId(miner.value, nonce.value));
      seen := seen + {SampleId(miner.value, nonce.value)};
      listed := listed + [SampleId(miner.value, nonce.value)];
      i := i + 1;
    }
    r := Some(seen);
  }

  lemma NothingListed()
    ensures Elements<SampleId>([]) == {}
  {
  }

  lemma OneMoreListed(listed: seq<SampleId>, x: SampleId)
    ensures Elements(listed + [x]) == Elements(listed) + {x}
  {
  }

  method DecodeAccBody(bytes: seq<Byte>, off: nat) returns (r: Option<Acc>, next: nat)
    requires off <= |bytes|
    ensures ReadAs(r, bytes, next, ParseAcc(bytes[off..]))
  {
    hide TakeId, TakeInt, ParseMany, ParseSamples;
    r := None;
    var k, n, sumM, sn, seen, commitment;
    k, next := ReadInt(bytes, off, 8);
    if k.None? { return; }
    n, next := ReadInt(bytes, next, 4);
    if n.None? { return; }
    sumM, next := DecodeElements(bytes, next, n.value);
    if sumM.None? { return; }
    sn, next := ReadInt(bytes, next, 4);
    if sn.None? { return; }
    seen, next := DecodeSamples(bytes, next, sn.value);
    if seen.None? { return; }
    commitment, next := Read32(bytes, next);
    if commitment.None? { return; }
    r := Some(Acc(sumM.value, k.value, seen.value, commitment.value));
  }

  method DecodeBody(bytes: seq<Byte>, ty: Byte) returns (r: Option<Msg>)
    requires |bytes| >= 6
    ensures r == var p := ParseBody(ty, bytes[6..]); if p.Got? then Some(p.value) else None
  {
    hide TakeId, TakeInt, ParseClaim, ParseAcc;
    r := None;
    var topic, second;
    var off := 6;
    if ty != TY_CLAIM && ty != TY_SELF_ACC && ty != TY_RECEIPT { return; }
    topic, off := Read32(bytes, off);
    if topic.None? { return; }
    second, off := Read32(bytes, off);
    if second.None? { return; }
    if ty == TY_CLAIM {
      var sender, claim;
      sender, off := Read32(bytes, off);
      if sender.None? { return; }
      claim, off := DecodeClaimBody(bytes, off, second.value, sender.value);
      if claim.None? { return; }
      r := Some(ClaimAnnounce(topic.value, second.value, sender.value, claim.value));
    } else if ty == TY_SELF_ACC {
      var acc;
      acc, off := DecodeAccBody(bytes, off);
      if acc.None? { return; }
      r := Some(SelfAcc(topic.value, second.value, acc.value));
    } else {
      var epoch;
      epoch, off := ReadInt(bytes, off, 8);
      if epoch.None? { return; }
      r := Some(ReceiptHash(topic.value, second.value, epoch.value));
    }
  }

  method DecodeSettleMsg(bytes: seq<Byte>) returns (r: Option<Msg>)
    ensures r == Decoded(bytes)
  {
    if |bytes| < 6 {
      return None;
    }
    if bytes[..4] != MAGIC || bytes[4] != VERSION {
      return None;
    }
    r := DecodeBody(bytes, bytes[5]);
  }
}
