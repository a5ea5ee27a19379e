/** The signal payload (src/frames.rs:127-250): three sections, the later two absent in old payloads. */
module Frames {
  import opened Bytes
  import opened Cursor
  import opened Words

  datatype Cyberlink = Cyberlink(neuron: Id, from: Id, to: Id, token: Id, amount: nat, valence: int, height: nat)

  datatype BoxMove = BoxMove(nullifier: Id, commitment: Option<(Id, nat)>)

  datatype Signal = Signal(
    neuron: Id, network: Id, links: seq<Cyberlink>, deltaPi: seq<(Id, nat)>, boxMoves: seq<BoxMove>,
    prev: Id, step: nat, height: nat, proof: Option<seq<Byte>>)

  const SELF_NETWORK: Id := ZeroBytes(32)

  // ---------- field widths ----------

  predicate LinkFits(l: Cyberlink) {
    l.amount < Limit(8) && l.height < Limit(8) && -128 <= l.valence < 128
  }

  predicate MoveFits(m: BoxMove) {
    m.commitment.Some? ==> m.commitment.value.1 < Limit(8)
  }

  predicate PayFits(d: (Id, nat)) {
    d.1 < Limit(8)
  }

  ghost predicate Fits(s: Signal) {
    && s.step < Limit(8) && s.height < Limit(8)
    && (forall i :: 0 <= i < |s.links| ==> LinkFits(s.links[i]))
    && (forall i :: 0 <= i < |s.boxMoves| ==> MoveFits(s.boxMoves[i]))
    && (forall i :: 0 <= i < |s.deltaPi| ==> PayFits(s.deltaPi[i]))
  }

  /** The section counts are 32 bits wide. */
  predicate Counted(s: Signal) {
    |s.links| < Limit(4) && |s.boxMoves| < Limit(4) && |s.deltaPi| < Limit(4)
  }

  // ---------- the format ----------

  function PutLink(l: Cyberlink, tail: seq<Byte>): seq<Byte> {
    l.neuron + (l.from + (l.to + (l.token + (ToLE(l.amount, 8) + ([ValenceByte(l.valence)] + (ToLE(l.height, 8) + tail))))))
  }

  function PutMove(m: BoxMove, tail: seq<Byte>): seq<Byte> {
    m.nullifier +
    match m.commitment
    case Some(c) => [1] + (c.0 + (ToLE(c.1, 8) + tail))
    case None => [0] + tail
  }

  function PutPay(d: (Id, nat), tail: seq<Byte>): seq<Byte> {
    d.0 + (ToLE(d.1, 8) + tail)
  }

  /** Up to and including the links, as the first payloads were. */
  function PutCore(s: Signal, tail: seq<Byte>): seq<Byte> {
    s.neuron + (ToLE(s.step, 8) + (s.prev + (ToLE(s.height, 8) + (ToLE(|s.links|, 4) + PutMany(PutLink, s.links, tail)))))
  }

  function PutMoveSection(s: Signal, tail: seq<Byte>): seq<Byte> {
    ToLE(|s.boxMoves|, 4) + PutMany(PutMove, s.boxMoves, tail)
  }

  function PutPaySection(s: Signal): seq<Byte> {
    ToLE(|s.deltaPi|, 4) + PutMany(PutPay, s.deltaPi, [])
  }

  function Serialized(s: Signal): seq<Byte> {
    PutCore(s, PutMoveSection(s, PutPaySection(s)))
  }

  // ---------- parsing ----------

  function ParseLink(s: seq<Byte>): Parsed<Cyberlink> {
    var (neuron, s1) :- TakeId(s);
    var (from, s2) :- TakeId(s1);
    var (to, s3) :- TakeId(s2);
    var (token, s4) :- TakeId(s3);
    var (amount, s5) :- TakeInt(8, s4);
    var (valence, s6) :- TakeByte(s5);
    var (height, s7) :- TakeInt(8, s6);
    Got(Cyberlink(neuron, from, to, token, amount, SignedByte(valence), height), s7)
  }

  /** A commitment tag other than 0 and 1 is refused. */
  function ParseMove(s: seq<Byte>): Parsed<BoxMove> {
    var (nullifier, s1) :- TakeId(s);
    var (tag, s2) :- TakeByte(s1);
    if tag == 0 then Got(BoxMove(nullifier, None), s2)
    else if tag == 1 then
      var (point, s3) :- TakeId(s2);
      var (value, s4) :- TakeInt(8, s3);
      Got(BoxMove(nullifier, Some((point, value))), s4)
    else Short
  }

  function ParsePay(s: seq<Byte>): Parsed<(Id, nat)> {
    var (to, s1) :- TakeId(s);
    var (amount, s2) :- TakeInt(8, s1);
    Got((to, amount), s2)
  }

  /** A section is read only if there are bytes left for it. */
  function ParseMoveSection(s: seq<Byte>): Parsed<seq<BoxMove>> {
    if s == [] then Got([], s)
    else
      var (n, r) :- TakeInt(4, s);
      ParseMany(ParseMove, n, r, [])
  }

  function ParsePaySection(s: seq<Byte>): Parsed<seq<(Id, nat)>> {
    if s == [] then Got([], s)
    else
      var (n, r) :- TakeInt(4, s);
      ParseMany(ParsePay, n, r, [])
  }

  function ParseSignal(s: seq<Byte>): Parsed<Signal> {
    var (neuron, s1) :- TakeId(s);
    var (step, s2) :- TakeInt(8, s1);
    var (prev, s3) :- TakeId(s2);
    var (height, s4) :- TakeInt(8, s3);
    var (n, s5) :- TakeInt(4, s4);
    var (links, s6) :- ParseMany(ParseLink, n, s5, []);
    var (moves, s7) :- ParseMoveSection(s6);
    var (pays, s8) :- ParsePaySection(s7);
    Got(Signal(neuron, SELF_NETWORK, links, pays, moves, prev, step, height, None), s8)
  }

  // ---------- the round trips ----------

  lemma LinkBack(l: Cyberlink, tail: seq<Byte>)
    requires LinkFits(l)
    ensures ParseLink(PutLink(l, tail)) == Got(l, tail)
  {
    hide TakeId, TakeInt, TakeByte, SignedByte, ValenceByte, ToLE, Limit;
    var s6 := ToLE(l.height, 8) + tail;
    var s5 := [ValenceByte(l.valence)] + s6;
    var s4 := ToLE(l.amount, 8) + s5;
    TakeIdBack(l.neuron, l.from + (l.to + (l.token + s4)));
    TakeIdBack(l.from, l.to + (l.token + s4));
    TakeIdBack(l.to, l.token + s4);
    TakeIdBack(l.token, s4);
    TakeIntBack(l.amount, 8, s5);
    TakeByteBack(ValenceByte(l.valence), s6);
    SignedByteBack(l.valence);
    TakeIntBack(l.height, 8, tail);
  }

  lemma LinksBack(ls: seq<Cyberlink>, tail: seq<Byte>)
    requires forall i :: 0 <= i < |ls| ==> LinkFits(ls[i])
    ensures ParseMany(ParseLink, |ls|, PutMany(PutLink, ls, tail), []) == Got(ls, tail)
  {
    forall l, t | l in ls
      ensures ParseLink(PutLink(l, t)) == Got(l, t)
    {
      LinkBack(l, t);
    }
    ManyBack(PutLink, ParseLink, ls, tail, []);
    assert [] + ls == ls;
  }

  lemma MoveBack(m: BoxMove, tail: seq<Byte>)
    requires MoveFits(m)
    ensures ParseMove(PutMove(m, tail)) == Got(m, tail)
  {
    hide TakeId, TakeInt, TakeByte, ToLE, Limit;
    match m.commitment
    case Some(c) =>
      var s2 := c.0 + (ToLE(c.1, 8) + tail);
      TakeIdBack(m.nullifier, [1] + s2);
      TakeByteBack(1, s2);
      TakeIdBack(c.0, ToLE(c.1, 8) + tail);
      TakeIntBack(c.1, 8, tail);
    case None =>
      TakeIdBack(m.nullifier, [0] + tail);
      TakeByteBack(0, tail);
  }

  lemma PayBack(d: (Id, nat), tail: seq<Byte>)
    requires PayFits(d)
    ensures ParsePay(PutPay(d, tail)) == Got(d, tail)
  {
    hide TakeId, TakeInt, ToLE, Limit;
    TakeIdBack(d.0, ToLE(d.1, 8) + tail);
    TakeIntBack(d.1, 8, tail);
  }

  lemma MoveSectionBack(s: Signal, tail: seq<Byte>)
    requires Fits(s) && Counted(s)
    ensures ParseMoveSection(PutMoveSection(s, tail)) == Got(s.boxMoves, tail)
  {
    forall m, t | m in s.boxMoves
      ensures ParseMove(PutMove(m, t)) == Got(m, t)
    {
      MoveBack(m, t);
    }
    hide TakeInt, ParseMany, PutMany, ToLE, Limit, LinkFits, MoveFits, PayFits;
    TakeIntBack(|s.boxMoves|, 4, PutMany(PutMove, s.boxMoves, tail));
    ManyBack(PutMove, ParseMove, s.boxMoves, tail, []);
    assert [] + s.boxMoves == s.boxMoves;
    assert |PutMoveSection(s, tail)| >= 4;
  }

  lemma PaySectionBack(s: Signal)
    requires Fits(s) && Counted(s)
    ensures ParsePaySection(PutPaySection(s)) == Got(s.deltaPi, [])
  {
    forall d, t | d in s.deltaPi
      ensures ParsePay(PutPay(d, t)) == Got(d, t)
    {
      PayBack(d, t);
    }
    hide TakeInt, ParseMany, PutMany, ToLE, Limit, LinkFits, MoveFits, PayFits;
    TakeIntBack(|s.deltaPi|, 4, PutMany(PutPay, s.deltaPi, []));
    ManyBack(PutPay, ParsePay, s.deltaPi, [], []);
    assert [] + s.deltaPi == s.deltaPi;
    assert |PutPaySection(s)| >= 4;
  }

  /** The links come back, and the sections after them are read from what follows. */
  lemma CoreBack(s: Signal, tail: seq<Byte>)
    requires Fits(s) && Counted(s)
    ensures ParseSignal(PutCore(s, tail)) ==
      var moves := ParseMoveSection(tail);
      if moves.Short? then Short
      else
        var pays := ParsePaySection(moves.rest);
        if pays.Short? then Short
        else Got(Signal(s.neuron, SELF_NETWORK, s.links, pays.value, moves.value, s.prev, s.step, s.height, None), pays.rest)
  {
    hide TakeId, TakeInt, ParseMany, ParseMoveSection, ParsePaySection, PutMany, ToLE, Limit, LinkFits, MoveFits, PayFits;
    var s5 := PutMany(PutLink, s.links, tail);
    var s4 := ToLE(|s.links|, 4) + s5;
    var s3 := ToLE(s.height, 8) + s4;
    TakeIdBack(s.neuron, ToLE(s.step, 8) + (s.prev + s3));
    TakeIntBack(s.step, 8, s.prev + s3);
    TakeIdBack(s.prev, s3);
    TakeIntBack(s.height, 8, s4);
    TakeIntBack(|s.links|, 4, s5);
    LinksBack(s.links, tail);
  }

  /** What a peer rebuilds: the network is its own and the proof is gone. */
  function Stripped(s: Signal): Signal {
    s.(network := SELF_NETWORK, proof := None)
  }

  function Deserialized(bytes: seq<Byte>): Option<Signal> {
    var p := ParseSignal(bytes);
    if p.Got? then Some(p.value) else None
  }

  /** A signal comes back, without network and proof, exactly when its sections can be counted in 32 bits. */
  lemma RoundTripIff(s: Signal)
    requires Fits(s)
    ensures Deserialized(Serialized(s)) == Some(Stripped(s)) <==> Counted(s)
  {
    if Counted(s) {
      FullBack(s);
    } else {
      ParsedIsCounted(Serialized(s));
    }
  }

  lemma FullBack(s: Signal)
    requires Fits(s) && Counted(s)
    ensures ParseSignal(Serialized(s)) == Got(Stripped(s), [])
  {
    hide ParseSignal, ParseMoveSection, ParsePaySection, PutCore, PutMoveSection, PutPaySection, Fits, Counted;
    CoreBack(s, PutMoveSection(s, PutPaySection(s)));
    MoveSectionBack(s, PutPaySection(s));
    PaySectionBack(s);
  }

  lemma ParsedIsCounted(bytes: seq<Byte>)
    ensures Deserialized(bytes).Some? ==> Counted(Deserialized(bytes).value)
  {
    hide TakeId, TakeInt, ParseMany, Limit;
    assert 0 < Limit(4);
  }

  /** A payload that ends after the links reads with no box moves and no payments. */
  lemma FirstPayloadsStillRead(s: Signal)
    requires Fits(s) && Counted(s)
    ensures Deserialized(PutCore(s, [])) == Some(Stripped(s).(boxMoves := [], deltaPi := []))
  {
    hide ParseSignal, PutCore, Fits, Counted;
    CoreBack(s, []);
  }

  /** A payload that ends after the box moves reads with no payments. */
  lemma SecondPayloadsStillRead(s: Signal)
    requires Fits(s) && Counted(s)
    ensures Deserialized(PutCore(s, PutMoveSection(s, []))) == Some(Stripped(s).(deltaPi := []))
  {
    hide ParseSignal, ParseMoveSection, PutCore, PutMoveSection, Fits, Counted;
    CoreBack(s, PutMoveSection(s, []));
    MoveSectionBack(s, []);
  }

  // ---------- serializer ----------

  lemma PutsArePrefixes()
    ensures Prefixes(PutLink) && Prefixes(PutMove) && Prefixes(PutPay)
  {
    hide ToLE;
    forall l: Cyberlink, mid, tail
      ensures PutLink(l, mid + tail) == PutLink(l, mid) + tail
    {
    }
    forall m: BoxMove, mid, tail
      ensures PutMove(m, mid + tail) == PutMove(m, mid) + tail
    {
    }
    forall d: (Id, nat), mid, tail
      ensures PutPay(d, mid + tail) == PutPay(d, mid) + tail
    {
    }
  }

  method SerializeLink(out: seq<Byte>, l: Cyberlink) returns (buf: seq<Byte>)
    ensures buf == out + PutLink(l, [])
  {
    hide ToLE;
    buf := out + l.neuron;
    buf := buf + l.from;
    buf := buf + l.to;
    buf := buf + l.token;
    buf := buf + ToLE(l.amount, 8);
    buf := buf + [ValenceByte(l.valence)];
    buf := buf + ToLE(l.height, 8);
  }

  method SerializeLinks(out: seq<Byte>, ls: seq<Cyberlink>) returns (buf: seq<Byte>)
    ensures buf == out + PutMany(PutLink, ls, [])
  {
    PutsArePrefixes();
    hide PutLink, Prefixes;
    buf := out;
    var i := 0;
    while i < |ls|
      invariant 0 <= i <= |ls| && buf == out + PutMany(PutLink, ls[..i], [])
    {
      var l := ls[i];
      buf := SerializeLink(buf, l);
      PutManySnoc(PutLink, ls[..i], l);
      assert ls[..i + 1] == ls[..i] + [l];
      i := i + 1;
    }
    assert ls[..i] == ls;
  }

  method SerializeMove(out: seq<Byte>, m: BoxMove) returns (buf: seq<Byte>)
    ensures buf == out + PutMove(m, [])
  {
    hide ToLE;
    buf := out + m.nullifier;
    match m.commitment {
      case Some(c) =>
        buf := buf + [1];
        buf := buf + c.0;
        buf := buf + ToLE(c.1, 8);
      case None =>
        buf := buf + [0];
    }
  }

  method SerializeMoves(out: seq<Byte>, ms: seq<BoxMove>) returns (buf: seq<Byte>)
    ensures buf == out + PutMany(PutMove, ms, [])
  {
    PutsArePrefixes();
    hide PutMove, Prefixes;
    buf := out;
    var i := 0;
    while i < |ms|
      invariant 0 <= i <= |ms| && buf == out + PutMany(PutMove, ms[..i], [])
    {
      var m := ms[i];
      PutManySnoc(PutMove, ms[..i], m);
      assert ms[..i + 1] == ms[..i] + [m];
      buf := SerializeMove(buf, m);
      i := i + 1;
    }
    assert ms[..i] == ms;
  }

  method SerializePays(out: seq<Byte>, ds: seq<(Id, nat)>) returns (buf: seq<Byte>)
    ensures buf == out + PutMany(PutPay, ds, [])
  {
    PutsArePrefixes();
    hide ToLE, Prefixes;
    buf := out;
    var i := 0;
    while i < |ds|
      invariant 0 <= i <= |ds| && buf == out + PutMany(PutPay, ds[..i], [])
    {
      buf := buf + ds[i].0 + ToLE(ds[i].1, 8);
      PutManySnoc(PutPay, ds[..i], ds[i]);
      assert ds[..i + 1] == ds[..i] + [ds[i]];
      i := i + 1;
    }
    assert ds[..i] == ds;
  }

  method SerializeSignal(s: Signal) returns (buf: seq<Byte>)
    ensures buf == Serialized(s)
  {
    PutsArePrefixes();
    hide ToLE, PutMany, Prefixes;
    buf := s.neuron + ToLE(s.step, 8);
    buf := buf + s.prev;
    buf := buf + ToLE(s.height, 8);
    buf := buf + ToLE(|s.links|, 4);
    buf := SerializeLinks(buf, s.links);
    buf := buf + ToLE(|s.boxMoves|, 4);
    buf := SerializeMoves(buf, s.boxMoves);
    buf := buf + ToLE(|s.deltaPi|, 4);
    buf := SerializePays(buf, s.deltaPi);
    PutManyTail(PutMove, s.boxMoves, PutPaySection(s));
    PutManyTail(PutLink, s.links, PutMoveSection(s, PutPaySection(s)));
  }

  // ---------- deserializer ----------

  method DeserializeLink(buf: seq<Byte>, p: nat) returns (r: Option<Cyberlink>, next: nat)
    requires p <= |buf|
    ensures ReadAs(r, buf, next, ParseLink(buf[p..]))
  {
    hide TakeId, TakeInt, TakeByte;
    r := None;
    var neuron, from, to, token, amount, valence, height;
    neuron, next := Read32(buf, p);
    if neuron.None? { return; }
    from, next := Read32(buf, next);
    if from.None? { return; }
    to, next := Read32(buf, next);
    if to.None? { return; }
    token, next := Read32(buf, next);
    if token.None? { return; }
    amount, next := ReadInt(buf, next, 8);
    if amount.None? { return; }
    valence, next := ReadByte(buf, next);
    if valence.None? { return; }
    height, next := ReadInt(buf, next, 8);
    if height.None? { return; }
    r := Some(Cyberlink(neuron.value, from.value, to.value, token.value, amount.value, SignedByte(valence.value), height.value));
  }

  method DeserializeLinks(buf: seq<Byte>, p: nat, n: nat) returns (r: Option<seq<Cyberlink>>, next: nat)
    requires p <= |buf|
    ensures ReadAs(r, buf, next, ParseMany(ParseLink, n, buf[p..], []))
  {
    hide ParseLink;
    var links := [];
    next := p;
    var i := 0;
    while i < n
      invariant 0 <= i <= n && next <= |buf|
      invariant ParseMany(ParseLink, n, buf[p..], []) == ParseMany(ParseLink, n - i, buf[next..], links)
    {
      var l;
      l, next := DeserializeLink(buf, next);
      if l.None? {
        return None, next;
      }
      links := links + [l.value];
      i := i + 1;
    }
    r := Some(links);
  }

  method DeserializeMove(buf: seq<Byte>, p: nat) returns (r: Option<BoxMove>, next: nat)
    requires p <= |buf|
    ensures ReadAs(r, buf, next, ParseMove(buf[p..]))
  {
    hide TakeId, TakeInt, TakeByte;
    r := None;
    var nullifier, tag;
    nullifier, next := Read32(buf, p);
    if nullifier.None? { return; }
    tag, next := ReadByte(buf, next);
    if tag.None? { return; }
    if tag.value == 0 {
      r := Some(BoxMove(nullifier.value, None));
    } else if tag.value == 1 {
      var point, value;
      point, next := Read32(buf, next);
      if point.None? { return; }
      value, next := ReadInt(buf, next, 8);
      if value.None? { return; }
      r := Some(BoxMove(nullifier.value, Some((point.value, value.value))));
    }
  }

  method DeserializeMoves(buf: seq<Byte>, p: nat, n: nat) returns (r: Option<seq<BoxMove>>, next: nat)
    requires p <= |buf|
    ensures ReadAs(r, buf, next, ParseMany(ParseMove, n, buf[p..], []))
  {
    hide ParseMove;
    var moves := [];
    next := p;
    var i := 0;
    while i < n
      invariant 0 <= i <= n && next <= |buf|
      invariant ParseMany(ParseMove, n, buf[p..], []) == ParseMany(ParseMove, n - i, buf[next..], moves)
    {
      var m;
      m, next := DeserializeMove(buf, next);
      if m.None? {
        return None, next;
      }
      moves := moves + [m.value];
      i := i + 1;
    }
    r := Some(moves);
  }

  method DeserializePays(buf: seq<Byte>, p: nat, n: nat) returns (r: Option<seq<(Id, nat)>>, next: nat)
    requires p <= |buf|
    ensures ReadAs(r, buf, next, ParseMany(ParsePay, n, buf[p..], []))
  {
    hide TakeId, TakeInt;
    var pays := [];
    next := p;
    var i := 0;
    while i < n
      invariant 0 <= i <= n && next <= |buf|
      invariant ParseMany(ParsePay, n, buf[p..], []) == ParseMany(ParsePay, n - i, buf[next..], pays)
    {
      var to, amount;
      to, next := Read32(buf, next);
      if to.None? {
        return None, next;
      }
      amount, next := ReadInt(buf, next, 8);
      if amount.None? {
        return None, next;
      }
      pays := pays + [(to.value, amount.value)];
      i := i + 1;
    }
    r := Some(pays);
  }

  method DeserializeSections(buf: seq<Byte>, p: nat) returns (moves: Option<seq<BoxMove>>, pays: Option<seq<(Id, nat)>>, next: nat)
    requires p <= |buf|
    ensures next <= |buf|
    ensures var a := ParseMoveSection(buf[p..]);
            match a
            case Short => moves == None
            case Got(ms, rest) => moves == Some(ms) && ReadAs(pays, buf, next, ParsePaySection(rest))
  {
    hide TakeInt, ParseMany;
    moves, pays, next := Some([]), Some([]), p;
    if next < |buf| {
      var n;
      n, next := ReadInt(buf, next, 4);
      if n.None? { return None, None, p; }
      moves, next := DeserializeMoves(buf, next, n.value);
      if moves.None? { return None, None, p; }
    }
    if next < |buf| {
      var n;
      n, next := ReadInt(buf, next, 4);
      if n.None? { return moves, None, p; }
      pays, next := DeserializePays(buf, next, n.value);
    }
  }

  method DeserializeSignal(buf: seq<Byte>) returns (r: Option<Signal>)
    ensures r == Deserialized(buf)
  {
    hide TakeId, TakeInt, ParseMany, ParseMoveSection, ParsePaySection;
    r := None;
    var neuron, step, prev, height, n, links, moves, pays, p;
    assert buf[0..] == buf;
    neuron, p := Read32(buf, 0);
    if neuron.None? { return; }
    step, p := ReadInt(buf, p, 8);
    if step.None? { return; }
    prev, p := Read32(buf, p);
    if prev.None? { return; }
    height, p := ReadInt(buf, p, 8);
    if height.None? { return; }
    n, p := ReadInt(buf, p, 4);
    if n.None? { return; }
    links, p := DeserializeLinks(buf, p, n.value);
    if links.None? { return; }
    moves, pays, p := DeserializeSections(buf, p);
    if moves.None? { return; }
    if pays.None? { return; }
    r := Some(Signal(neuron.value, SELF_NETWORK, links.value, pays.value, moves.value, prev.value, step.value, height.value, None));
  }
}
