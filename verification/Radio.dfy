/** Frames on a stream (src/wire.rs:108-131) and the receiving side of the settle radio (src/radio_settle.rs:67-97):
    whatever way the stream is cut, the same messages arrive, in order, each content id once. */
module Radio {
  import opened Bytes
  import opened Cursor
  import opened Wire
  import opened Tickets
  import opened Words

  // ---------- frames ----------

  function Frame(body: seq<Byte>): seq<Byte> {
    ToLE(|body|, 4) + body
  }

  datatype Cut = Whole(frame: seq<Byte>, rest: seq<Byte>) | Partial

  function SplitFrame(buf: seq<Byte>): (c: Cut)
    ensures c.Whole? ==> |c.rest| < |buf|
  {
    if |buf| < 4 then Partial
    else
      var n := FromLE(buf[..4]);
      if |buf| < 4 + n then Partial else Whole(buf[4..4 + n], buf[4 + n..])
  }

  lemma SplitFrameBack(body: seq<Byte>, tail: seq<Byte>)
    requires |body| < Limit(4)
    ensures SplitFrame(Frame(body) + tail) == Whole(body, tail)
  {
    var buf := Frame(body) + tail;
    assert buf[..4] == ToLE(|body|, 4);
    FromLEToLE(|body|, 4);
    assert buf[4..4 + |body|] == body && buf[4 + |body|..] == tail;
  }

  /** A whole frame stays the first frame when more bytes follow. */
  lemma SplitFrameExtends(buf: seq<Byte>, more: seq<Byte>)
    ensures SplitFrame(buf).Whole? ==>
      SplitFrame(buf + more) == Whole(SplitFrame(buf).frame, SplitFrame(buf).rest + more)
  {
    if SplitFrame(buf).Whole? {
      var n := FromLE(buf[..4]);
      assert (buf + more)[..4] == buf[..4];
      assert (buf + more)[4..4 + n] == buf[4..4 + n];
      assert (buf + more)[4 + n..] == buf[4 + n..] + more;
    }
  }

  /** The frames at the front of a buffer. */
  function Frames(buf: seq<Byte>): seq<seq<Byte>>
    decreases |buf|
  {
    match SplitFrame(buf)
    case Partial => []
    case Whole(frame, rest) => [frame] + Frames(rest)
  }

  /** What is left after them. */
  function Leftover(buf: seq<Byte>): seq<Byte>
    decreases |buf|
  {
    match SplitFrame(buf)
    case Partial => buf
    case Whole(_, rest) => Leftover(rest)
  }

  /** Taking the frames out before more bytes arrive changes nothing. */
  lemma {:induction false} FramesLater(a: seq<Byte>, b: seq<Byte>)
    ensures Frames(a + b) == Frames(a) + Frames(Leftover(a) + b)
    ensures Leftover(a + b) == Leftover(Leftover(a) + b)
    decreases |a|
  {
    hide SplitFrame;
    SplitFrameExtends(a, b);
    match SplitFrame(a)
    case Partial =>
      assert [] + Frames(a + b) == Frames(a + b);
    case Whole(frame, rest) =>
      FramesLater(rest, b);
      assert [frame] + (Frames(rest) + Frames(Leftover(rest) + b)) == [frame] + Frames(rest) + Frames(Leftover(rest) + b);
  }

  // ---------- the stream of a list of messages ----------

  function Stream(walk: Walk, ms: seq<Msg>): seq<Byte> {
    if ms == [] then [] else Frame(Encoded(walk, ms[0])) + Stream(walk, ms[1..])
  }

  /** The messages that decode, in order. */
  function Readable(frames: seq<seq<Byte>>): seq<Msg> {
    if frames == [] then []
    else
      var m := Decoded(frames[0]);
      (if m.Some? then [m.value] else []) + Readable(frames[1..])
  }

  lemma {:induction false} ReadableAppend(a: seq<seq<Byte>>, b: seq<seq<Byte>>)
    ensures Readable(a + b) == Readable(a) + Readable(b)
  {
    if a == [] {
      assert a + b == b;
    } else {
      hide *;
      var rest := a[1..];
      ReadableAppend(rest, b);
      ReadableFirst(a);
      ReadableFirst(a + b);
      assert (a + b)[1..] == rest + b && (a + b)[0] == a[0];
      Regroup(Readable([a[0]]), Readable(rest), Readable(b));
    }
  }

  lemma Regroup(a: seq<Msg>, b: seq<Msg>, c: seq<Msg>)
    ensures (a + b) + c == a + (b + c)
  {
  }

  lemma ReadableFirst(frames: seq<seq<Byte>>)
    requires frames != []
    ensures Readable(frames) == Readable([frames[0]]) + Readable(frames[1..])
  {
    hide Decoded;
    var one: seq<seq<Byte>> := [frames[0]];
    assert one[1..] == [];
  }

  ghost predicate Sendable(walk: Walk, m: Msg) {
    Fits(m) && Carried(m) && |Encoded(walk, m)| < Limit(4)
  }

  /** A stream of messages yields those messages and nothing is left over. */
  lemma {:induction false} StreamBack(walk: Walk, ms: seq<Msg>)
    requires Walks(walk) && forall i :: 0 <= i < |ms| ==> Sendable(walk, ms[i])
    ensures Readable(Frames(Stream(walk, ms))) == ms && Leftover(Stream(walk, ms)) == []
  {
    hide SplitFrame, Frame, Encoded, Decoded, Fits, Carried, Walks, Limit;
    if ms == [] {
      NothingToSplit();
    } else {
      var body, rest := Encoded(walk, ms[0]), Stream(walk, ms[1..]);
      assert Sendable(walk, ms[0]);
      SplitFrameBack(body, rest);
      CarriedComesBack(walk, ms[0]);
      StreamBack(walk, ms[1..]);
      assert Frames(Stream(walk, ms)) == [body] + Frames(rest);
      assert ([body] + Frames(rest))[1..] == Frames(rest);
      assert ms == [ms[0]] + ms[1..];
    }
  }

  lemma NothingToSplit()
    ensures SplitFrame([]) == Partial
  {
  }

  // ---------- receiving ----------

  /** The bytes read: up to the first empty read, which ends the connection. */
  function Received(chunks: seq<seq<Byte>>): seq<Byte> {
    if chunks == [] || chunks[0] == [] then [] else chunks[0] + Received(chunks[1..])
  }

  function Topic(m: Msg): Id {
    m.topic
  }

  /** What is hashed to identify a message; a claim is identified by its claim id alone. */
  function HashedText(m: Msg): seq<Byte> {
    match m
    case ClaimAnnounce(_, _, _, _) => []
    case SelfAcc(topic, miner, acc) =>
      [0x73, 0x65, 0x6C, 0x66, 0x61, 0x63, 0x63] + topic + miner + acc.commitment + ToLE(acc.k, 8)
    case ReceiptHash(topic, receiptHash, epoch) => [0x72, 0x63, 0x70, 0x74] + topic + receiptHash + ToLE(epoch, 8)
  }

  /** Dedupe identity. */
  function ContentId(h: seq<Byte> -> Id, m: Msg): Id {
    if m.ClaimAnnounce? then m.claimId else h(HashedText(m))
  }

  predicate Subscribed(subs: set<Id>, m: Msg) {
    subs == {} || Topic(m) in subs
  }

  /** The content ids seen after the messages ms. */
  function SeenAfter(h: seq<Byte> -> Id, subs: set<Id>, seen: set<Id>, ms: seq<Msg>): set<Id>
    decreases |ms|
  {
    if ms == [] then seen
    else SeenAfter(h, subs, if Subscribed(subs, ms[0]) then seen + {ContentId(h, ms[0])} else seen, ms[1..])
  }

  /** The messages taken: subscribed, and the first of their content id. */
  function Taken(h: seq<Byte> -> Id, subs: set<Id>, seen: set<Id>, ms: seq<Msg>): seq<Msg>
    decreases |ms|
  {
    if ms == [] then []
    else if Subscribed(subs, ms[0]) && ContentId(h, ms[0]) !in seen then
      [ms[0]] + Taken(h, subs, seen + {ContentId(h, ms[0])}, ms[1..])
    else Taken(h, subs, seen, ms[1..])
  }

  lemma {:induction false} TakenAppend(h: seq<Byte> -> Id, subs: set<Id>, seen: set<Id>, a: seq<Msg>, b: seq<Msg>)
    ensures Taken(h, subs, seen, a + b) == Taken(h, subs, seen, a) + Taken(h, subs, SeenAfter(h, subs, seen, a), b)
    ensures SeenAfter(h, subs, seen, a + b) == SeenAfter(h, subs, SeenAfter(h, subs, seen, a), b)
    decreases |a|
  {
    hide ContentId, Subscribed;
    if a == [] {
      assert a + b == b;
    } else {
      assert (a + b)[1..] == a[1..] + b;
      var id := ContentId(h, a[0]);
      TakenAppend(h, subs, seen + {id}, a[1..], b);
      TakenAppend(h, subs, seen, a[1..], b);
      assert id in seen ==> seen + {id} == seen;
    }
  }

  lemma {:induction false} SeenMembers(h: seq<Byte> -> Id, subs: set<Id>, seen: set<Id>, ms: seq<Msg>)
    ensures forall id :: id in SeenAfter(h, subs, seen, ms) <==>
      id in seen || exists i :: 0 <= i < |ms| && Subscribed(subs, ms[i]) && ContentId(h, ms[i]) == id
    decreases |ms|
  {
    hide ContentId, Subscribed;
    if ms != [] {
      var seen' := if Subscribed(subs, ms[0]) then seen + {ContentId(h, ms[0])} else seen;
      SeenMembers(h, subs, seen', ms[1..]);
      forall id
        ensures id in SeenAfter(h, subs, seen', ms[1..]) <==>
          id in seen || exists i :: 0 <= i < |ms| && Subscribed(subs, ms[i]) && ContentId(h, ms[i]) == id
      {
        if i :| 0 <= i < |ms| && Subscribed(subs, ms[i]) && ContentId(h, ms[i]) == id {
          assert i > 0 ==> ms[i] == ms[1..][i - 1];
        }
        if i :| 0 <= i < |ms[1..]| && Subscribed(subs, ms[1..][i]) && ContentId(h, ms[1..][i]) == id {
          assert ms[1..][i] == ms[i + 1];
        }
      }
    }
  }

  ghost predicate Represented(h: seq<Byte> -> Id, id: Id, ms: seq<Msg>) {
    exists j :: 0 <= j < |ms| && ContentId(h, ms[j]) == id
  }

  lemma TakenStep(h: seq<Byte> -> Id, subs: set<Id>, seen: set<Id>, ms: seq<Msg>)
    requires ms != []
    ensures Taken(h, subs, seen, ms) ==
      if Subscribed(subs, ms[0]) && ContentId(h, ms[0]) !in seen
      then [ms[0]] + Taken(h, subs, seen + {ContentId(h, ms[0])}, ms[1..])
      else Taken(h, subs, seen, ms[1..])
  {
  }

  /** What is taken is one of the messages and was not seen. */
  lemma {:induction false} TakenIsNew(h: seq<Byte> -> Id, subs: set<Id>, seen: set<Id>, ms: seq<Msg>, m: Msg)
    ensures m in Taken(h, subs, seen, ms) ==> m in ms && Subscribed(subs, m) && ContentId(h, m) !in seen
    decreases |ms|
  {
    hide ContentId, Subscribed;
    if ms != [] {
      TakenStep(h, subs, seen, ms);
      TakenIsNew(h, subs, seen + {ContentId(h, ms[0])}, ms[1..], m);
      TakenIsNew(h, subs, seen, ms[1..], m);
      hide Taken;
    }
  }

  /** No content id is taken twice. */
  lemma {:induction false} TakenOnce(h: seq<Byte> -> Id, subs: set<Id>, seen: set<Id>, ms: seq<Msg>)
    ensures forall i, j :: 0 <= i < j < |Taken(h, subs, seen, ms)| ==>
      ContentId(h, Taken(h, subs, seen, ms)[i]) != ContentId(h, Taken(h, subs, seen, ms)[j])
    decreases |ms|
  {
    hide ContentId, Subscribed;
    if ms != [] {
      TakenStep(h, subs, seen, ms);
      var id := ContentId(h, ms[0]);
      TakenOnce(h, subs, seen + {id}, ms[1..]);
      TakenOnce(h, subs, seen, ms[1..]);
      var later := Taken(h, subs, seen + {id}, ms[1..]);
      forall j | 0 <= j < |later|
        ensures ContentId(h, later[j]) != id
      {
        TakenIsNew(h, subs, seen + {id}, ms[1..], later[j]);
      }
      hide Taken;
    }
  }

  /** Nothing subscribed and unseen is missed. */
  lemma {:induction false} TakenCovers(h: seq<Byte> -> Id, subs: set<Id>, seen: set<Id>, ms: seq<Msg>, m: Msg)
    requires m in ms && Subscribed(subs, m) && ContentId(h, m) !in seen
    ensures Represented(h, ContentId(h, m), Taken(h, subs, seen, ms))
    decreases |ms|
  {
    hide ContentId, Subscribed;
    TakenStep(h, subs, seen, ms);
    var id, rest := ContentId(h, ms[0]), ms[1..];
    var takes := Subscribed(subs, ms[0]) && id !in seen;
    var all := Taken(h, subs, seen, ms);
    if takes && ContentId(h, m) == id {
      assert all[0] == ms[0];
    } else {
      assert m in rest;
      var seen' := if takes then seen + {id} else seen;
      TakenCovers(h, subs, seen', rest, m);
      var later := Taken(h, subs, seen', rest);
      var j :| 0 <= j < |later| && ContentId(h, later[j]) == ContentId(h, m);
      assert all[if takes then j + 1 else j] == later[j];
    }
  }

  class RadioState {
    var inbox: seq<Msg>
    var seen: set<Id>
    var subs: set<Id>

    constructor ()
      ensures inbox == [] && seen == {} && subs == {}
    {
      inbox, seen, subs := [], {}, {};
    }

    method Ingest(h: seq<Byte> -> Id, m: Msg)
      modifies this`inbox, this`seen
      ensures inbox == old(inbox) + Taken(h, subs, old(seen), [m])
      ensures seen == SeenAfter(h, subs, old(seen), [m])
    {
      hide ContentId;
      var cid := ContentId(h, m);
      if subs != {} && Topic(m) !in subs {
        return;
      }
      if cid !in seen {
        seen := seen + {cid};
        inbox := inbox + [m];
      } else {
        assert seen + {cid} == seen;
      }
    }

    method IngestFrame(h: seq<Byte> -> Id, frame: seq<Byte>)
      modifies this`inbox, this`seen
      ensures inbox == old(inbox) + Taken(h, subs, old(seen), Readable([frame]))
      ensures seen == SeenAfter(h, subs, old(seen), Readable([frame]))
    {
      hide Decoded, ContentId;
      var msg := DecodeSettleMsg(frame);
      OneReadable(frame);
      if msg.Some? {
        Ingest(h, msg.value);
      }
    }

    /** Takes out and ingests every whole frame in the buffer. */
    method Drain(h: seq<Byte> -> Id, bytes: seq<Byte>) returns (buf: seq<Byte>)
      modifies this`inbox, this`seen
      ensures buf == Leftover(bytes)
      ensures inbox == old(inbox) + Taken(h, subs, old(seen), Readable(Frames(bytes)))
      ensures seen == SeenAfter(h, subs, old(seen), Readable(Frames(bytes)))
    {
      hide SplitFrame, Readable, Taken, SeenAfter;
      buf := bytes;
      ghost var done: seq<seq<Byte>> := [];
      NoFrames(h, subs, seen);
      assert inbox + [] == inbox;
      var cut := SplitFrame(buf);
      while cut.Whole?
        invariant cut == SplitFrame(buf)
        invariant Frames(bytes) == done + Frames(buf) && Leftover(bytes) == Leftover(buf)
        invariant inbox == old(inbox) + Taken(h, subs, old(seen), Readable(done))
        invariant seen == SeenAfter(h, subs, old(seen), Readable(done))
        decreases |buf|
      {
        assert Frames(buf) == [cut.frame] + Frames(cut.rest);
        buf := cut.rest;
        IngestFrame(h, cut.frame);
        ReadableAppend(done, [cut.frame]);
        TakenAppend(h, subs, old(seen), Readable(done), Readable([cut.frame]));
        done := done + [cut.frame];
        cut := SplitFrame(buf);
      }
      assert done + [] == done;
    }

    /** Several connections over one state, each with its own buffer, in any order of arrivals and of frames taken. */
    method Serve(h: seq<Byte> -> Id, conns: nat, schedule: seq<Traffic>)
      requires forall i :: 0 <= i < |schedule| ==> schedule[i].conn < conns
      modifies this`inbox, this`seen
      ensures inbox == old(inbox) + Taken(h, subs, old(seen), Readable(AllTaken(schedule)))
      ensures seen == SeenAfter(h, subs, old(seen), Readable(AllTaken(schedule)))
    {
      hide SplitFrame, Readable, Taken, SeenAfter, BufferAfter, AllTaken;
      var bufs: seq<seq<Byte>> := seq(conns, _ => []);
      NoFrames(h, subs, seen);
      NoTraffic();
      assert inbox + [] == inbox;
      assert schedule[..0] == [];
      var i := 0;
      while i < |schedule|
        invariant 0 <= i <= |schedule| && |bufs| == conns
        invariant forall c :: 0 <= c < conns ==> bufs[c] == BufferAfter(schedule[..i], c)
        invariant inbox == old(inbox) + Taken(h, subs, old(seen), Readable(AllTaken(schedule[..i])))
        invariant seen == SeenAfter(h, subs, old(seen), Readable(AllTaken(schedule[..i])))
      {
        ghost var before := schedule[..i];
        TrafficStep(schedule, i);
        match schedule[i] {
          case Arrive(c, chunk) =>
            bufs := bufs[c := bufs[c] + chunk];
            assert AllTaken(before) + [] == AllTaken(before);
          case Take(c) =>
            var cut := SplitFrame(bufs[c]);
            if cut.Whole? {
              bufs := bufs[c := cut.rest];
              IngestFrame(h, cut.frame);
              assert TakenAt(before, schedule[i]) == [cut.frame];
              ReadableAppend(AllTaken(before), [cut.frame]);
              TakenAppend(h, subs, old(seen), Readable(AllTaken(before)), Readable([cut.frame]));
            } else {
              assert AllTaken(before) + [] == AllTaken(before);
            }
        }
        i := i + 1;
      }
      assert schedule[..i] == schedule;
    }

    /** The receive loop. */
    method HandleInbound(h: seq<Byte> -> Id, chunks: seq<seq<Byte>>)
      modifies this`inbox, this`seen
      ensures inbox == old(inbox) + Taken(h, subs, old(seen), Readable(Frames(Received(chunks))))
      ensures seen == SeenAfter(h, subs, old(seen), Readable(Frames(Received(chunks))))
    {
      hide SplitFrame, Frames, Leftover, Readable, Taken, SeenAfter, Decoded;
      var buf: seq<Byte>, i := [], 0;
      ghost var read: seq<Byte> := [];
      NothingYet(h, subs, seen);
      assert inbox + [] == inbox;
      while i < |chunks| && chunks[i] != []
        invariant 0 <= i <= |chunks| && Received(chunks) == read + Received(chunks[i..])
        invariant buf == Leftover(read)
        invariant inbox == old(inbox) + Taken(h, subs, old(seen), Readable(Frames(read)))
        invariant seen == SeenAfter(h, subs, old(seen), Readable(Frames(read)))
      {
        var chunk := chunks[i];
        assert chunks[i..][0] == chunk && chunks[i..][1..] == chunks[i + 1..];
        FramesLater(read, chunk);
        ReadableAppend(Frames(read), Frames(buf + chunk));
        TakenAppend(h, subs, old(seen), Readable(Frames(read)), Readable(Frames(buf + chunk)));
        buf := Drain(h, buf + chunk);
        assert read + (chunk + Received(chunks[i + 1..])) == (read + chunk) + Received(chunks[i + 1..]);
        read := read + chunk;
        i := i + 1;
      }
      assert Received(chunks[i..]) == [];
      assert read + [] == read;
    }
  }

  lemma OneReadable(frame: seq<Byte>)
    ensures Readable([frame]) == if Decoded(frame).Some? then [Decoded(frame).value] else []
  {
    hide Decoded;
  }

  lemma NoFrames(h: seq<Byte> -> Id, subs: set<Id>, seen: set<Id>)
    ensures Taken(h, subs, seen, Readable([])) == [] && SeenAfter(h, subs, seen, Readable([])) == seen
  {
  }

  lemma NothingYet(h: seq<Byte> -> Id, subs: set<Id>, seen: set<Id>)
    ensures Leftover([]) == [] && Taken(h, subs, seen, Readable(Frames([]))) == []
    ensures SeenAfter(h, subs, seen, Readable(Frames([]))) == seen
  {
  }

  lemma {:induction false} ReceivedAll(chunks: seq<seq<Byte>>)
    requires forall i :: 0 <= i < |chunks| ==> chunks[i] != []
    ensures Received(chunks) == Joined(chunks)
  {
    if chunks != [] {
      ReceivedAll(chunks[1..]);
    }
  }

  function Joined(chunks: seq<seq<Byte>>): seq<Byte> {
    if chunks == [] then [] else chunks[0] + Joined(chunks[1..])
  }

  /** However the stream of a list of messages is cut into non-empty chunks, exactly those messages are read, in order. */
  lemma AnyCutting(walk: Walk, ms: seq<Msg>, chunks: seq<seq<Byte>>)
    requires Walks(walk) && forall i :: 0 <= i < |ms| ==> Sendable(walk, ms[i])
    requires forall i :: 0 <= i < |chunks| ==> chunks[i] != []
    requires Joined(chunks) == Stream(walk, ms)
    ensures Readable(Frames(Received(chunks))) == ms
  {
    ReceivedAll(chunks);
    StreamBack(walk, ms);
  }

  /** A fresh node that receives the messages holds each content id of its topics once. */
  method ReceiveAll(h: seq<Byte> -> Id, walk: Walk, ms: seq<Msg>, chunks: seq<seq<Byte>>) returns (inbox: seq<Msg>)
    requires Walks(walk) && forall i :: 0 <= i < |ms| ==> Sendable(walk, ms[i])
    requires forall i :: 0 <= i < |chunks| ==> chunks[i] != []
    requires Joined(chunks) == Stream(walk, ms)
    ensures inbox == Taken(h, {}, {}, ms)
    ensures forall i, j :: 0 <= i < j < |inbox| ==> ContentId(h, inbox[i]) != ContentId(h, inbox[j])
    ensures forall i :: 0 <= i < |ms| ==> Represented(h, ContentId(h, ms[i]), inbox)
  {
    hide ContentId, Taken, Frames, Readable, Received;
    var state := new RadioState();
    AnyCutting(walk, ms, chunks);
    state.HandleInbound(h, chunks);
    inbox := state.inbox;
    TakenOnce(h, {}, {}, ms);
    assert inbox == Taken(h, {}, {}, ms);
    forall i | 0 <= i < |ms|
      ensures Represented(h, ContentId(h, ms[i]), inbox)
    {
      TakenCovers(h, {}, {}, ms, ms[i]);
    }
  }

  // ---------- several connections ----------

  /** What happens to a connection: bytes arrive in its buffer, or the first frame of the buffer, if whole, is taken. */
  datatype Traffic = Arrive(conn: nat, chunk: seq<Byte>) | Take(conn: nat)

  function BufferAfter(schedule: seq<Traffic>, c: nat): seq<Byte> {
    if schedule == [] then []
    else
      var buf := BufferAfter(schedule[..|schedule| - 1], c);
      match schedule[|schedule| - 1]
      case Arrive(conn, chunk) => if conn == c then buf + chunk else buf
      case Take(conn) => if conn == c && SplitFrame(buf).Whole? then SplitFrame(buf).rest else buf
  }

  /** The frames an event takes. */
  function TakenAt(before: seq<Traffic>, e: Traffic): seq<seq<Byte>> {
    if e.Take? && SplitFrame(BufferAfter(before, e.conn)).Whole? then [SplitFrame(BufferAfter(before, e.conn)).frame] else []
  }

  /** All frames taken, in the order of the schedule. */
  function AllTaken(schedule: seq<Traffic>): seq<seq<Byte>> {
    if schedule == [] then []
    else AllTaken(schedule[..|schedule| - 1]) + TakenAt(schedule[..|schedule| - 1], schedule[|schedule| - 1])
  }

  /** The frames taken from one connection. */
  function TakenFrom(schedule: seq<Traffic>, c: nat): seq<seq<Byte>> {
    if schedule == [] then []
    else
      TakenFrom(schedule[..|schedule| - 1], c)
      + if schedule[|schedule| - 1].conn == c then TakenAt(schedule[..|schedule| - 1], schedule[|schedule| - 1]) else []
  }

  /** The bytes that arrived on one connection. */
  function Arrived(schedule: seq<Traffic>, c: nat): seq<Byte> {
    if schedule == [] then []
    else
      var e := schedule[|schedule| - 1];
      Arrived(schedule[..|schedule| - 1], c) + if e.Arrive? && e.conn == c then e.chunk else []
  }

  lemma NoTraffic()
    ensures AllTaken([]) == [] && forall c: nat :: BufferAfter([], c) == []
  {
  }

  lemma TrafficStep(schedule: seq<Traffic>, i: nat)
    requires i < |schedule|
    ensures AllTaken(schedule[..i + 1]) == AllTaken(schedule[..i]) + TakenAt(schedule[..i], schedule[i])
    ensures forall c: nat ::
      BufferAfter(schedule[..i + 1], c) ==
        var buf := BufferAfter(schedule[..i], c);
        match schedule[i]
        case Arrive(conn, chunk) => if conn == c then buf + chunk else buf
        case Take(conn) => if conn == c && SplitFrame(buf).Whole? then SplitFrame(buf).rest else buf
  {
    hide SplitFrame;
    assert schedule[..i + 1][..i] == schedule[..i];
  }

  lemma FramesOfWhole(buf: seq<Byte>)
    ensures SplitFrame(buf).Whole? ==> Frames(buf) == [SplitFrame(buf).frame] + Frames(SplitFrame(buf).rest)
    ensures SplitFrame(buf).Whole? ==> Leftover(buf) == Leftover(SplitFrame(buf).rest)
  {
    hide SplitFrame;
  }

  /** On each connection the frames taken and those still whole in the buffer are the frames of the bytes that arrived,
      however the arrivals were cut and whatever happened on the other connections. */
  lemma {:induction false} ConnectionFrames(schedule: seq<Traffic>, c: nat)
    ensures Frames(Arrived(schedule, c)) == TakenFrom(schedule, c) + Frames(BufferAfter(schedule, c))
    ensures Leftover(Arrived(schedule, c)) == Leftover(BufferAfter(schedule, c))
  {
    hide SplitFrame, Frames, Leftover;
    if schedule == [] {
      assert [] + Frames([]) == Frames([]);
      NothingToSplit();
      NoWholeFrames([]);
    } else {
      var before, e := schedule[..|schedule| - 1], schedule[|schedule| - 1];
      ConnectionFrames(before, c);
      var buf, taken := BufferAfter(before, c), TakenFrom(before, c);
      if e.conn != c {
        assert Arrived(before, c) + [] == Arrived(before, c) && taken + [] == taken;
      } else if e.Arrive? {
        FramesLater(Arrived(before, c), e.chunk);
        FramesLater(buf, e.chunk);
        assert taken + [] == taken;
        assert (taken + Frames(buf)) + Frames(Leftover(buf) + e.chunk) == taken + (Frames(buf) + Frames(Leftover(buf) + e.chunk));
      } else {
        assert Arrived(before, c) + [] == Arrived(before, c);
        FramesOfWhole(buf);
        if SplitFrame(buf).Whole? {
          var cut := SplitFrame(buf);
          assert taken + ([cut.frame] + Frames(cut.rest)) == (taken + [cut.frame]) + Frames(cut.rest);
        } else {
          assert taken + [] == taken;
        }
      }
    }
  }

  lemma NoWholeFrames(buf: seq<Byte>)
    requires SplitFrame(buf).Partial?
    ensures Frames(buf) == [] && Leftover(buf) == buf
  {
    hide SplitFrame;
  }

  lemma {:induction false} InReadable(frames: seq<seq<Byte>>, m: Msg)
    ensures m in Readable(frames) <==> exists i :: 0 <= i < |frames| && Decoded(frames[i]) == Some(m)
  {
    hide Decoded;
    if frames != [] {
      InReadable(frames[1..], m);
      if i :| 0 <= i < |frames| && Decoded(frames[i]) == Some(m) {
        assert i > 0 ==> frames[1..][i - 1] == frames[i];
      }
      if i :| 0 <= i < |frames[1..]| && Decoded(frames[1..][i]) == Some(m) {
        assert frames[1..][i] == frames[i + 1];
      }
    }
  }

  /** What was taken is what was taken from the connections. */
  lemma {:induction false} TakenFromAll(schedule: seq<Traffic>, frame: seq<Byte>)
    ensures frame in AllTaken(schedule) ==> exists i :: 0 <= i < |schedule| && frame in TakenFrom(schedule, schedule[i].conn)
    ensures forall c: nat :: frame in TakenFrom(schedule, c) ==> frame in AllTaken(schedule)
  {
    hide TakenAt, AllTaken, TakenFrom;
    if schedule == [] {
      NothingTaken();
    } else {
      var before, e := schedule[..|schedule| - 1], schedule[|schedule| - 1];
      TakenFromAll(before, frame);
      TakenLast(schedule);
      if frame in AllTaken(before) {
        var i :| 0 <= i < |before| && frame in TakenFrom(before, before[i].conn);
        assert schedule[i] == before[i];
      }
      assert schedule[|schedule| - 1] == e;
    }
  }

  lemma NothingTaken()
    ensures AllTaken([]) == [] && forall c: nat :: TakenFrom([], c) == []
  {
  }

  lemma TakenLast(schedule: seq<Traffic>)
    requires schedule != []
    ensures AllTaken(schedule) == AllTaken(schedule[..|schedule| - 1]) + TakenAt(schedule[..|schedule| - 1], schedule[|schedule| - 1])
    ensures forall c: nat ::
      TakenFrom(schedule, c) == TakenFrom(schedule[..|schedule| - 1], c)
        + if schedule[|schedule| - 1].conn == c then TakenAt(schedule[..|schedule| - 1], schedule[|schedule| - 1]) else []
  {
    hide TakenAt;
  }

  /** All arrivals have been handled: no buffer holds another whole frame. */
  ghost predicate Drained(schedule: seq<Traffic>, conns: nat) {
    forall c :: 0 <= c < conns ==> SplitFrame(BufferAfter(schedule, c)).Partial?
  }

  lemma ConnectionMessages(walk: Walk, sent: seq<seq<Msg>>, schedule: seq<Traffic>, c: nat)
    requires Walks(walk) && c < |sent| && Drained(schedule, |sent|)
    requires forall i :: 0 <= i < |sent[c]| ==> Sendable(walk, sent[c][i])
    requires Arrived(schedule, c) == Stream(walk, sent[c])
    ensures Readable(TakenFrom(schedule, c)) == sent[c]
  {
    hide SplitFrame, Frames, Leftover, Stream, Readable, Walks;
    ConnectionFrames(schedule, c);
    NoWholeFrames(BufferAfter(schedule, c));
    StreamBack(walk, sent[c]);
    assert TakenFrom(schedule, c) + [] == TakenFrom(schedule, c);
  }

  lemma {:induction false} SentIsTaken(walk: Walk, sent: seq<seq<Msg>>, schedule: seq<Traffic>, m: Msg)
    requires forall i :: 0 <= i < |schedule| ==> schedule[i].conn < |sent|
    requires forall c :: 0 <= c < |sent| ==> Readable(TakenFrom(schedule, c)) == sent[c]
    ensures m in Readable(AllTaken(schedule)) <==> exists c :: 0 <= c < |sent| && m in sent[c]
  {
    hide Decoded, TakenFrom, AllTaken, Readable;
    InReadable(AllTaken(schedule), m);
    if m in Readable(AllTaken(schedule)) {
      var i :| 0 <= i < |AllTaken(schedule)| && Decoded(AllTaken(schedule)[i]) == Some(m);
      var frame := AllTaken(schedule)[i];
      TakenFromAll(schedule, frame);
      var j :| 0 <= j < |schedule| && frame in TakenFrom(schedule, schedule[j].conn);
      var c := schedule[j].conn;
      InReadable(TakenFrom(schedule, c), m);
      assert m in sent[c];
    }
    if c :| 0 <= c < |sent| && m in sent[c] {
      InReadable(TakenFrom(schedule, c), m);
      var i :| 0 <= i < |TakenFrom(schedule, c)| && Decoded(TakenFrom(schedule, c)[i]) == Some(m);
      TakenFromAll(schedule, TakenFrom(schedule, c)[i]);
    }
  }

  /** Any number of connections, any cutting and any interleaving: a fresh node takes each content id once over the whole
      run, misses none, and takes nothing that was not sent. */
  method ServeAll(h: seq<Byte> -> Id, walk: Walk, sent: seq<seq<Msg>>, schedule: seq<Traffic>) returns (inbox: seq<Msg>)
    requires Walks(walk) && forall c, i :: 0 <= c < |sent| && 0 <= i < |sent[c]| ==> Sendable(walk, sent[c][i])
    requires forall i :: 0 <= i < |schedule| ==> schedule[i].conn < |sent|
    requires forall c :: 0 <= c < |sent| ==> Arrived(schedule, c) == Stream(walk, sent[c])
    requires Drained(schedule, |sent|)
    ensures forall i, j :: 0 <= i < j < |inbox| ==> ContentId(h, inbox[i]) != ContentId(h, inbox[j])
    ensures forall c, i :: 0 <= c < |sent| && 0 <= i < |sent[c]| ==> Represented(h, ContentId(h, sent[c][i]), inbox)
    ensures forall m :: m in inbox ==> exists c :: 0 <= c < |sent| && m in sent[c]
  {
    hide ContentId, Taken, Readable, AllTaken, Arrived, Stream, Sendable, Drained, Walks, TakenFrom, Represented;
    var state := new RadioState();
    state.Serve(h, |sent|, schedule);
    inbox := state.inbox;
    ghost var all := Readable(AllTaken(schedule));
    assert inbox == Taken(h, {}, {}, all);
    forall c | 0 <= c < |sent|
      ensures Readable(TakenFrom(schedule, c)) == sent[c]
    {
      ConnectionMessages(walk, sent, schedule, c);
    }
    TakenOnce(h, {}, {}, all);
    forall c, i | 0 <= c < |sent| && 0 <= i < |sent[c]|
      ensures Represented(h, ContentId(h, sent[c][i]), inbox)
    {
      SentIsTaken(walk, sent, schedule, sent[c][i]);
      TakenCovers(h, {}, {}, all, sent[c][i]);
    }
    forall m | m in inbox
      ensures exists c :: 0 <= c < |sent| && m in sent[c]
    {
      TakenIsNew(h, {}, {}, all, m);
      SentIsTaken(walk, sent, schedule, m);
    }
  }

  // ---------- what a content id stands for ----------

  /** Where the hash does not collide on them, two announcements of accumulators or receipts with one content id say the
      same: topic, miner, commitment and counter, or topic, receipt and epoch. */
  lemma ContentIdBinds(h: seq<Byte> -> Id, a: Msg, b: Msg)
    requires Wire.Fits(a) && Wire.Fits(b) && !a.ClaimAnnounce? && !b.ClaimAnnounce? && ContentId(h, a) == ContentId(h, b)
    requires h(HashedText(a)) == h(HashedText(b)) ==> HashedText(a) == HashedText(b)
    ensures a.topic == b.topic && (a.SelfAcc? <==> b.SelfAcc?)
    ensures a.SelfAcc? ==> a.miner == b.miner && a.acc.commitment == b.acc.commitment && a.acc.k == b.acc.k
    ensures a.ReceiptHash? ==> a.receiptHash == b.receiptHash && a.epoch == b.epoch
  {
    hide ToLE;
    if a.SelfAcc? {
      AccText(a.topic, a.miner, a.acc);
    } else {
      ReceiptText(a.topic, a.receiptHash, a.epoch);
    }
    if b.SelfAcc? {
      AccText(b.topic, b.miner, b.acc);
    } else {
      ReceiptText(b.topic, b.receiptHash, b.epoch);
    }
  }

  lemma AccText(topic: Id, miner: Id, acc: Tickets.Acc)
    requires Wire.AccFits(acc)
    ensures
      var x := HashedText(SelfAcc(topic, miner, acc));
      |x| == 111 && x[7..39] == topic && x[39..71] == miner && x[71..103] == acc.commitment && FromLE(x[103..]) == acc.k
  {
    FromLEToLE(acc.k, 8);
    hide ToLE, FromLE;
    var x := HashedText(SelfAcc(topic, miner, acc));
    assert x[103..] == ToLE(acc.k, 8);
  }

  lemma ReceiptText(topic: Id, receiptHash: Id, epoch: nat)
    requires epoch < Limit(8)
    ensures
      var x := HashedText(ReceiptHash(topic, receiptHash, epoch));
      |x| == 76 && x[4..36] == topic && x[36..68] == receiptHash && FromLE(x[68..]) == epoch
  {
    FromLEToLE(epoch, 8);
    hide ToLE, FromLE;
    var x := HashedText(ReceiptHash(topic, receiptHash, epoch));
    assert x[68..] == ToLE(epoch, 8);
  }
}
