/** How the client turns the byte stream back into frames (`WeChatSocket::onReadyRead`). */
module Reassembly {
  import opened Wire
  import opened ClientCodec

  /**
   The receiving end of a connection: the `frameReceived` signals so far, the bytes kept for
   later, and whether a malformed frame made the client abort the connection.
   */
  datatype Inbox<J> = Inbox(frames: seq<ClientFrame<J>>, buffer: seq<byte>, aborted: bool)

  /** What a one-shot parse of the whole buffer gives; heartbeats are swallowed. */
  function Reassemble<J(!new)>(json: Json<J>, buffer: seq<byte>): Inbox<J>
    decreases |buffer|
  {
    match Decode(json, buffer)
    case Incomplete => Inbox([], buffer, false)
    case Malformed => Inbox([], [], true)
    case Ok(f, n) => Signal(f, Reassemble(json, buffer[n..]))
  }

  /** A decoded frame ahead of what follows it. */
  function Signal<J>(f: ClientFrame<J>, after: Inbox<J>): Inbox<J> {
    if f.frameType == PINGPONG then after else after.(frames := [f] + after.frames)
  }

  /** One `readyRead` with these bytes; an aborted connection delivers nothing more. */
  function Feed<J(!new)>(json: Json<J>, inbox: Inbox<J>, data: seq<byte>): Inbox<J> {
    if inbox.aborted then inbox
    else Then(inbox, Reassemble(json, inbox.buffer + data))
  }

  function Then<J>(before: Inbox<J>, after: Inbox<J>): Inbox<J> {
    after.(frames := before.frames + after.frames)
  }

  function FeedAll<J(!new)>(json: Json<J>, inbox: Inbox<J>, chunks: seq<seq<byte>>): Inbox<J>
    decreases |chunks|
  {
    if chunks == [] then inbox else FeedAll(json, Feed(json, inbox, chunks[0]), chunks[1..])
  }

  function Flatten(chunks: seq<seq<byte>>): seq<byte> {
    if chunks == [] then [] else chunks[0] + Flatten(chunks[1..])
  }

  lemma SignalThen<J>(f: ClientFrame<J>, before: Inbox<J>, after: Inbox<J>)
    ensures Signal(f, Then(before, after)) == Then(Signal(f, before), after)
    ensures Signal(f, before).aborted == before.aborted && Signal(f, before).buffer == before.buffer
  {
    assert [f] + (before.frames + after.frames) == ([f] + before.frames) + after.frames;
  }

  lemma ReassembleOneMore<J(!new)>(json: Json<J>, buffer: seq<byte>, more: seq<byte>)
    requires Decode(json, buffer).Ok?
    ensures var (f, n) := (Decode(json, buffer).frame, Decode(json, buffer).consumed);
            Reassemble(json, buffer + more) == Signal(f, Reassemble(json, buffer[n..] + more))
  {
    hide Decode;
    DecodeStable(json, buffer, more);
    var n := Decode(json, buffer).consumed;
    assert (buffer + more)[n..] == buffer[n..] + more;
  }

  /** Bytes that arrive later can be parsed later. */
  lemma {:induction false} ReassembleAppend<J(!new)>(json: Json<J>, buffer: seq<byte>, more: seq<byte>)
    ensures var r := Reassemble(json, buffer);
            Reassemble(json, buffer + more) == if r.aborted then r else Then(r, Reassemble(json, r.buffer + more))
    decreases |buffer|
  {
    hide Decode;
    hide Signal;
    match Decode(json, buffer)
    case Incomplete =>
    case Malformed => DecodeStable(json, buffer, more);
    case Ok(f, n) =>
      var r := Reassemble(json, buffer[n..]);
      ReassembleOneMore(json, buffer, more);
      ReassembleAppend(json, buffer[n..], more);
      SignalThen(f, r, Reassemble(json, r.buffer + more));
  }

  /** What stays in the buffer is never a frame yet. */
  lemma {:induction false} ResidueIsIncomplete<J(!new)>(json: Json<J>, buffer: seq<byte>)
    ensures var r := Reassemble(json, buffer);
            !r.aborted ==> Decode(json, r.buffer).Incomplete? && Reassemble(json, r.buffer) == Inbox([], r.buffer, false)
    decreases |buffer|
  {
    match Decode(json, buffer)
    case Incomplete =>
    case Malformed =>
    case Ok(f, n) => ResidueIsIncomplete(json, buffer[n..]);
  }

  lemma FeedReassembled<J(!new)>(json: Json<J>, past: seq<byte>, data: seq<byte>)
    ensures Feed(json, Reassemble(json, past), data) == Reassemble(json, past + data)
  {
    ReassembleAppend(json, past, data);
  }

  lemma {:induction false} FeedAllReassembled<J(!new)>(json: Json<J>, past: seq<byte>, chunks: seq<seq<byte>>)
    ensures FeedAll(json, Reassemble(json, past), chunks) == Reassemble(json, past + Flatten(chunks))
    decreases |chunks|
  {
    hide Reassemble;
    hide Feed;
    if chunks == [] {
      assert past + Flatten(chunks) == past;
    } else {
      FeedReassembled(json, past, chunks[0]);
      FeedAllReassembled(json, past + chunks[0], chunks[1..]);
      assert past + Flatten(chunks) == past + chunks[0] + Flatten(chunks[1..]);
    }
  }

  /** Any two ways of cutting the same stream into reads end alike, and like the one-shot parse. */
  lemma ChunkingIndependence<J(!new)>(json: Json<J>, one: seq<seq<byte>>, two: seq<seq<byte>>)
    requires Flatten(one) == Flatten(two)
    ensures FeedAll(json, Inbox([], [], false), one) == FeedAll(json, Inbox([], [], false), two)
    ensures FeedAll(json, Inbox([], [], false), one) == Reassemble(json, Flatten(one))
  {
    FeedAllReassembled(json, [], one);
    FeedAllReassembled(json, [], two);
    assert [] + Flatten(one) == Flatten(one);
  }

  ghost predicate AllDeliverable<J(!new)>(json: Json<J>, fs: seq<Frame>) {
    forall f :: f in fs ==> Deliverable(json, f)
  }

  /** The frames the user of the client sees when these arrive. */
  ghost function Shown<J(!new)>(json: Json<J>, fs: seq<Frame>): seq<ClientFrame<J>>
    requires AllDeliverable(json, fs)
  {
    if fs == [] then []
    else if fs[0].frameType == PINGPONG then Shown(json, fs[1..])
    else [Received(json, fs[0])] + Shown(json, fs[1..])
  }

  /** How many of the frames lie completely within the first n bytes of their serialisation. */
  function Whole(fs: seq<Frame>, n: nat): (k: nat)
    ensures k <= |fs|
  {
    if fs == [] || n < |Serialize(fs[0])| then 0 else 1 + Whole(fs[1..], n - |Serialize(fs[0])|)
  }

  lemma ReassembleSerialized<J(!new)>(json: Json<J>, f: Frame, rest: seq<byte>)
    requires Deliverable(json, f)
    ensures Reassemble(json, Serialize(f) + rest) == Signal(Received(json, f), Reassemble(json, rest))
  {
    DecodeSerialized(json, f, rest);
    hide Decode;
    hide Serialize;
    assert (Serialize(f) + rest)[|Serialize(f)|..] == rest;
  }

  lemma {:induction false} ReassembleAll<J(!new)>(json: Json<J>, fs: seq<Frame>, rest: seq<byte>)
    requires AllDeliverable(json, fs)
    ensures Reassemble(json, SerializeAll(fs) + rest)
            == Then(Inbox(Shown(json, fs), [], false), Reassemble(json, rest))
  {
    hide Serialize;
    hide Reassemble;
    if fs == [] {
      assert SerializeAll(fs) + rest == rest;
    } else {
      assert Deliverable(json, fs[0]);
      assert SerializeAll(fs) + rest == Serialize(fs[0]) + (SerializeAll(fs[1..]) + rest);
      ReassembleSerialized(json, fs[0], SerializeAll(fs[1..]) + rest);
      ReassembleAll(json, fs[1..], rest);
    }
  }

  lemma {:induction false} WholeBounds(fs: seq<Frame>, n: nat)
    requires n <= |SerializeAll(fs)|
    ensures var k := Whole(fs, n);
            && |SerializeAll(fs[..k])| <= n
            && (if k < |fs| then n < |SerializeAll(fs[..k])| + |Serialize(fs[k])| else n == |SerializeAll(fs)|)
  {
    hide Serialize;
    var k := Whole(fs, n);
    if k > 0 {
      WholeBounds(fs[1..], n - |Serialize(fs[0])|);
      assert fs[..k][1..] == fs[1..][..k - 1];
    } else if fs == [] {
      assert SerializeAll(fs) == [];
    }
  }

  lemma SplitAt(a: seq<byte>, b: seq<byte>, c: seq<byte>, all: seq<byte>, n: nat)
    requires all == a + (b + c) && |a| <= n <= |a| + |b|
    ensures all[..n] == a + all[|a|..n] && all[|a|..n] == b[..n - |a|]
  {
  }

  /** A prefix of the stream is its whole frames and a proper prefix of the next one. */
  lemma WholeSplits(fs: seq<Frame>, n: nat)
    requires n <= |SerializeAll(fs)|
    ensures var k := Whole(fs, n);
            && |SerializeAll(fs[..k])| <= n
            && SerializeAll(fs)[..n] == SerializeAll(fs[..k]) + SerializeAll(fs)[|SerializeAll(fs[..k])|..n]
            && (k < |fs| ==> n - |SerializeAll(fs[..k])| < |Serialize(fs[k])|
                             && SerializeAll(fs)[|SerializeAll(fs[..k])|..n] == Serialize(fs[k])[..n - |SerializeAll(fs[..k])|])
            && (k == |fs| ==> n == |SerializeAll(fs)|)
  {
    hide Serialize;
    WholeBounds(fs, n);
    var k := Whole(fs, n);
    assert fs == fs[..k] + fs[k..];
    SerializeAllAppend(fs[..k], fs[k..]);
    if k < |fs| {
      assert SerializeAll(fs[k..]) == Serialize(fs[k]) + SerializeAll(fs[k..][1..]);
      hide SerializeAll;
      SplitAt(SerializeAll(fs[..k]), Serialize(fs[k]), SerializeAll(fs[k..][1..]), SerializeAll(fs), n);
    } else {
      assert fs[..k] == fs;
    }
  }

  lemma ReassembleNothing<J(!new)>(json: Json<J>)
    ensures Reassemble(json, []) == Inbox([], [], false)
  {
  }

  /** A prefix of the stream shows the frames that are complete in it and keeps the rest. */
  lemma ReassemblePrefix<J(!new)>(json: Json<J>, fs: seq<Frame>, n: nat)
    requires AllDeliverable(json, fs) && n <= |SerializeAll(fs)|
    ensures var r := Reassemble(json, SerializeAll(fs)[..n]);
            && r.frames == Shown(json, fs[..Whole(fs, n)])
            && !r.aborted
            && SerializeAll(fs[..Whole(fs, n)]) + r.buffer == SerializeAll(fs)[..n]
  {
    hide Serialize;
    hide Decode;
    WholeSplits(fs, n);
    var k := Whole(fs, n);
    var partial := SerializeAll(fs)[|SerializeAll(fs[..k])|..n];
    ReassembleAll(json, fs[..k], partial);
    if k < |fs| {
      assert Deliverable(json, fs[k]);
      DecodePartial(json, fs[k], |partial|);
    } else {
      assert fs[..k] == fs && partial == [];
      ReassembleNothing(json);
    }
  }

  /** Nothing is kept back of a stream that has arrived completely. */
  lemma {:induction false} WholeStream(fs: seq<Frame>)
    ensures Whole(fs, |SerializeAll(fs)|) == |fs|
  {
    if fs != [] {
      WholeStream(fs[1..]);
    }
  }

  /** The frames before the first one that is not deliverable. */
  ghost function DeliverablePrefix<J(!new)>(json: Json<J>, fs: seq<Frame>): (r: seq<Frame>)
    ensures AllDeliverable(json, r)
  {
    if fs == [] || !Deliverable(json, fs[0]) then []
    else [fs[0]] + DeliverablePrefix(json, fs[1..])
  }

  /**
   When the whole stream has arrived the client has aborted exactly if some frame was not
   deliverable, and then it has still shown every frame before that one.
   */
  lemma {:induction false} AbortsExactly<J(!new)>(json: Json<J>, fs: seq<Frame>)
    requires forall f :: f in fs ==> |f.payload| < 0x1_0000_0000
    ensures Reassemble(json, SerializeAll(fs)).aborted <==> !AllDeliverable(json, fs)
    ensures Reassemble(json, SerializeAll(fs)).frames == Shown(json, DeliverablePrefix(json, fs))
    decreases |fs|
  {
    if fs != [] {
      hide Decode;
      hide Serialize;
      DecodeSerialized(json, fs[0], SerializeAll(fs[1..]));
      if Deliverable(json, fs[0]) {
        ReassembleSerialized(json, fs[0], SerializeAll(fs[1..]));
        AbortsExactly(json, fs[1..]);
        assert DeliverablePrefix(json, fs)[1..] == DeliverablePrefix(json, fs[1..]);
        assert forall f :: f in fs <==> f == fs[0] || f in fs[1..];
      }
    }
  }

  /** How many bytes of a frame that is not deliverable it takes to know: the header, if its length is too large. */
  function BytesToReject(f: Frame): nat {
    if |f.payload| > MAX_PAYLOAD_SIZE then FRAME_HEADER_SIZE else FRAME_HEADER_SIZE + |f.payload|
  }

  lemma RejectedExactly<J(!new)>(json: Json<J>, f: Frame, n: nat)
    requires !Deliverable(json, f) && |f.payload| < 0x1_0000_0000 && n <= |Serialize(f)|
    ensures Decode(json, Serialize(f)[..n]) == if n >= BytesToReject(f) then Malformed else Incomplete
  {
    if n >= FRAME_HEADER_SIZE {
      assert Serialize(f)[..n][..FRAME_HEADER_SIZE] == HeaderBytes(FrameHeader(f));
      HeaderRoundTrip(FrameHeader(f));
      if n == |Serialize(f)| {
        assert Serialize(f)[..n][FRAME_HEADER_SIZE..n] == f.payload;
      }
    }
  }

  /** The bytes that arrived when the client has to give up, if it ever has to. */
  ghost predicate Doomed<J(!new)>(json: Json<J>, fs: seq<Frame>, n: nat) {
    var good := DeliverablePrefix(json, fs);
    |good| < |fs| && n >= |SerializeAll(good)| + BytesToReject(fs[|good|])
  }

  lemma DoomedNext<J(!new)>(json: Json<J>, fs: seq<Frame>, n: nat)
    requires fs != [] && Deliverable(json, fs[0])
    ensures Doomed(json, fs, n) <==> n >= |Serialize(fs[0])| && Doomed(json, fs[1..], n - |Serialize(fs[0])|)
  {
    hide Serialize;
    hide Deliverable;
    var good := DeliverablePrefix(json, fs);
    assert good[1..] == DeliverablePrefix(json, fs[1..]);
  }

  lemma PrefixOfSum(a: seq<byte>, b: seq<byte>, n: nat)
    requires n <= |a + b|
    ensures n <= |a| ==> (a + b)[..n] == a[..n]
    ensures n >= |a| ==> (a + b)[..n] == a + b[..n - |a|]
  {
  }

  lemma DoomedFirst<J(!new)>(json: Json<J>, fs: seq<Frame>, n: nat)
    requires fs != [] && !Deliverable(json, fs[0])
    ensures Doomed(json, fs, n) <==> n >= BytesToReject(fs[0])
  {
    hide Deliverable;
    assert DeliverablePrefix(json, fs) == [] && SerializeAll([]) == [];
  }

  lemma Undecoded<J(!new)>(json: Json<J>, buffer: seq<byte>)
    requires !Decode(json, buffer).Ok?
    ensures Reassemble(json, buffer).aborted <==> Decode(json, buffer).Malformed?
  {
    hide Decode;
  }

  /** The first frame is not deliverable: its own bytes decide. */
  lemma FirstRejected<J(!new)>(json: Json<J>, fs: seq<Frame>, n: nat)
    requires fs != [] && !Deliverable(json, fs[0]) && |fs[0].payload| < 0x1_0000_0000 && n <= |SerializeAll(fs)|
    ensures Reassemble(json, SerializeAll(fs)[..n]).aborted <==> n >= BytesToReject(fs[0])
  {
    var f, rest := fs[0], SerializeAll(fs[1..]);
    hide Decode;
    hide Deliverable;
    hide Reassemble;
    hide HeaderBytes;
    assert SerializeAll(fs) == Serialize(f) + rest;
    hide SerializeAll;
    PrefixOfSum(Serialize(f), rest, n);
    Undecided(json, f, rest, n);
    Undecoded(json, SerializeAll(fs)[..n]);
  }

  lemma Undecided<J(!new)>(json: Json<J>, f: Frame, rest: seq<byte>, n: nat)
    requires !Deliverable(json, f) && |f.payload| < 0x1_0000_0000 && n <= |Serialize(f) + rest|
    ensures Decode(json, (Serialize(f) + rest)[..n]) == if n >= BytesToReject(f) then Malformed else Incomplete
  {
    hide Decode;
    hide Deliverable;
    hide HeaderBytes;
    PrefixOfSum(Serialize(f), rest, n);
    if n <= |Serialize(f)| {
      RejectedExactly(json, f, n);
    } else {
      DecodeSerialized(json, f, rest[..n - |Serialize(f)|]);
    }
  }

  /** The first frame is deliverable: it is shown, and the others decide. */
  lemma FirstTaken<J(!new)>(json: Json<J>, fs: seq<Frame>, n: nat)
    requires fs != [] && Deliverable(json, fs[0]) && n <= |SerializeAll(fs)|
    ensures var len := |Serialize(fs[0])|;
            Reassemble(json, SerializeAll(fs)[..n]).aborted
            <==> n >= len && Reassemble(json, SerializeAll(fs[1..])[..n - len]).aborted
  {
    var f, rest := fs[0], SerializeAll(fs[1..]);
    PrefixOfSum(Serialize(f), rest, n);
    assert SerializeAll(fs)[..n] == (Serialize(f) + rest)[..n];
    hide Decode;
    hide Deliverable;
    hide Serialize;
    hide SerializeAll;
    if n < |Serialize(f)| {
      PartialIsKept(json, f, n);
    } else {
      ReassembleSerialized(json, f, rest[..n - |Serialize(f)|]);
      hide Reassemble;
    }
  }

  lemma PartialIsKept<J(!new)>(json: Json<J>, f: Frame, n: nat)
    requires Deliverable(json, f) && n < |Serialize(f)|
    ensures !Reassemble(json, Serialize(f)[..n]).aborted
  {
    DecodePartial(json, f, n);
    hide Decode;
  }

  /** After any number of bytes the client has aborted if and only if they tell that some frame is not deliverable. */
  lemma {:induction false} AbortsAfter<J(!new)>(json: Json<J>, fs: seq<Frame>, n: nat)
    requires (forall f :: f in fs ==> |f.payload| < 0x1_0000_0000) && n <= |SerializeAll(fs)|
    ensures Reassemble(json, SerializeAll(fs)[..n]).aborted <==> Doomed(json, fs, n)
    decreases |fs|
  {
    if fs == [] {
      ReassembleNothing(json);
    } else if Deliverable(json, fs[0]) {
      FirstTaken(json, fs, n);
      DoomedNext(json, fs, n);
      var len := |Serialize(fs[0])|;
      assert |SerializeAll(fs)| == len + |SerializeAll(fs[1..])|;
      hide Reassemble;
      hide Serialize;
      hide SerializeAll;
      hide Deliverable;
      hide Doomed;
      if n >= len {
        AbortsAfter(json, fs[1..], n - len);
      }
    } else {
      hide SerializeAll;
      hide Doomed;
      hide BytesToReject;
      hide Reassemble;
      DoomedFirst(json, fs, n);
      FirstRejected(json, fs, n);
    }
  }

}
