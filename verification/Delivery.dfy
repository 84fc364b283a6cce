/**
 One direction of a connection end to end: any number of `sendBytes` callers, the writer's swap
 and partial sends, the network, and the client's reassembly, as a transition system whose steps
 are the critical sections and system calls of the code.
 */
module Delivery {
  import opened Wrappers
  import opened Wire
  import opened Outbox
  import opened ClientCodec
  import opened Reassembly

  /**
   `accepted`, `past`, `swapped` and `read` are history: the frames `sendBytes` took, how many of
   them were in chunks before the current one and up to the current one, and the bytes the
   client has read. `chunk` and `sent` are the writer's local variables.
   */
  datatype Link<J> = Link(
    accepted: seq<Frame>, past: nat, swapped: nat,
    box: WriteQueue, chunk: seq<byte>, sent: nat,
    wire: seq<byte>, read: seq<byte>, inbox: Inbox<J>)

  datatype Step =
    | Offer(f: Frame)  // some thread calls sendBytes(serializeFrame(f))
    | Swap             // the writer takes the queue
    | Send(n: nat)     // send moves n bytes of the chunk
    | Arrive(n: nat)   // readyRead with n bytes

  function Start<J>(): Link<J> {
    Link([], 0, 0, WriteQueue([], 0), [], 0, [], [], Inbox([], [], false))
  }

  /** None when the step cannot happen. A connection that has stopped takes no more steps. */
  function Next<J(!new)>(json: Json<J>, l: Link<J>, step: Step): Option<Link<J>> {
    match step
    case Offer(f) =>
      var e := Enqueue(l.box, Serialize(f));
      Some(if e.accepted then l.(box := e.box, accepted := l.accepted + [f]) else l)
    case Swap =>
      if l.sent < |l.chunk| || l.box.queue == [] then None
      else Some(l.(chunk := l.box.queue, sent := 0, box := WriteQueue([], 0), past := l.swapped, swapped := |l.accepted|))
    case Send(n) =>
      if n == 0 || l.sent + n > |l.chunk| then None
      else Some(l.(wire := l.wire + l.chunk[l.sent..l.sent + n], sent := l.sent + n))
    case Arrive(n) =>
      if n == 0 || n > |l.wire| || l.inbox.aborted then None
      else Some(l.(wire := l.wire[n..], read := l.read + l.wire[..n], inbox := Feed(json, l.inbox, l.wire[..n])))
  }

  function Run<J(!new)>(json: Json<J>, l: Link<J>, steps: seq<Step>): Option<Link<J>>
    decreases |steps|
  {
    if steps == [] then Some(l)
    else
      match Next(json, l, steps[0])
      case None => None
      case Some(m) => Run(json, m, steps[1..])
  }

  /** The server side: every byte of every accepted frame is in exactly one place, in order. */
  ghost predicate ServerSide<J(!new)>(l: Link<J>) {
    && l.box.bytes == |l.box.queue| <= MAX_WRITE_QUEUE_BYTES
    && |l.chunk| <= MAX_WRITE_QUEUE_BYTES
    && l.past <= l.swapped <= |l.accepted| && l.sent <= |l.chunk|
    && l.box.queue == SerializeAll(l.accepted[l.swapped..])
    && l.chunk == SerializeAll(l.accepted[l.past..l.swapped])
    && l.read + l.wire == SerializeAll(l.accepted[..l.past]) + l.chunk[..l.sent]
    && (forall f :: f in l.accepted ==> |f.payload| < MAX_WRITE_QUEUE_BYTES)
  }

  ghost predicate Invariant<J(!new)>(json: Json<J>, l: Link<J>) {
    ServerSide(l) && l.inbox == Reassemble(json, l.read)
  }

  /** The accepted frames with one more, in the three parts they are in. */
  lemma OneMoreFrame(frames: seq<Frame>, past: nat, swapped: nat, f: Frame)
    requires past <= swapped <= |frames|
    ensures (frames + [f])[swapped..] == frames[swapped..] + [f]
    ensures (frames + [f])[past..swapped] == frames[past..swapped] && (frames + [f])[..past] == frames[..past]
    ensures SerializeAll(frames[swapped..] + [f]) == SerializeAll(frames[swapped..]) + Serialize(f)
  {
    SerializeAllAppend(frames[swapped..], [f]);
    SerializeOne(f);
    hide SerializeAll;
  }

  lemma AcceptKeeps<J(!new)>(l: Link<J>, f: Frame)
    requires ServerSide(l) && Enqueue(l.box, Serialize(f)).accepted
    ensures ServerSide(l.(box := Enqueue(l.box, Serialize(f)).box, accepted := l.accepted + [f]))
  {
    OneMoreFrame(l.accepted, l.past, l.swapped, f);
    hide Serialize;
    hide SerializeAll;
  }

  lemma OfferKeeps<J(!new)>(json: Json<J>, l: Link<J>, f: Frame)
    requires ServerSide(l)
    ensures ServerSide(Next(json, l, Offer(f)).value)
  {
    hide ServerSide;
    hide Feed;
    if Enqueue(l.box, Serialize(f)).accepted {
      AcceptKeeps(l, f);
    }
  }

  lemma FramesMeet(frames: seq<Frame>, past: nat, swapped: nat)
    requires past <= swapped <= |frames|
    ensures frames[..past] + frames[past..swapped] == frames[..swapped]
    ensures frames[swapped..|frames|] == frames[swapped..] && frames[|frames|..] == []
  {
  }

  lemma SwapKeeps<J(!new)>(json: Json<J>, l: Link<J>)
    requires ServerSide(l) && Next(json, l, Swap).Some?
    ensures ServerSide(Next(json, l, Swap).value)
  {
    var m := Next(json, l, Swap).value;
    hide Next;
    hide Serialize;
    FramesMeet(l.accepted, l.past, l.swapped);
    SerializeAllAppend(l.accepted[..l.past], l.accepted[l.past..l.swapped]);
    assert SerializeAll([]) == [];
    hide SerializeAll;
    assert l.chunk[..l.sent] == l.chunk && m.chunk[..m.sent] == [];
    assert SerializeAll(m.accepted[..m.past]) + [] == SerializeAll(m.accepted[..m.past]);
  }

  lemma SendKeeps<J(!new)>(json: Json<J>, l: Link<J>, n: nat)
    requires ServerSide(l) && Next(json, l, Send(n)).Some?
    ensures ServerSide(Next(json, l, Send(n)).value)
  {
    hide SerializeAll;
    var piece := l.chunk[l.sent..l.sent + n];
    assert l.chunk[..l.sent + n] == l.chunk[..l.sent] + piece;
    assert l.read + (l.wire + piece) == (l.read + l.wire) + piece;
    assert (SerializeAll(l.accepted[..l.past]) + l.chunk[..l.sent]) + piece
        == SerializeAll(l.accepted[..l.past]) + (l.chunk[..l.sent] + piece);
  }

  lemma ServerSideKeeps<J(!new)>(json: Json<J>, l: Link<J>, step: Step)
    requires ServerSide(l) && Next(json, l, step).Some?
    ensures ServerSide(Next(json, l, step).value)
  {
    hide SerializeAll;
    hide Serialize;
    hide Feed;
    match step
    case Offer(f) => OfferKeeps(json, l, f);
    case Swap => SwapKeeps(json, l);
    case Send(n) => SendKeeps(json, l, n);
    case Arrive(n) => assert l.read + l.wire[..n] + l.wire[n..] == l.read + l.wire;
  }

  /** Only an arrival concerns the client. */
  lemma InboxKeeps<J(!new)>(json: Json<J>, l: Link<J>, step: Step)
    requires l.inbox == Reassemble(json, l.read) && Next(json, l, step).Some?
    ensures var m := Next(json, l, step).value;
            m.inbox == Reassemble(json, m.read)
  {
    hide Enqueue;
    hide Serialize;
    hide Reassemble;
    hide Feed;
    if step.Arrive? {
      FeedReassembled(json, l.read, l.wire[..step.n]);
    }
  }

  lemma NextKeeps<J(!new)>(json: Json<J>, l: Link<J>, step: Step)
    requires Invariant(json, l) && Next(json, l, step).Some?
    ensures Invariant(json, Next(json, l, step).value)
  {
    hide ServerSide;
    hide Next;
    hide Reassemble;
    ServerSideKeeps(json, l, step);
    InboxKeeps(json, l, step);
  }

  lemma {:induction false} RunKeeps<J(!new)>(json: Json<J>, l: Link<J>, steps: seq<Step>)
    requires Invariant(json, l) && Run(json, l, steps).Some?
    ensures Invariant(json, Run(json, l, steps).value)
    decreases |steps|
  {
    hide Next;
    hide Invariant;
    hide ServerSide;
    hide Reassemble;
    if steps != [] {
      NextKeeps(json, l, steps[0]);
      RunKeeps(json, Next(json, l, steps[0]).value, steps[1..]);
    }
  }

  /** What has gone out, what the writer still holds and what is queued are all the accepted frames. */
  lemma NothingLost<J(!new)>(l: Link<J>)
    requires ServerSide(l)
    ensures l.read + l.wire + l.chunk[l.sent..] + l.box.queue == SerializeAll(l.accepted)
  {
    hide SerializeAll;
    var (a, b, c) := (l.accepted[..l.past], l.accepted[l.past..l.swapped], l.accepted[l.swapped..]);
    SerializeAllAppend(a + b, c);
    SerializeAllAppend(a, b);
    assert a + b + c == l.accepted;
    assert l.chunk[..l.sent] + l.chunk[l.sent..] == l.chunk;
    assert SerializeAll(a) + l.chunk[..l.sent] + l.chunk[l.sent..] == SerializeAll(a) + l.chunk;
  }

  /**
   The write queue in every reachable state: its counter is its length and within the limit, it
   and the writer's chunk are concatenations of whole accepted frames, no byte is lost, doubled
   or reordered, and the two together never exceed twice the limit.
   */
  lemma WriteQueueRefinement<J(!new)>(json: Json<J>, steps: seq<Step>)
    requires Run(json, Start(), steps).Some?
    ensures var l := Run(json, Start(), steps).value;
            && l.box.bytes == |l.box.queue| <= 4 * 1024 * 1024
            && |l.box.queue| + |l.chunk| <= 8 * 1024 * 1024
            && l.past <= l.swapped <= |l.accepted| && l.sent <= |l.chunk|
            && l.chunk == SerializeAll(l.accepted[l.past..l.swapped])
            && l.box.queue == SerializeAll(l.accepted[l.swapped..])
            && l.read + l.wire + l.chunk[l.sent..] + l.box.queue == SerializeAll(l.accepted)
  {
    RunKeeps(json, Start(), steps);
    NothingLost(Run(json, Start(), steps).value);
  }

  /** Every accepted byte has reached the client. */
  predicate Drained<J>(l: Link<J>) {
    l.wire == [] && l.sent == |l.chunk| && l.box.queue == []
  }

  /**
   End-to-end delivery, for every interleaving and every chunking: the client shows exactly the
   frames of a prefix of the accepted ones, those completely read, except heartbeats, in order;
   and all of them once every accepted byte has arrived.
   */
  lemma EndToEnd<J(!new)>(json: Json<J>, steps: seq<Step>)
    requires Run(json, Start(), steps).Some?
    requires AllDeliverable(json, Run(json, Start(), steps).value.accepted)
    ensures var l := Run(json, Start(), steps).value;
            && !l.inbox.aborted
            && l.inbox.frames == Shown(json, l.accepted[..Whole(l.accepted, |l.read|)])
            && SerializeAll(l.accepted[..Whole(l.accepted, |l.read|)]) + l.inbox.buffer == l.read
            && (Drained(l) ==> l.inbox.frames == Shown(json, l.accepted) && l.inbox.buffer == [])
  {
    RunKeeps(json, Start(), steps);
    hide Run;
    Shows(json, Run(json, Start(), steps).value);
  }

  lemma FrontOfFour(a: seq<byte>, b: seq<byte>, c: seq<byte>, d: seq<byte>)
    ensures (a + b + c + d)[..|a|] == a
    ensures b == [] && c == [] && d == [] ==> a + b + c + d == a
  {
  }

  lemma ReadIsPrefix<J(!new)>(l: Link<J>)
    requires ServerSide(l)
    ensures |l.read| <= |SerializeAll(l.accepted)| && SerializeAll(l.accepted)[..|l.read|] == l.read
    ensures Drained(l) ==> l.read == SerializeAll(l.accepted)
  {
    NothingLost(l);
    var unsent := l.chunk[l.sent..];
    assert Drained(l) ==> unsent == [];
    hide SerializeAll;
    hide ServerSide;
    FrontOfFour(l.read, l.wire, unsent, l.box.queue);
  }

  lemma Shows<J(!new)>(json: Json<J>, l: Link<J>)
    requires Invariant(json, l) && AllDeliverable(json, l.accepted)
    ensures !l.inbox.aborted
    ensures l.inbox.frames == Shown(json, l.accepted[..Whole(l.accepted, |l.read|)])
    ensures SerializeAll(l.accepted[..Whole(l.accepted, |l.read|)]) + l.inbox.buffer == l.read
    ensures Drained(l) ==> l.inbox.frames == Shown(json, l.accepted) && l.inbox.buffer == []
  {
    ReadIsPrefix(l);
    hide ServerSide;
    hide Reassemble;
    hide SerializeAll;
    hide Shown;
    ReassemblePrefix(json, l.accepted, |l.read|);
    if Drained(l) {
      WholeStream(l.accepted);
      assert l.accepted[..|l.accepted|] == l.accepted;
    }
  }

  /**
   `serializeFrame` checks nothing, so accepted frames need not be deliverable. In every reachable
   state the client has aborted if and only if the bytes it has read tell that some frame is not:
   all frames before that one, and of it the header if it is too long, or else the whole.
   */
  lemma AbortedExactly<J(!new)>(json: Json<J>, steps: seq<Step>)
    requires Run(json, Start(), steps).Some?
    ensures var l := Run(json, Start(), steps).value;
            l.inbox.aborted <==> Doomed(json, l.accepted, |l.read|)
  {
    RunKeeps(json, Start(), steps);
    var l := Run(json, Start(), steps).value;
    hide Run;
    hide Reassemble;
    hide Doomed;
    ReadIsPrefix(l);
    AbortsAfter(json, l.accepted, |l.read|);
  }

  /** Once every accepted byte has arrived: aborted exactly if some frame is not deliverable, after showing all before it. */
  lemma AbortOnlyIfUndeliverable<J(!new)>(json: Json<J>, steps: seq<Step>)
    requires Run(json, Start(), steps).Some?
    ensures var l := Run(json, Start(), steps).value;
            && (l.inbox.aborted ==> !AllDeliverable(json, l.accepted))
            && (Drained(l) ==> (l.inbox.aborted <==> !AllDeliverable(json, l.accepted)))
            && (Drained(l) ==> l.inbox.frames == Shown(json, DeliverablePrefix(json, l.accepted)))
  {
    RunKeeps(json, Start(), steps);
    var l := Run(json, Start(), steps).value;
    if AllDeliverable(json, l.accepted) {
      EndToEnd(json, steps);
    }
    hide Run;
    if Drained(l) {
      hide Reassemble;
      ReadIsPrefix(l);
      AbortsExactly(json, l.accepted);
    }
  }

  /** Any frame above 1 MiB that fits the queue is accepted by an idle session and makes its client abort. */
  lemma OversizeFrameAborts<J(!new)>(json: Json<J>, f: Frame)
    requires MAX_PAYLOAD_SIZE < |f.payload| <= MAX_WRITE_QUEUE_BYTES - FRAME_HEADER_SIZE
    ensures var n := |Serialize(f)|;
            var r := Run(json, Start(), [Offer(f), Swap, Send(n), Arrive(n)]);
            r.Some? && r.value.accepted == [f] && r.value.inbox == Inbox([], [], true)
  {
    var data := Serialize(f);
    var n := |data|;
    var l1 := Next(json, Start(), Offer(f)).value;
    assert l1.box == WriteQueue(data, n);
    var l2 := Next(json, l1, Swap).value;
    var l3 := Next(json, l2, Send(n)).value;
    assert l3.wire == data;
    var l4 := Next(json, l3, Arrive(n)).value;
    assert data[..n] == data + [] && [] + (data + []) == data + [];
    DecodeSerialized(json, f, []);
    assert l4.inbox == Inbox([], [], true);
    hide Next;
    RunOne(json, l3, Arrive(n), []);
    RunOne(json, l2, Send(n), [Arrive(n)]);
    RunOne(json, l1, Swap, [Send(n), Arrive(n)]);
    RunOne(json, Start(), Offer(f), [Swap, Send(n), Arrive(n)]);
  }

  lemma RunOne<J(!new)>(json: Json<J>, l: Link<J>, step: Step, steps: seq<Step>)
    requires Next(json, l, step).Some?
    ensures Run(json, l, [step] + steps) == Run(json, Next(json, l, step).value, steps)
  {
    assert ([step] + steps)[1..] == steps;
  }

  // ----- what is possible, and where it leads

  /** A frame is accepted if and only if it fits into what is left of the 4 MiB, and otherwise nothing happens. */
  lemma OfferExactly<J(!new)>(json: Json<J>, steps: seq<Step>, f: Frame)
    requires Run(json, Start(), steps).Some?
    ensures var l := Run(json, Start(), steps).value;
            var next := Next(json, l, Offer(f));
            && next.Some?
            && next.value == (if |l.box.queue| + |Serialize(f)| <= 4 * 1024 * 1024
                              then l.(box := WriteQueue(l.box.queue + Serialize(f), |l.box.queue| + |Serialize(f)|),
                                      accepted := l.accepted + [f])
                              else l)
            && (next.value.accepted == l.accepted + [f] <==> |l.box.queue| + |Serialize(f)| <= 4 * 1024 * 1024)
  {
    RunKeeps(json, Start(), steps);
    var l := Run(json, Start(), steps).value;
    assert ServerSide(l);
    assert |l.accepted + [f]| == |l.accepted| + 1;
    hide Run;
    hide ServerSide;
    hide Reassemble;
    hide SerializeAll;
  }

  /** The writer can go on whenever there is something to do, by any amount, and so can the reader. */
  lemma StepsPossible<J(!new)>(json: Json<J>, l: Link<J>, n: nat)
    ensures Next(json, l, Swap).Some? <==> l.sent >= |l.chunk| && l.box.queue != []
    ensures Next(json, l, Swap).Some? ==>
              var m := Next(json, l, Swap).value;
              m.chunk == l.box.queue && m.sent == 0 && m.box == WriteQueue([], 0) && m.accepted == l.accepted && m.wire == l.wire
    ensures Next(json, l, Send(n)).Some? <==> 0 < n <= |l.chunk| - l.sent
    ensures Next(json, l, Send(n)).Some? ==>
              Next(json, l, Send(n)).value == l.(wire := l.wire + l.chunk[l.sent..l.sent + n], sent := l.sent + n)
    ensures Next(json, l, Arrive(n)).Some? <==> 0 < n <= |l.wire| && !l.inbox.aborted
    ensures Next(json, l, Arrive(n)).Some? ==>
              var m := Next(json, l, Arrive(n)).value;
              m.wire == l.wire[n..] && m.chunk == l.chunk && m.sent == l.sent && m.box == l.box && m.accepted == l.accepted
  {
    hide Feed;
  }

  predicate NoOffer(steps: seq<Step>) {
    forall s :: s in steps ==> !s.Offer?
  }

  lemma {:induction false} RunThenRun<J(!new)>(json: Json<J>, l: Link<J>, steps: seq<Step>, more: seq<Step>)
    requires Run(json, l, steps).Some?
    ensures Run(json, l, steps + more) == Run(json, Run(json, l, steps).value, more)
    decreases |steps|
  {
    hide Next;
    if steps == [] {
      assert steps + more == more;
    } else {
      assert (steps + more)[1..] == steps[1..] + more;
      RunThenRun(json, Next(json, l, steps[0]).value, steps[1..], more);
    }
  }

  /** One step, or none if there is nothing to do. */
  lemma Perform<J(!new)>(json: Json<J>, l: Link<J>, step: Step, wanted: bool) returns (steps: seq<Step>, m: Link<J>)
    requires Invariant(json, l) && (wanted ==> Next(json, l, step).Some?) && !step.Offer?
    ensures Run(json, l, steps) == Some(m) && Invariant(json, m) && NoOffer(steps)
    ensures m == if wanted then Next(json, l, step).value else l
  {
    hide Next;
    hide Invariant;
    if wanted {
      NextKeeps(json, l, step);
      RunOne(json, l, step, []);
      steps, m := [step] + [], Next(json, l, step).value;
    } else {
      steps, m := [], l;
    }
  }

  lemma Compose<J(!new)>(json: Json<J>, l: Link<J>, a: seq<Step>, m: Link<J>, b: seq<Step>, n: Link<J>) returns (c: seq<Step>)
    requires Run(json, l, a) == Some(m) && Run(json, m, b) == Some(n) && NoOffer(a) && NoOffer(b)
    ensures Run(json, l, c) == Some(n) && NoOffer(c)
  {
    RunThenRun(json, l, a, b);
    hide Run;
    c := a + b;
  }

  /** The writer finishes its chunk, takes the queue, and finishes that. */
  lemma WriteAll<J(!new)>(json: Json<J>, l: Link<J>) returns (steps: seq<Step>, m: Link<J>)
    requires Invariant(json, l)
    ensures Run(json, l, steps) == Some(m) && Invariant(json, m) && NoOffer(steps)
    ensures m.accepted == l.accepted && m.sent == |m.chunk| && m.box.queue == []
  {
    ChunkLeft(json, l);
    var rest := |l.chunk| - l.sent;
    StepsPossible(json, l, rest);
    hide Next;
    hide Run;
    hide Invariant;
    var first, one := Perform(json, l, Send(rest), rest > 0);
    StepsPossible(json, one, 0);
    var second, two := Perform(json, one, Swap, one.box.queue != []);
    ChunkLeft(json, two);
    StepsPossible(json, two, |two.chunk| - two.sent);
    var third;
    third, m := Perform(json, two, Send(|two.chunk| - two.sent), |two.chunk| - two.sent > 0);
    steps := Compose(json, l, first, one, second, two);
    steps := Compose(json, l, steps, two, third, m);
  }

  lemma ChunkLeft<J(!new)>(json: Json<J>, l: Link<J>)
    requires Invariant(json, l)
    ensures l.sent <= |l.chunk|
  {
  }

  /**
   Nothing that was accepted is stuck: from every reachable state in which the accepted frames are
   deliverable, the writer and the reader alone can bring it about that the client shows all of
   them.
   */
  lemma EverythingArrives<J(!new)>(json: Json<J>, steps: seq<Step>) returns (more: seq<Step>, end: Link<J>)
    requires Run(json, Start(), steps).Some?
    requires AllDeliverable(json, Run(json, Start(), steps).value.accepted)
    ensures NoOffer(more) && Run(json, Start(), steps + more) == Some(end)
    ensures end.accepted == Run(json, Start(), steps).value.accepted && Drained(end)
    ensures end.inbox.frames == Shown(json, end.accepted) && end.inbox.buffer == [] && !end.inbox.aborted
  {
    RunKeeps(json, Start(), steps);
    var l := Run(json, Start(), steps).value;
    hide Run;
    hide Shown;
    hide Deliverable;
    var written, m := WriteAll(json, l);
    Shows(json, m);
    StepsPossible(json, m, |m.wire|);
    hide Invariant;
    hide Next;
    var read;
    read, end := Perform(json, m, Arrive(|m.wire|), m.wire != []);
    more := Compose(json, l, written, m, read, end);
    Shows(json, end);
    RunThenRun(json, Start(), steps, more);
  }
}
