/** One connection of the server (wx-server/src/session.cpp): identity, write queue and read loop. */
module SessionObject {
  import opened Wrappers
  import opened Wire
  import opened ServerProtocol
  import opened ServerStream
  import opened Outbox
  import opened Registry

  /**
   The socket a session owns. The peer and the network decide how many bytes each call moves;
   an empty answer of `Recv` stands for end of stream, an error, or a closed descriptor.
   */
  class Socket {
    var incoming: seq<byte> // sent by the peer, not yet read
    var taken: seq<byte>    // read so far
    var sent: seq<byte>     // handed to the network so far

    constructor (incoming: seq<byte>)
      ensures this.incoming == incoming && taken == [] && sent == []
    {
      this.incoming, taken, sent := incoming, [], [];
    }

    method Recv(n: nat) returns (data: seq<byte>)
      requires n > 0
      modifies this
      ensures |data| <= n
      ensures taken == old(taken) + data && data + incoming == old(incoming) && sent == old(sent)
    {
      var k: nat :| k <= n && k <= |incoming|;
      data := incoming[..k];
      taken, incoming := taken + data, incoming[k..];
    }

    /** Returns how many bytes went out, or a number below one for a failure. */
    method Send(data: seq<byte>) returns (n: int)
      requires data != []
      modifies this
      ensures n <= |data|
      ensures sent == old(sent) + (if n > 0 then data[..n] else [])
      ensures taken == old(taken) && incoming == old(incoming)
    {
      n :| n <= |data|;
      if n > 0 {
        sent := sent + data[..n];
      }
    }
  }

  /** Why the read loop ended. */
  datatype Ending = Stopped | Timeout | EndOfStream | RefusedHeader

  class Session {
    const host: ByteOrder
    const socket: Socket
    var open: bool
    var running: bool
    var state: SessionState
    var userId: int
    var nickname: string
    var writeQueue: seq<byte>
    var writeQueueBytes: nat

    constructor (host: ByteOrder, socket: Socket)
      ensures this.host == host && this.socket == socket
      ensures open && running && state == CONNECTED && userId == 0 && Box() == WriteQueue([], 0)
    {
      this.host, this.socket := host, socket;
      open, running, state, userId, nickname := true, true, CONNECTED, 0, "";
      writeQueue, writeQueueBytes := [], 0;
    }

    function Box(): WriteQueue
      reads this
    {
      WriteQueue(writeQueue, writeQueueBytes)
    }

    method SetLoggedIn(uid: int, nick: string)
      modifies this`userId, this`nickname, this`state
      ensures userId == uid && nickname == nick && state == LOGGED_IN
    {
      userId := uid;
      nickname := nick;
      state := LOGGED_IN;
    }

    method CloseSocket()
      modifies this`open
      ensures !open
    {
      open := false;
    }

    /** The compare-and-swap that decides which thread carries out the shutdown. */
    method BeginShutdown() returns (won: bool)
      modifies this`running
      ensures won == old(running) && !running
    {
      if !running {
        return false;
      }
      running := false;
      return true;
    }

    method SendBytes(data: seq<byte>) returns (accepted: bool)
      modifies this`writeQueue, this`writeQueueBytes
      ensures Enqueued(Box(), accepted) == Enqueue(old(Box()), data)
      ensures accepted <==> data == [] || old(writeQueueBytes) + |data| <= 4 * 1024 * 1024
      ensures writeQueue == (if accepted then old(writeQueue) + data else old(writeQueue))
      ensures writeQueueBytes == (if accepted then old(writeQueueBytes) + |data| else old(writeQueueBytes))
    {
      if data == [] {
        return true;
      }
      if writeQueueBytes + |data| > MAX_WRITE_QUEUE_BYTES {
        return false;
      }
      writeQueue := writeQueue + data;
      writeQueueBytes := writeQueueBytes + |data|;
      return true;
    }

    /** The writer's critical section, once the condition variable lets it go on. */
    method TakeChunk() returns (chunk: Option<seq<byte>>)
      requires writeQueue != [] || !running
      modifies this`writeQueue, this`writeQueueBytes
      ensures !running ==> chunk == None && Box() == old(Box())
      ensures running ==> chunk == Some(old(writeQueue)) && Box() == WriteQueue([], 0)
    {
      if !running {
        return None;
      }
      chunk := Some(writeQueue);
      writeQueue := [];
      writeQueueBytes := 0;
    }

    /** What the other threads may do at any time: begin the shutdown, which nothing takes back. */
    method OtherThreads()
      modifies this`running
      ensures running ==> old(running)
    {
      var stop: bool := *;
      if stop {
        running := false;
      }
    }

    /**
     The writer's inner loop: all of the chunk goes out, in order, unless a send fails or the
     session is shut down in between. A send that would block is retried inside `Send`.
     */
    method SendChunk(chunk: seq<byte>) returns (sent: nat, failed: bool)
      modifies socket, this`running
      ensures sent <= |chunk| && socket.sent == old(socket.sent) + chunk[..sent]
      ensures socket.taken == old(socket.taken) && socket.incoming == old(socket.incoming)
      ensures failed ==> sent < |chunk|
      ensures sent < |chunk| ==> failed || !running
      ensures running ==> old(running)
    {
      sent, failed := 0, false;
      OtherThreads();
      while sent < |chunk| && running
        invariant sent <= |chunk| && socket.sent == old(socket.sent) + chunk[..sent]
        invariant socket.taken == old(socket.taken) && socket.incoming == old(socket.incoming)
        invariant running ==> old(running)
        decreases |chunk| - sent
      {
        var n := socket.Send(chunk[sent..]);
        if n <= 0 {
          return sent, true;
        }
        assert chunk[..sent + n] == chunk[..sent] + chunk[sent..][..n];
        sent := sent + n;
        OtherThreads();
      }
    }

    /** Either exactly n bytes, or the stream ended before that. */
    method ReadExact(n: nat) returns (ok: bool, data: seq<byte>)
      modifies socket
      ensures ok <==> |data| == n
      ensures |data| <= n && socket.taken == old(socket.taken) + data
      ensures data + socket.incoming == old(socket.incoming) && socket.sent == old(socket.sent)
    {
      data := [];
      while |data| < n
        invariant |data| <= n && socket.taken == old(socket.taken) + data
        invariant data + socket.incoming == old(socket.incoming) && socket.sent == old(socket.sent)
        decreases n - |data|
      {
        var part := socket.Recv(n - |data|);
        data := data + part;
        if part == [] {
          return false, data;
        }
      }
      return true, data;
    }

    /** One round of the read loop: a whole frame, or the reason why the loop ends. */
    method ReadFrame() returns (f: Option<Frame>, ending: Ending)
      requires Clean(Parse(socket.taken))
      modifies socket
      ensures socket.taken + socket.incoming == old(socket.taken + socket.incoming) && socket.sent == old(socket.sent)
      ensures |socket.incoming| <= |old(socket.incoming)|
      ensures f.Some? ==> Parse(socket.taken) == Parsed(old(Parse(socket.taken).frames) + [f.value], [], false)
      ensures f.Some? ==> |socket.incoming| < |old(socket.incoming)|
      ensures f.None? ==> Parse(socket.taken).frames == old(Parse(socket.taken).frames)
      ensures f.None? ==> (ending == EndOfStream || ending == RefusedHeader)
                          && (ending == RefusedHeader <==> Parse(socket.taken).refused)
    {
      hide Parse;
      hide ReadHeader;
      ghost var before := socket.taken;
      var ok, header := ReadExact(FRAME_HEADER_SIZE);
      if !ok {
        TornFrame(before, header);
        return None, EndOfStream;
      }
      var accepted, h := ParseHeader(host, header);
      if !accepted {
        assert header[..FRAME_HEADER_SIZE] == header;
        TornFrame(before, header);
        return None, RefusedHeader;
      }
      var payload;
      ok, payload := ReadExact(h.length);
      assert socket.taken == before + (header + payload);
      if !ok {
        assert (header + payload)[..FRAME_HEADER_SIZE] == header;
        TornFrame(before, header + payload);
        return None, EndOfStream;
      }
      OneMoreFrame(before, header, payload);
      return Some(WithPayload(h, payload)), EndOfStream;
    }

    /**
     The read loop, with what it does for each frame as its result. It starts once per session,
     when nothing has been read. Whatever the sizes of the partial reads, and wherever it stops,
     it has acted on exactly the frames that are complete in the bytes it took.
     */
    method ReadLoop() returns (actions: seq<Action>, ending: Ending)
      requires socket.taken == []
      modifies socket, this`running
      ensures socket.taken + socket.incoming == old(socket.incoming) && socket.sent == old(socket.sent)
      ensures actions == ActionsOf(Parse(socket.taken).frames)
      ensures ending == RefusedHeader <==> Parse(socket.taken).refused
      ensures (ending == Stopped ==> !running) && (running ==> old(running))
      ensures ending == EndOfStream && socket.incoming == [] ==> actions == ActionsOf(Parse(old(socket.incoming)).frames)
    {
      actions := [];
      ghost var frames: seq<Frame> := [];
      assert Parse(socket.taken) == Parsed([], [], false);
      hide Parse;
      while true
        invariant socket.taken + socket.incoming == old(socket.incoming) && socket.sent == old(socket.sent)
        invariant Parse(socket.taken) == Parsed(frames, [], false)
        invariant actions == ActionsOf(frames)
        invariant running ==> old(running)
        decreases |socket.incoming|
      {
        OtherThreads();
        if !running {
          return actions, Stopped;
        }
        var ready: bool := *; // poll, which times out after 90 seconds
        if !ready {
          return actions, Timeout;
        }
        var f, e := ReadFrame();
        if f.None? {
          assert e == EndOfStream && socket.incoming == [] ==> socket.taken == old(socket.incoming);
          return actions, e;
        }
        actions := actions + [ActionOf(f.value)];
        frames := frames + [f.value];
      }
    }
  }

  /** A clean stream followed by less than a frame, or by a refused header, holds no more frames. */
  lemma TornFrame(clean: seq<byte>, tail: seq<byte>)
    requires Clean(Parse(clean))
    requires |tail| >= FRAME_HEADER_SIZE ==>
               var h := ReadHeader(tail[..FRAME_HEADER_SIZE]);
               Acceptable(h) ==> |tail| < FRAME_HEADER_SIZE + h.length
    ensures Parse(clean + tail).frames == Parse(clean).frames
    ensures Parse(clean + tail).refused <==>
              |tail| >= FRAME_HEADER_SIZE && !Acceptable(ReadHeader(tail[..FRAME_HEADER_SIZE]))
  {
    ParseAppend(clean, tail);
    hide ReadHeader;
    assert Parse(tail).frames == [];
  }

  lemma OneMoreFrame(clean: seq<byte>, header: seq<byte>, payload: seq<byte>)
    requires Clean(Parse(clean)) && |header| == FRAME_HEADER_SIZE
    requires Acceptable(ReadHeader(header)) && |payload| == ReadHeader(header).length
    ensures Parse(clean + (header + payload)) == Parsed(Parse(clean).frames + [WithPayload(ReadHeader(header), payload)], [], false)
  {
    hide ReadHeader;
    ParseAppend(clean, header + payload);
    assert header + payload == header + payload + [];
    ParseFrame(header, payload, []);
  }
}
