/** The client's socket object (wx-client/network/WeChatSocket.cpp): its slots, one at a time. */
module ClientSocket {
  import opened Wrappers
  import opened Wire
  import opened ClientCodec
  import opened Reassembly
  import opened Reconnect

  class WeChatSocket<J(!new)> {
    const json: Json<J>
    var buffer: seq<byte>
    var received: seq<ClientFrame<J>> // the frameReceived signals so far
    var phase: Phase
    var host: string
    var port: uint16
    var reconnectAttempt: nat
    var reconnecting: bool
    var reconnectTimer: Option<nat>
    var heartbeatTimer: bool
    var timeoutTimer: Option<nat> // the seconds left

    ghost var delays: seq<nat>
    ghost var dials: nat
    ghost var stream: seq<byte> // everything read on this connection
    ghost var before: nat       // how many signals there were when it was opened

    ghost function Model(): Automaton
      reads this
    {
      Automaton(phase, host, port, reconnecting, reconnectAttempt, reconnectTimer, heartbeatTimer, timeoutTimer, delays, dials)
    }

    /** While up, the client has shown and kept exactly what the bytes of this connection mean. */
    ghost predicate Valid()
      reads this
    {
      && Sound(Model())
      && before <= |received|
      && (phase.Up? ==> Reassemble(json, stream) == Inbox(received[before..], buffer, false))
    }

    constructor (json: Json<J>)
      ensures Valid() && Model() == Fresh() && this.json == json && received == []
    {
      this.json := json;
      buffer, received, phase, host, port := [], [], Down, "", 0;
      reconnectAttempt, reconnecting, reconnectTimer, heartbeatTimer, timeoutTimer := 0, false, None, false, None;
      delays, dials, stream, before := [], 0, [], 0;
    }

    /** The lambda connected to `connected`. */
    method OnConnected()
      requires Valid() && Possible(Model(), Connected)
      modifies this
      ensures Valid() && Model() == Reconnect.OnConnected(old(Model()))
      ensures buffer == [] && stream == [] && received == old(received) && before == |received|
    {
      HandleKeeps(Model(), Connected);
      assert Reassemble(json, []) == Inbox([], [], false);
      hide Sound;
      hide Reassemble;
      hide Decode;
      if reconnecting {
        reconnecting := false;
        reconnectAttempt := 0;
        reconnectTimer := None;
      }
      heartbeatTimer := true;
      timeoutTimer := Some(SILENCE);
      buffer := [];
      phase, stream, before := Up, [], |received|;
      assert received[before..] == [];
      assert Model() == Handle(old(Model()), Connected);
    }

    method ConnectToServer(host: string, port: uint16)
      requires Valid()
      modifies this
      ensures Valid() && Model() == OnConnectToServer(old(Model()), host, port)
      ensures this.host == host && this.port == port && !reconnecting && (old(phase) == Down ==> phase == Dialing)
      ensures received == old(received)
    {
      HandleKeeps(Model(), Event.ConnectToServer(host, port));
      hide Sound;
      this.host := host;
      this.port := port;
      reconnectAttempt := 0;
      reconnecting := false;
      reconnectTimer := None;
      ConnectToHost();
    }

    /** Qt's part of a connection attempt: a socket that is in use refuses. */
    method ConnectToHost()
      modifies this`phase
      ensures Model() == Dial(old(Model()))
    {
      if phase == Down {
        phase := Dialing;
      }
    }

    /**
     The bytes that have arrived go to the buffer, every complete frame leaves it, and every frame
     but a heartbeat is signalled; a malformed one ends the connection.
     */
    method OnReadyRead(data: seq<byte>)
      requires Valid() && phase.Up?
      modifies this
      ensures Valid()
      ensures var fed := Feed(json, Inbox(old(received), old(buffer), false), data);
              && received == fed.frames && buffer == fed.buffer
              && Model() == Reconnect.OnReadyRead(old(Model()), !fed.aborted)
      ensures stream == old(stream) + data && before == old(before)
      ensures received[before..] == Reassemble(json, stream).frames
    {
      hide Reassemble;
      FeedReassembled(json, stream, data);
      buffer := buffer + data;
      timeoutTimer := Some(SILENCE);
      stream := stream + data;
      DecodeBuffer();
    }

    /** The loop of `onReadyRead`. */
    method DecodeBuffer()
      modifies this`buffer, this`received, this`phase
      ensures var whole := Reassemble(json, old(buffer));
              && received == old(received) + whole.frames && buffer == whole.buffer
              && phase == if whole.aborted then Down else old(phase)
    {
      hide Decode;
      while true
        invariant phase == old(phase) && old(received) <= received
        invariant Then(Inbox(received, [], false), Reassemble(json, buffer))
                  == Then(Inbox(old(received), [], false), Reassemble(json, old(buffer)))
        decreases |buffer|
      {
        ghost var shown, left := received, buffer;
        var verdict, frame, consumed := DecodeFrame(json, buffer);
        if verdict == VerdictIncomplete {
          return;
        }
        if verdict == VerdictMalformed {
          buffer := [];
          phase := Down; // abort
          return;
        }
        buffer := buffer[consumed..];
        OneFrameLess(json, shown, left);
        if frame.frameType == PINGPONG {
          continue;
        }
        received := received + [frame];
      }
    }

    /** A second passes for the timeout, which is signalled when none is left. */
    method OnTick()
      requires Valid()
      modifies this`timeoutTimer
      ensures Valid() && Model() == Reconnect.OnTick(old(Model()))
    {
      HandleKeeps(Model(), Tick);
      if timeoutTimer.Some? && timeoutTimer.value > 0 {
        timeoutTimer := Some(timeoutTimer.value - 1);
      }
    }

    method OnConnectionTimeout()
      requires Valid() && Possible(Model(), ConnectionTimeout)
      modifies this
      ensures Valid() && Model() == Reconnect.OnConnectionTimeout(old(Model()))
      ensures received == old(received)
    {
      HandleKeeps(Model(), ConnectionTimeout);
      timeoutTimer := None; // a single shot that has just been fired
      heartbeatTimer := false;
      phase := Down;         // close
      StartReconnect();
    }

    method OnSocketError()
      requires Valid()
      modifies this
      ensures Valid() && Model() == Reconnect.OnSocketError(old(Model()))
      ensures received == old(received)
    {
      HandleKeeps(Model(), SocketError);
      phase := Down;         // Qt has left the connected state
      heartbeatTimer := false;
      timeoutTimer := None;
      if reconnecting {
        if reconnectTimer.Some? {
          return;
        }
        AttemptReconnect();
      } else {
        StartReconnect();
      }
    }

    /** The lambda connected to the reconnect timer, a single shot. */
    method OnReconnectTimer()
      requires Valid() && Possible(Model(), TimerFires)
      modifies this
      ensures Valid() && Model() == OnTimerFires(old(Model()))
      ensures received == old(received)
    {
      HandleKeeps(Model(), TimerFires);
      reconnectTimer := None;
      if !reconnecting {
        return;
      }
      ConnectToHost();
      dials := dials + 1;
    }

    method StartReconnect()
      modifies this`reconnecting, this`reconnectAttempt, this`reconnectTimer, this`phase, this`buffer, this`delays, this`dials
      ensures Model() == Reconnect.StartReconnect(old(Model()))
    {
      if reconnecting {
        return;
      }
      if host == "" || port == 0 {
        return;
      }
      reconnecting := true;
      reconnectAttempt := 0;
      delays, dials := [], 0;
      AttemptReconnect();
    }

    method AttemptReconnect()
      modifies this`reconnecting, this`reconnectAttempt, this`reconnectTimer, this`phase, this`buffer, this`delays
      ensures Model() == Reconnect.AttemptReconnect(old(Model()))
      ensures reconnecting && old(reconnectAttempt) < MAX_RECONNECT_ATTEMPTS ==> buffer == []
    {
      if reconnectAttempt >= MAX_RECONNECT_ATTEMPTS {
        reconnecting := false;
        reconnectTimer := None;
        return;
      }
      reconnectAttempt := reconnectAttempt + 1;
      var delay := 1000 * Pow2(reconnectAttempt - 1);
      phase := Down; // abort
      buffer := [];
      reconnectTimer := Some(delay);
      delays := delays + [delay];
    }
  }

  /** One turn of the loop: the frame in front is shown, unless it is a heartbeat, and goes. */
  lemma OneFrameLess<J(!new)>(json: Json<J>, shown: seq<ClientFrame<J>>, buffer: seq<byte>)
    requires Decode(json, buffer).Ok?
    ensures var (f, n) := (Decode(json, buffer).frame, Decode(json, buffer).consumed);
            Then(Inbox(shown, [], false), Reassemble(json, buffer))
            == Then(Inbox(if f.frameType == PINGPONG then shown else shown + [f], [], false), Reassemble(json, buffer[n..]))
  {
    hide Decode;
    var (f, n) := (Decode(json, buffer).frame, Decode(json, buffer).consumed);
    var rest := Reassemble(json, buffer[n..]);
    assert shown + ([f] + rest.frames) == shown + [f] + rest.frames;
  }
}
