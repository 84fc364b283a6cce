/**
 The reconnect automaton of the client (wx-client/network/WeChatSocket.cpp) as a value: what each
 signal of the socket and its timers does, in any order in which they can come.
 */
module Reconnect {
  import opened Wrappers
  import opened Wire

  const MAX_RECONNECT_ATTEMPTS: nat := 5

  /** Seconds without data after which a connection counts as lost. */
  const SILENCE: nat := 90

  /** What the socket is doing; `Down` is Qt's UnconnectedState. */
  datatype Phase = Down | Dialing | Up

  /**
   `timer` is the delay of the running reconnect timer; `heartbeat` says whether the heartbeat timer
   runs, and `timeout` how many seconds the running timeout has left. History, of the current or last outage: `delays`, the waits scheduled,
   and `dials`, the automatic connection attempts made.
   */
  datatype Automaton = Automaton(
    phase: Phase, host: string, port: uint16, reconnecting: bool, attempt: nat,
    timer: Option<nat>, heartbeat: bool, timeout: Option<nat>, delays: seq<nat>, dials: nat)

  datatype Event =
    | ConnectToServer(host: string, port: uint16)
    | Connected
    | SocketError
    | ConnectionTimeout
    | TimerFires
    | ReadyRead(wellFormed: bool)
    | Tick // a second passes

  function Fresh(): Automaton {
    Automaton(Down, "", 0, false, 0, None, false, None, [], 0)
  }

  function Pow2(n: nat): nat {
    if n == 0 then 1 else 2 * Pow2(n - 1)
  }

  /** connectToHost: a socket that is in use refuses. */
  function Dial(a: Automaton): Automaton {
    if a.phase.Down? then a.(phase := Dialing) else a
  }

  function AttemptReconnect(a: Automaton): Automaton {
    if a.attempt >= MAX_RECONNECT_ATTEMPTS then a.(reconnecting := false, timer := None)
    else
      var delay := 1000 * Pow2(a.attempt);
      a.(attempt := a.attempt + 1, phase := Down, timer := Some(delay), delays := a.delays + [delay])
  }

  /** Without a host and a port there is nothing to connect to. */
  function StartReconnect(a: Automaton): Automaton {
    if a.reconnecting || a.host == "" || a.port == 0 then a
    else AttemptReconnect(a.(reconnecting := true, attempt := 0, delays := [], dials := 0))
  }

  function OnSocketError(a: Automaton): Automaton {
    var b := a.(phase := Down, heartbeat := false, timeout := None);
    if !a.reconnecting then StartReconnect(b)
    else if a.timer.Some? then b
    else AttemptReconnect(b)
  }

  function OnConnectionTimeout(a: Automaton): Automaton {
    StartReconnect(a.(phase := Down, heartbeat := false, timeout := None))
  }

  function OnConnected(a: Automaton): Automaton {
    var b := if a.reconnecting then a.(reconnecting := false, attempt := 0, timer := None) else a;
    b.(phase := Up, heartbeat := true, timeout := Some(SILENCE))
  }

  function OnTimerFires(a: Automaton): Automaton {
    var b := a.(timer := None);
    if !a.reconnecting then b else Dial(b).(dials := a.dials + 1)
  }

  /** A malformed frame aborts the connection, silently: only the timeout is left to notice. */
  function OnReadyRead(a: Automaton, wellFormed: bool): Automaton {
    a.(timeout := Some(SILENCE), phase := if wellFormed then a.phase else Down)
  }

  function OnTick(a: Automaton): Automaton {
    if a.timeout.Some? && a.timeout.value > 0 then a.(timeout := Some(a.timeout.value - 1)) else a
  }

  function OnConnectToServer(a: Automaton, host: string, port: uint16): Automaton {
    Dial(a.(host := host, port := port, attempt := 0, reconnecting := false, timer := None))
  }

  /** What Qt can deliver: timers only while they run, data only when up, errors at any time. */
  predicate Possible(a: Automaton, e: Event) {
    match e
    case Connected => a.phase.Dialing?
    case ConnectionTimeout => a.timeout == Some(0)
    case TimerFires => a.timer.Some?
    case ReadyRead(_) => a.phase.Up?
    case _ => true
  }

  function Handle(a: Automaton, e: Event): Automaton {
    match e
    case ConnectToServer(host, port) => OnConnectToServer(a, host, port)
    case Connected => OnConnected(a)
    case SocketError => OnSocketError(a)
    case ConnectionTimeout => OnConnectionTimeout(a)
    case TimerFires => OnTimerFires(a)
    case ReadyRead(wellFormed) => OnReadyRead(a, wellFormed)
    case Tick => OnTick(a)
  }

  function HandleAll(a: Automaton, es: seq<Event>): Automaton
    decreases |es|
  {
    if es == [] then a else HandleAll(Handle(a, es[0]), es[1..])
  }

  predicate AllPossible(a: Automaton, es: seq<Event>)
    decreases |es|
  {
    es == [] || (Possible(a, es[0]) && AllPossible(Handle(a, es[0]), es[1..]))
  }

  /** 1, 2, 4, ... seconds. */
  function Backoff(n: nat): (r: seq<nat>)
    ensures |r| == n && forall k :: 0 <= k < n ==> r[k] == 1000 * Pow2(k)
  {
    seq(n, k requires 0 <= k < n => 1000 * Pow2(k))
  }

  function Sum(s: seq<nat>): nat {
    if s == [] then 0 else Sum(s[..|s| - 1]) + s[|s| - 1]
  }

  // ----- what every event keeps

  /**
   While reconnecting, the client is either waiting, with the delay of its attempt, or dialing,
   and never both or neither; and an open connection is always watched by both other timers.
   */
  ghost predicate Sound(a: Automaton) {
    && a.attempt <= MAX_RECONNECT_ATTEMPTS
    && a.dials <= |a.delays| <= MAX_RECONNECT_ATTEMPTS && a.delays == Backoff(|a.delays|)
    && (a.timer.Some? ==> a.reconnecting && 1 <= a.attempt && a.timer.value == 1000 * Pow2(a.attempt - 1))
    && (a.reconnecting ==>
          && 1 <= a.attempt == |a.delays|
          && a.dials == a.attempt - (if a.timer.Some? then 1 else 0)
          && a.phase == (if a.timer.Some? then Down else Dialing)
          && !a.heartbeat && a.timeout.None? && a.host != "" && a.port != 0)
    && (a.phase.Up? ==> a.heartbeat && a.timeout.Some?)
  }

  lemma AttemptKeeps(a: Automaton)
    requires a.reconnecting && a.timer.None? && !a.heartbeat && a.timeout.None? && a.host != "" && a.port != 0 && !a.phase.Up?
    requires a.dials == a.attempt == |a.delays| <= MAX_RECONNECT_ATTEMPTS && a.delays == Backoff(|a.delays|)
    ensures Sound(AttemptReconnect(a))
  {
    hide Pow2;
    var b := AttemptReconnect(a);
    assert b.delays == Backoff(|b.delays|);
  }

  lemma HandleKeeps(a: Automaton, e: Event)
    requires Sound(a) && Possible(a, e)
    ensures Sound(Handle(a, e))
  {
    hide Pow2;
    var still := a.(phase := Down, heartbeat := false, timeout := None);
    if e.SocketError? && a.reconnecting {
      if a.timer.None? {
        AttemptKeeps(still);
      }
    } else if e.SocketError? || e.ConnectionTimeout? {
      if a.host != "" && a.port != 0 {
        AttemptKeeps(still.(reconnecting := true, attempt := 0, delays := [], dials := 0));
      }
    }
  }

  lemma {:induction false} HandleAllKeeps(a: Automaton, es: seq<Event>)
    requires Sound(a) && AllPossible(a, es)
    ensures Sound(HandleAll(a, es))
    decreases |es|
  {
    hide Handle;
    hide Sound;
    if es != [] {
      HandleKeeps(a, es[0]);
      HandleAllKeeps(Handle(a, es[0]), es[1..]);
    }
  }

  lemma {:induction false} BackoffTotal(n: nat)
    ensures Sum(Backoff(n)) == 1000 * (Pow2(n) - 1)
  {
    if n > 0 {
      BackoffTotal(n - 1);
      assert Backoff(n)[..n - 1] == Backoff(n - 1);
    }
  }

  lemma {:induction false} Pow2Grows(m: nat, n: nat)
    requires m <= n
    ensures Pow2(m) <= Pow2(n)
  {
    if m < n {
      Pow2Grows(m, n - 1);
    }
  }

  /**
   The automaton over every sequence of events: the counter stays in 0..5, a running reconnect
   timer belongs to an attempt in 1..5 and holds its delay, the k-th delay of an outage is
   1000 * 2^(k-1) ms, at most 31 seconds are scheduled and at most five connections dialed.
   */
  lemma BackoffIsBounded(es: seq<Event>)
    requires AllPossible(Fresh(), es)
    ensures var a := HandleAll(Fresh(), es);
            && a.attempt <= 5
            && (a.timer.Some? ==> a.reconnecting && 1 <= a.attempt && a.timer.value == 1000 * Pow2(a.attempt - 1))
            && (a.reconnecting ==> |a.delays| == a.attempt && (a.timer.Some? <==> a.phase.Down?) && !a.phase.Up?)
            && |a.delays| <= 5 && (forall k :: 0 <= k < |a.delays| ==> a.delays[k] == 1000 * Pow2(k))
            && Sum(a.delays) <= 31000 && a.dials <= |a.delays|
  {
    HandleAllKeeps(Fresh(), es);
    var a := HandleAll(Fresh(), es);
    BackoffTotal(|a.delays|);
    Pow2Grows(|a.delays|, 5);
    assert Pow2(5) == 32;
  }

  // ----- an outage

  predicate Failure(e: Event) {
    e.SocketError? || e.TimerFires? || e.Tick?
  }

  /** An error while the client is waiting is ignored, and so is time; every other failure counts. */
  predicate Counts(a: Automaton, e: Event) {
    e.TimerFires? || (e.SocketError? && a.timer.None?)
  }

  /** The failures of one outage: possible, and each but the last leaves the client reconnecting. */
  predicate Outage(a: Automaton, es: seq<Event>)
    decreases |es|
  {
    es == [] || (a.reconnecting && Failure(es[0]) && Possible(a, es[0]) && Outage(Handle(a, es[0]), es[1..]))
  }

  function Counted(a: Automaton, es: seq<Event>): nat
    decreases |es|
  {
    if es == [] then 0 else (if Counts(a, es[0]) then 1 else 0) + Counted(Handle(a, es[0]), es[1..])
  }

  /** How many more failures it takes until the client gives up. */
  function Rank(a: Automaton): int {
    if !a.reconnecting then 0
    else 2 * (MAX_RECONNECT_ATTEMPTS - a.attempt) + (if a.timer.Some? then 2 else 1)
  }

  /** Each failure that counts brings giving up one step nearer; an ignored one changes nothing. */
  lemma FailureCounts(a: Automaton, e: Event)
    requires Sound(a) && a.reconnecting && Failure(e) && Possible(a, e)
    ensures Rank(Handle(a, e)) == Rank(a) - (if Counts(a, e) then 1 else 0)
    ensures !Counts(a, e) ==> Handle(a, e) == a
    ensures Handle(a, e).reconnecting ==> Rank(Handle(a, e)) > 0
    ensures !Handle(a, e).reconnecting ==>
              Handle(a, e).delays == Backoff(5) && Handle(a, e).dials == 5 && Quiet(Handle(a, e))
  {
    hide Pow2;
    hide Backoff;
  }

  /** Nothing is going on and nothing is pending. */
  predicate Quiet(a: Automaton) {
    !a.reconnecting && a.timer.None? && a.phase.Down? && !a.heartbeat && a.timeout.None?
  }

  /**
   However long an outage lasts and however many errors come in, the client gives up exactly when
   as many failures have counted as the rank says: ten after the first loss of the connection.
   By then it has waited 1, 2, 4, 8 and 16 seconds and dialed five times.
   */
  lemma {:induction false} OutageEnds(a: Automaton, es: seq<Event>)
    requires Sound(a) && a.reconnecting && Outage(a, es)
    ensures var b := HandleAll(a, es);
            && Rank(b) + Counted(a, es) == Rank(a)
            && (b.reconnecting <==> Counted(a, es) < Rank(a))
            && (!b.reconnecting ==> b.delays == Backoff(5) && b.dials == 5 && Quiet(b))
    decreases |es|
  {
    hide Handle;
    hide Sound;
    hide Backoff;
    if es == [] {
      RankPositive(a);
    } else {
      var b := Handle(a, es[0]);
      FailureCounts(a, es[0]);
      HandleKeeps(a, es[0]);
      if b.reconnecting {
        OutageEnds(b, es[1..]);
      } else {
        assert es[1..] == [];
      }
    }
  }

  lemma RankPositive(a: Automaton)
    requires Sound(a) && a.reconnecting
    ensures Rank(a) > 0
  {
  }

  /** Every outage starts afresh, whatever was left of the one before. */
  lemma OutageStarts(a: Automaton, e: Event)
    requires Sound(a) && Possible(a, e) && (e.SocketError? || e.ConnectionTimeout?)
    requires !a.reconnecting && a.host != "" && a.port != 0
    ensures var b := Handle(a, e);
            b.reconnecting && b.attempt == 1 && b.timer == Some(1000) && b.delays == [1000] && b.dials == 0 && Rank(b) == 10
  {
    assert Pow2(0) == 1;
  }

  /**
   Only a loss of the connection makes the client dial by itself: without an error or a timeout
   no timer fires and nothing is dialed, and once the client has given up nothing but time passes
   before the next error or call of `connectToServer`.
   */
  lemma {:induction false} NoDialWithoutOutage(a: Automaton, es: seq<Event>)
    requires Sound(a) && a.timer.None? && AllPossible(a, es)
    requires forall e :: e in es ==> !e.SocketError? && !e.ConnectionTimeout?
    ensures HandleAll(a, es).timer.None? && HandleAll(a, es).dials == a.dials && HandleAll(a, es).delays == a.delays
    ensures forall e :: e in es ==> !e.TimerFires?
    ensures Quiet(a) && (forall e :: e in es ==> !e.ConnectToServer?) ==> HandleAll(a, es) == a && forall e :: e in es ==> e.Tick?
    decreases |es|
  {
    if es != [] {
      var b := Handle(a, es[0]);
      HandleKeeps(a, es[0]);
      assert b.timer.None? && b.dials == a.dials && b.delays == a.delays && !es[0].TimerFires?;
      hide Handle;
      hide Sound;
      NoDialWithoutOutage(b, es[1..]);
    }
  }

  // ----- connecting

  /** Connecting dials: a socket that is down starts to connect to the new target, and can be connected. */
  lemma ConnectDials(a: Automaton, host: string, port: uint16)
    requires Sound(a) && a.phase.Down?
    ensures AllPossible(a, [ConnectToServer(host, port)])
    ensures var b := HandleAll(a, [ConnectToServer(host, port)]);
            && b.phase == Dialing && b.host == host && b.port == port && Possible(b, Connected)
            && !b.reconnecting && b.timer == None && b.attempt == 0 && b.dials == a.dials
  {
    HandleOne(a, ConnectToServer(host, port));
  }

  lemma HandleOne(a: Automaton, e: Event)
    ensures HandleAll(a, [e]) == Handle(a, e) && (AllPossible(a, [e]) <==> Possible(a, e))
  {
    assert HandleAll(Handle(a, e), [e][1..]) == Handle(a, e);
    hide Handle;
  }

  lemma HandleTwo(a: Automaton, d: Event, e: Event)
    ensures HandleAll(a, [d, e]) == Handle(Handle(a, d), e)
    ensures AllPossible(a, [d, e]) <==> Possible(a, d) && Possible(Handle(a, d), e)
  {
    assert [d, e][1..] == [e];
    HandleOne(Handle(a, d), e);
    hide Handle;
  }

  /** A connection that succeeds leaves the client up, with no outage, and watched by both other timers. */
  lemma ConnectedIsUp(a: Automaton)
    requires Sound(a) && Possible(a, Connected)
    ensures var b := Handle(a, Connected);
            b.phase == Up && !b.reconnecting && b.timer == None && b.heartbeat && b.timeout == Some(90)
            && b.host == a.host && b.port == a.port && (a.reconnecting ==> b.attempt == 0)
  {
  }

  /** Connecting, and then losing the connection, starts an outage towards the target that was given. */
  lemma ConnectThenLose(a: Automaton, host: string, port: uint16)
    requires Sound(a) && a.phase.Down?
    ensures AllPossible(a, [ConnectToServer(host, port), Connected])
    ensures var up := HandleAll(a, [ConnectToServer(host, port), Connected]);
            && Sound(up) && up.phase == Up && !up.reconnecting && up.heartbeat && up.timeout == Some(90)
            && up.host == host && up.port == port && Possible(up, SocketError)
            && var lost := Handle(up, SocketError);
               lost.phase == Down && !lost.heartbeat && lost.timeout == None && lost.host == host && lost.port == port
               && (host != "" && port != 0 ==> lost.reconnecting && lost.attempt == 1 && lost.timer == Some(1000))
               && (host == "" || port == 0 ==> Quiet(lost))
  {
    var connect := ConnectToServer(host, port);
    HandleTwo(a, connect, Connected);
    ConnectDials(a, host, port);
    HandleOne(a, connect);
    HandleKeeps(a, connect);
    HandleKeeps(Handle(a, connect), Connected);
    assert Pow2(0) == 1;
  }

  /** The wait over, the client dials its target, and a success ends the outage. */
  lemma WaitThenDial(a: Automaton)
    requires Sound(a) && a.timer.Some?
    ensures AllPossible(a, [TimerFires, Connected])
    ensures var dialing := Handle(a, TimerFires);
            dialing.phase == Dialing && dialing.dials == a.dials + 1 && dialing.host == a.host && dialing.port == a.port
    ensures var up := HandleAll(a, [TimerFires, Connected]);
            up.phase == Up && !up.reconnecting && up.attempt == 0 && up.timer == None && up.heartbeat && up.timeout == Some(90)
  {
    HandleTwo(a, TimerFires, Connected);
  }

  // ----- silence

  function Ticks(n: nat): (r: seq<Event>)
    ensures |r| == n && forall e :: e in r ==> e == Tick
  {
    if n == 0 then [] else [Tick] + Ticks(n - 1)
  }

  lemma {:induction false} TicksPass(a: Automaton, n: nat)
    requires a.timeout.Some?
    ensures AllPossible(a, Ticks(n))
    ensures HandleAll(a, Ticks(n)) == a.(timeout := Some(if n < a.timeout.value then a.timeout.value - n else 0))
    decreases n
  {
    if n > 0 {
      assert Ticks(n)[1..] == Ticks(n - 1);
      TicksPass(Handle(a, Tick), n - 1);
    }
  }

  /**
   Data keeps a connection up for ninety seconds: after it, the timeout can be signalled exactly from
   the ninetieth second of silence on, and then starts the outage. A malformed frame ends the
   connection without any error signal, so this timeout is all that brings the client back.
   */
  lemma NinetySeconds(a: Automaton, wellFormed: bool, n: nat)
    requires Sound(a) && a.phase.Up?
    ensures var b := Handle(a, ReadyRead(wellFormed));
            var c := HandleAll(b, Ticks(n));
            && AllPossible(b, Ticks(n))
            && c.phase == (if wellFormed then Up else Down) && c.heartbeat && !c.reconnecting && c.dials == a.dials
            && (Possible(c, ConnectionTimeout) <==> n >= 90)
            && (a.host != "" && a.port != 0 ==>
                  var lost := Handle(c, ConnectionTimeout);
                  lost.reconnecting && lost.phase == Down && lost.timer == Some(1000) && !lost.heartbeat && lost.timeout == None)
  {
    TicksPass(Handle(a, ReadyRead(wellFormed)), n);
    assert Pow2(0) == 1;
    hide HandleAll;
    hide AllPossible;
    hide Ticks;
  }
}
