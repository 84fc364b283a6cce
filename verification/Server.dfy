/** The server object (wx-server/src/server.cpp): each method is one critical section. */
module ServerObject {
  import opened Wrappers
  import opened Registry
  import opened ServerProtocol
  import opened SessionObject

  class Server {
    var sessions: map<int, Session>
    var allSessions: seq<Session>
    var connectionCount: int

    constructor ()
      ensures sessions == map[] && allSessions == [] && connectionCount == 0
    {
      sessions, allSessions, connectionCount := map[], [], 0;
    }

    method RegisterSession(uid: int, s: Session)
      modifies this`sessions
      ensures sessions == old(sessions)[uid := s]
    {
      sessions := sessions[uid := s];
    }

    /** Only an entry that is this very session goes: a newer login of the same user stays. */
    method UnregisterSession(s: Session)
      modifies this`sessions
      ensures sessions == Unregistered(old(sessions), s.userId, s)
      ensures forall u :: u in old(sessions) && old(sessions)[u] != s ==> u in sessions && sessions[u] == old(sessions)[u]
    {
      if s.userId in sessions && sessions[s.userId] == s {
        sessions := map u | u in sessions && u != s.userId :: sessions[u];
        assert sessions == old(sessions) - {s.userId};
      }
    }

    method FindSession(uid: int) returns (r: Option<Session>)
      ensures r.Some? <==> uid in sessions
      ensures r.Some? ==> r.value == sessions[uid]
    {
      if uid in sessions {
        return Some(sessions[uid]);
      }
      return None;
    }

    /** The old entry goes first, and its socket is closed after the critical section. */
    method KickExisting(uid: int)
      modifies this`sessions
      modifies (if uid in sessions then {sessions[uid]} else {})`open
      ensures sessions == old(sessions) - {uid}
      ensures uid in old(sessions) ==> !old(sessions[uid]).open
    {
      var found := FindSession(uid);
      if found.Some? {
        sessions := sessions - {uid};
        found.value.CloseSocket();
      }
    }

    method AddSession(s: Session)
      modifies this`allSessions
      ensures allSessions == old(allSessions) + [s]
    {
      allSessions := allSessions + [s];
    }

    /**
     Every occurrence of the session goes and nothing else, in order. The counter goes down once per
     call; so if the session was listed once, counter and list go down together.
     */
    method RemoveSession(s: Session)
      modifies this`allSessions, this`connectionCount
      ensures forall t :: t in allSessions <==> t in old(allSessions) && t != s
      ensures allSessions == Without(old(allSessions), s) && connectionCount == old(connectionCount) - 1
      ensures NoDuplicates(old(allSessions)) && s in old(allSessions) ==>
                NoDuplicates(allSessions) && connectionCount - |allSessions| == old(connectionCount - |allSessions|)
    {
      var kept := Erase(allSessions, s);
      WithoutKeepsOthers(allSessions, s);
      if NoDuplicates(allSessions) && s in allSessions {
        WithoutOne(allSessions, s);
      }
      hide Without;
      hide NoDuplicates;
      allSessions := kept;
      connectionCount := connectionCount - 1;
    }

    method GetSession(s: Session) returns (r: Option<Session>)
      ensures r == if s in allSessions then Some(s) else None
    {
      for i := 0 to |allSessions|
        invariant s !in allSessions[..i]
      {
        if allSessions[i] == s {
          return Some(s);
        }
      }
      return None;
    }

    /** One accepted descriptor: rejected at the limit, otherwise listed and then counted. */
    method Admit(host: ByteOrder, socket: Socket) returns (r: Option<Session>)
      modifies this`allSessions, this`connectionCount
      ensures r.None? <==> old(connectionCount) >= 256
      ensures r.None? ==> allSessions == old(allSessions) && connectionCount == old(connectionCount)
      ensures r.Some? ==> fresh(r.value) && r.value.socket == socket && r.value.state == CONNECTED
                          && allSessions == old(allSessions) + [r.value] && connectionCount == old(connectionCount) + 1
    {
      if connectionCount >= MAX_CONNECTIONS {
        return None;
      }
      var s := new Session(host, socket);
      AddSession(s);
      connectionCount := connectionCount + 1;
      return Some(s);
    }
  }

  /** `remove_if` and `erase`. */
  method Erase(all: seq<Session>, s: Session) returns (kept: seq<Session>)
    ensures kept == Without(all, s)
  {
    kept := [];
    assert all[0..] == all && [] + Without(all, s) == Without(all, s) && Without(all[|all|..], s) == [];
    hide Without;
    for i := 0 to |all|
      invariant kept + Without(all[i..], s) == Without(all, s)
    {
      WithoutStep(all, s, i, kept);
      if all[i] != s {
        kept := kept + [all[i]];
      }
    }
    assert kept + [] == kept;
  }
}
