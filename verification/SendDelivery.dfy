/**
 What the sends do, not only what they keep: which steps are possible and what they lead to. A
 message to somebody who is online is pushed to him, whatever others do in between.
 */
module SendDelivery {
  import opened Wrappers
  import opened Store
  import opened Handlers
  import HandlerSafety
  import SendGuarantees
  import Messages
  import Groups

  // ----- one step at a time

  /** A login is refused to a session that is LOGGED_IN or busy, and to nobody else; it makes the session ready and registered. */
  lemma LoginExactly(st: State, s: Sid, u: int)
    ensures Next(st, Login(s, u)).Some? <==> HasUser(st.db, u) && (At(st, s) ==> s in st.closing && st.pcs[s].Idle?)
    ensures Next(st, Login(s, u)).Some? ==>
              var next := Next(st, Login(s, u)).value;
              && At(next, s) && Ready(next, s) && next.user[s] == u && next.registry == st.registry[u := s]
              && next.db == st.db && next.acks == st.acks && next.pushes == st.pushes
              && (forall t :: t != s && At(st, t) ==> At(next, t) && next.pcs[t] == st.pcs[t] && next.user[t] == st.user[t])
  {
    hide HasUser;
  }

  /** Leaving and other calls are always possible; they take the one entry away, mark the one session, or change the database only. */
  lemma OthersExactly(st: State, s: Sid, u: int, op: Op)
    ensures Next(st, Unregister(u)) == Some(st.(registry := st.registry - {u}))
    ensures Next(st, Close(s)) == Some(st.(closing := st.closing + {s}))
    ensures !op.OpSave? && !op.OpPost? ==> Next(st, Other(op)) == Some(st.(db := Apply(st.db, op)))
  {
    hide Apply;
  }

  /** A chat message is stored, acknowledged and waits to be pushed; for an unknown recipient the store refuses, and the ack says -1. */
  lemma ChatSaveExactly(st: State, s: Sid, u: int, text: string, t: int, now: int)
    requires Invariant(st) && At(st, s)
    ensures Next(st, ChatSave(s, u, text, t, now)).Some? <==> Ready(st, s) && u != 0 && text != []
    ensures Next(st, ChatSave(s, u, text, t, now)).Some? ==>
              var next := Next(st, ChatSave(s, u, text, t, now)).value;
              var id := if HasUser(st.db, u) then |st.db.messages| + 1 else -1;
              && next == st.(db := next.db, pcs := st.pcs[s := ChatSaved(u, id, text, t, HasUser(st.db, u))],
                             acks := st.acks + [ChatAck(s, st.user[s], id)])
              && (HasUser(st.db, u) ==> SavedAs(next.db, id, st.user[s], u, text, t) && |next.db.messages| == id
                                        && next.db.messages[id - 1].timestamp == now)
              && (!HasUser(st.db, u) ==> next.db == st.db)
  {
    assert HasUser(st.db, st.user[s]);
    hide HasUser;
    hide Stored;
  }

  /** The lookup is always possible, and pushes exactly if the recipient is registered then. */
  lemma ChatNotifyExactly(st: State, s: Sid)
    requires At(st, s) && st.pcs[s].ChatSaved?
    ensures var pc, next := st.pcs[s], Next(st, ChatNotify(s));
            && next.Some?
            && next.value == st.(pcs := st.pcs[s := Idle],
                                 pushes := st.pushes + if pc.recipient !in st.registry then [] else
                                   [ChatPush(s, st.registry[pc.recipient], pc.recipient, pc.id, st.user[s], pc.content, pc.msgType, pc.known)])
  {
  }

  /** Members can send, and only they. */
  lemma GroupCheckExactly(st: State, s: Sid, g: int, content: string, t: int)
    requires Invariant(st) && At(st, s)
    ensures Next(st, GroupCheck(s, g, content, t)).Some? <==> Ready(st, s) && content != [] && IsMember(st.db, g, st.user[s])
    ensures Next(st, GroupCheck(s, g, content, t)).Some? ==>
              Next(st, GroupCheck(s, g, content, t)).value == st.(pcs := st.pcs[s := GroupChecked(g, content, t)])
  {
    if IsMember(st.db, g, st.user[s]) {
      var i :| 0 <= i < |st.db.members| && st.db.members[i].group == g && st.db.members[i].user == st.user[s];
      assert Groups.MemberOk(st.db, st.db.members[i]);
    }
  }

  /** Once the test is passed the message is stored under the next number, and acknowledged. */
  lemma GroupStoreExactly(st: State, s: Sid, now: int)
    requires Invariant(st) && At(st, s) && st.pcs[s].GroupChecked?
    ensures var pc, next := st.pcs[s], Next(st, GroupStore(s, now));
            var n := |Groups.Posts(st.db.posts, pc.group)| + 1;
            && next.Some?
            && next.value == st.(db := next.value.db, pcs := st.pcs[s := GroupStored(pc.group, n, pc.content, pc.msgType)],
                                 acks := st.acks + [GroupAck(s, st.user[s], pc.group, n)])
            && PostedAs(next.value.db, pc.group, n, st.user[s], pc.content, pc.msgType)
            && |next.value.db.posts| == |st.db.posts| + 1 && next.value.db.members == st.db.members
  {
    var pc := st.pcs[s];
    assert PcOk(st, s);
    HandlerSafety.PostResult(st.db, pc.group, st.user[s], pc.content, pc.msgType, now);
    hide Invariant;
    hide PostedAs;
    hide HasUser;
    hide HasGroup;
    hide MaxNumber;
    hide Stored;
    hide Groups.Posts;
  }

  /** The list holds all members, and nobody else. */
  lemma GroupFetchExactly(st: State, s: Sid)
    requires At(st, s) && st.pcs[s].GroupStored?
    ensures var pc, next := st.pcs[s], Next(st, GroupFetch(s));
            && next.Some? && At(next.value, s) && next.value.pcs[s].Pushing?
            && var members := next.value.pcs[s].members;
               && next.value == st.(pcs := st.pcs[s := Pushing(pc.group, pc.number, pc.content, pc.msgType, members, 0)])
               && forall u :: u in members <==> IsMember(st.db, pc.group, u)
  {
    Groups.MemberIdsMeaning(st.db.members, st.pcs[s].group);
  }

  /** A step that is not one of the session's own handler. */
  predicate Foreign(l: Label, s: Sid) {
    match l
    case ChatSave(t, _, _, _, _) => t != s
    case ChatNotify(t) => t != s
    case GroupCheck(t, _, _, _) => t != s
    case GroupStore(t, _) => t != s
    case GroupFetch(t) => t != s
    case GroupNotify(t) => t != s
    case GroupDone(t) => t != s
    case _ => true
  }

  ghost predicate Waits(st: State, s: Sid, later: State) {
    && At(st, s) && At(later, s) && later.pcs[s] == st.pcs[s] && later.user[s] == st.user[s]
    && st.acks <= later.acks && st.pushes <= later.pushes
  }

  /** A busy handler is where it was, whatever others do. */
  lemma ForeignWaits(st: State, s: Sid, l: Label)
    requires At(st, s) && !st.pcs[s].Idle? && Foreign(l, s) && Next(st, l).Some?
    ensures Waits(st, s, Next(st, l).value)
  {
    hide Apply;
    hide SaveMessage;
    hide SendGroupMessage;
    hide Groups.MemberIds;
    hide HasUser;
    hide IsMember;
  }

  lemma {:induction false} OthersWait(st: State, s: Sid, others: seq<Label>)
    requires At(st, s) && !st.pcs[s].Idle? && Run(st, others).Some? && forall l :: l in others ==> Foreign(l, s)
    ensures Waits(st, s, Run(st, others).value)
    decreases |others|
  {
    hide Next;
    hide Foreign;
    if others != [] {
      ForeignWaits(st, s, others[0]);
      OthersWait(Next(st, others[0]).value, s, others[1..]);
    }
  }

  lemma {:induction false} RunThenRun(st: State, ls: seq<Label>, more: seq<Label>)
    requires Run(st, ls).Some?
    ensures Run(st, ls + more) == Run(Run(st, ls).value, more)
    decreases |ls|
  {
    hide Next;
    if ls == [] {
      assert ls + more == more;
    } else {
      assert (ls + more)[1..] == ls[1..] + more;
      RunThenRun(Next(st, ls[0]).value, ls[1..], more);
    }
  }

  lemma RunOne(st: State, l: Label)
    ensures Run(st, [l]) == Next(st, l)
  {
    hide Next;
    if Next(st, l).Some? {
      assert Run(Next(st, l).value, [l][1..]) == Some(Next(st, l).value);
    }
  }

  // ----- chat

  /**
   A chat message is delivered: whoever can send and writes to a user who is registered when the
   handler gets to the lookup, has his message stored, is given its id, and the recipient's
   session is pushed exactly that message, whatever others do between the two steps.
   */
  lemma ChatSendDelivers(st: State, s: Sid, u: int, text: string, t: int, now: int, others: seq<Label>) returns (mid: State, end: State)
    requires SendGuarantees.Reachable(st) && At(st, s) && Ready(st, s) && HasUser(st.db, u) && text != []
    requires var saved := Run(st, [ChatSave(s, u, text, t, now)]);
             saved.Some? ==> Run(saved.value, others).Some? && u in Run(saved.value, others).value.registry
    requires forall l :: l in others ==> Foreign(l, s)
    ensures Run(st, [ChatSave(s, u, text, t, now)] + others) == Some(mid) && u in mid.registry
    ensures Run(st, [ChatSave(s, u, text, t, now)] + others + [ChatNotify(s)]) == Some(end)
    ensures var id := |st.db.messages| + 1;
            && end.pushes == mid.pushes + [ChatPush(s, mid.registry[u], u, id, st.user[s], text, t, true)]
            && SavedAs(end.db, id, st.user[s], u, text, t)
            && |st.acks| < |end.acks| && end.acks[|st.acks|] == ChatAck(s, st.user[s], id)
    ensures At(end, s) && end.pcs[s].Idle?
  {
    SendGuarantees.ReachableHolds(st);
    UsersArePositive(st.db, u);
    ChatSaveExactly(st, s, u, text, t, now);
    HandlerSafety.NextKeeps(st, ChatSave(s, u, text, t, now));
    var first := [ChatSave(s, u, text, t, now)];
    var saved := Next(st, first[0]).value;
    hide Next;
    hide Invariant;
    RunOne(st, first[0]);
    OthersWait(saved, s, others);
    RunThenRun(st, first, others);
    mid := Run(saved, others).value;
    ChatNotifyExactly(mid, s);
    RunOne(mid, ChatNotify(s));
    RunThenRun(st, first + others, [ChatNotify(s)]);
    end := Next(mid, ChatNotify(s)).value;
    SendGuarantees.RunGrows(saved, others);
    HandlerSafety.RowsStay(saved.db, mid.db);
  }

  lemma UsersArePositive(db: Db, u: int)
    requires DbOk(db) && HasUser(db, u)
    ensures u != 0
  {
  }

  /** At once: to anybody who is registered, without any condition on others. */
  lemma ChatSendDeliversAtOnce(st: State, s: Sid, u: int, text: string, t: int, now: int) returns (end: State)
    requires SendGuarantees.Reachable(st) && At(st, s) && Ready(st, s) && u in st.registry && text != []
    ensures Run(st, [ChatSave(s, u, text, t, now), ChatNotify(s)]) == Some(end)
    ensures var id := |st.db.messages| + 1;
            && end.pushes == st.pushes + [ChatPush(s, st.registry[u], u, id, st.user[s], text, t, true)]
            && end.acks == st.acks + [ChatAck(s, st.user[s], id)]
            && SavedAs(end.db, id, st.user[s], u, text, t)
  {
    SendGuarantees.ReachableHolds(st);
    assert HasUser(st.db, u);
    UsersArePositive(st.db, u);
    var l := ChatSave(s, u, text, t, now);
    ChatSaveExactly(st, s, u, text, t, now);
    var saved := Next(st, l).value;
    ChatNotifyExactly(saved, s);
    hide Next;
    hide Invariant;
    end := Next(saved, ChatNotify(s)).value;
    RunOne(saved, ChatNotify(s));
    RunOne(st, l);
    RunThenRun(st, [l], [ChatNotify(s)]);
    assert [l] + [ChatNotify(s)] == [l, ChatNotify(s)];
  }

  // ----- group

  /** The push that is due to a member, if any. */
  function DueTo(st: State, s: Sid, m: int): seq<Push>
    requires At(st, s) && st.pcs[s].Pushing?
  {
    var pc := st.pcs[s];
    if m == st.user[s] || m !in st.registry then []
    else [GroupPush(s, st.registry[m], m, pc.group, pc.number, st.user[s], pc.content, pc.msgType)]
  }

  /** The pushes that are due to these members, in their order. */
  function Due(st: State, s: Sid, members: seq<int>): seq<Push>
    requires At(st, s) && st.pcs[s].Pushing?
  {
    if members == [] then [] else DueTo(st, s, members[0]) + Due(st, s, members[1..])
  }

  /** One to every member who is registered, but the sender; and no others. */
  lemma {:induction false} DueMeaning(st: State, s: Sid, members: seq<int>)
    requires At(st, s) && st.pcs[s].Pushing?
    ensures var pc := st.pcs[s];
            forall p :: p in Due(st, s, members) <==>
              && p.GroupPush? && p.recipient in members && p.recipient != st.user[s] && p.recipient in st.registry
              && p == GroupPush(s, st.registry[p.recipient], p.recipient, pc.group, pc.number, st.user[s], pc.content, pc.msgType)
  {
    if members != [] {
      DueMeaning(st, s, members[1..]);
      assert members == [members[0]] + members[1..];
    }
  }

  /** The loop always goes on to the next member, and pushes to him exactly if he is registered and not the sender. */
  lemma GroupNotifyExactly(st: State, s: Sid)
    requires At(st, s) && st.pcs[s].Pushing?
    ensures Next(st, GroupNotify(s)).Some? <==> st.pcs[s].next < |st.pcs[s].members|
    ensures Next(st, GroupDone(s)).Some? <==> st.pcs[s].next >= |st.pcs[s].members|
    ensures st.pcs[s].next >= |st.pcs[s].members| ==> Next(st, GroupDone(s)).value == st.(pcs := st.pcs[s := Idle])
    ensures var pc := st.pcs[s];
            pc.next < |pc.members| ==>
              Next(st, GroupNotify(s)).value == st.(pcs := st.pcs[s := pc.(next := pc.next + 1)],
                                                    pushes := st.pushes + DueTo(st, s, pc.members[pc.next]))
  {
  }

  /** The handler's loop, if nothing intervenes. */
  lemma {:induction false} NotifyRest(st: State, s: Sid) returns (ls: seq<Label>, end: State)
    requires At(st, s) && st.pcs[s].Pushing? && st.pcs[s].next <= |st.pcs[s].members|
    ensures Run(st, ls) == Some(end)
    ensures var pc := st.pcs[s];
            end == st.(pcs := st.pcs[s := pc.(next := |pc.members|)], pushes := st.pushes + Due(st, s, pc.members[pc.next..]))
    decreases |st.pcs[s].members| - st.pcs[s].next
  {
    var pc := st.pcs[s];
    hide Next;
    hide DueTo;
    if pc.next == |pc.members| {
      ls, end := [], st;
      assert pc.(next := |pc.members|) == pc && st.pcs[s := pc] == st.pcs && st.pushes + [] == st.pushes;
    } else {
      GroupNotifyExactly(st, s);
      var next := Next(st, GroupNotify(s)).value;
      var more;
      more, end := NotifyRest(next, s);
      hide Due;
      RestAfterOne(st, s, next, end);
      RunOne(st, GroupNotify(s));
      ls := [GroupNotify(s)] + more;
      RunThenRun(st, [GroupNotify(s)], more);
    }
  }

  lemma RestAfterOne(st: State, s: Sid, next: State, end: State)
    requires At(st, s) && st.pcs[s].Pushing? && st.pcs[s].next < |st.pcs[s].members|
    requires var pc := st.pcs[s];
             next == st.(pcs := st.pcs[s := pc.(next := pc.next + 1)], pushes := st.pushes + DueTo(st, s, pc.members[pc.next]))
    requires var pc := next.pcs[s];
             end == next.(pcs := next.pcs[s := pc.(next := |pc.members|)], pushes := next.pushes + Due(next, s, pc.members[pc.next..]))
    ensures var pc := st.pcs[s];
            end == st.(pcs := st.pcs[s := pc.(next := |pc.members|)], pushes := st.pushes + Due(st, s, pc.members[pc.next..]))
  {
    hide DueTo;
    hide Due;
    var pc := st.pcs[s];
    DueSplits(st, s, next);
    Associative(st.pushes, DueTo(st, s, pc.members[pc.next]), Due(next, s, pc.members[pc.next + 1..]));
    assert end.pcs == st.pcs[s := pc.(next := |pc.members|)];
  }

  lemma Associative(a: seq<Push>, b: seq<Push>, c: seq<Push>)
    ensures a + b + c == a + (b + c)
  {
  }

  lemma DueSplits(st: State, s: Sid, next: State)
    requires At(st, s) && st.pcs[s].Pushing? && st.pcs[s].next < |st.pcs[s].members|
    requires next == st.(pcs := st.pcs[s := st.pcs[s].(next := st.pcs[s].next + 1)], pushes := next.pushes)
    ensures var pc := st.pcs[s];
            Due(st, s, pc.members[pc.next..]) == DueTo(st, s, pc.members[pc.next]) + Due(next, s, pc.members[pc.next + 1..])
  {
    var pc := st.pcs[s];
    var rest := pc.members[pc.next..];
    assert rest[1..] == pc.members[pc.next + 1..];
    hide DueTo;
    DueSame(st, next, s, rest[1..]);
  }

  lemma {:induction false} DueSame(st: State, next: State, s: Sid, members: seq<int>)
    requires At(st, s) && st.pcs[s].Pushing?
    requires next == st.(pcs := st.pcs[s := st.pcs[s].(next := st.pcs[s].next + 1)], pushes := next.pushes)
    ensures Due(next, s, members) == Due(st, s, members)
  {
    if members != [] {
      DueSame(st, next, s, members[1..]);
    }
  }

  /** The message of a handler that has stored it, as it is pushed to a member. */
  function PushFor(st: State, s: Sid, u: int): Push
    requires At(st, s) && st.pcs[s].GroupStored? && u in st.registry
  {
    var pc := st.pcs[s];
    GroupPush(s, st.registry[u], u, pc.group, pc.number, st.user[s], pc.content, pc.msgType)
  }

  /**
   A stored group message is pushed to everybody it is for: if nothing intervenes, the rest of the
   handler pushes it to every member of the group who is online, except the sender, and to nobody
   else.
   */
  lemma GroupRoundDelivers(st: State, s: Sid) returns (ls: seq<Label>, end: State)
    requires At(st, s) && st.pcs[s].GroupStored?
    ensures Run(st, ls) == Some(end) && |ls| > 0 && ls[0] == GroupFetch(s) && ls[|ls| - 1] == GroupDone(s)
    ensures st.pushes <= end.pushes && end == st.(pcs := st.pcs[s := Idle], pushes := end.pushes)
    ensures forall u :: u in st.registry && IsMember(st.db, st.pcs[s].group, u) && u != st.user[s]
                        ==> PushFor(st, s, u) in end.pushes[|st.pushes|..]
    ensures forall p :: p in end.pushes[|st.pushes|..] ==>
              p.GroupPush? && p.recipient in st.registry && IsMember(st.db, st.pcs[s].group, p.recipient)
              && p.recipient != st.user[s] && p == PushFor(st, s, p.recipient)
  {
    GroupFetchExactly(st, s);
    var first := Next(st, GroupFetch(s)).value;
    var loop, notified := NotifyRest(first, s);
    GroupNotifyExactly(notified, s);
    end := Next(notified, GroupDone(s)).value;
    hide Next;
    RunOne(st, GroupFetch(s));
    RunOne(notified, GroupDone(s));
    RunThenRun(st, [GroupFetch(s)], loop);
    RunThenRun(st, [GroupFetch(s)] + loop, [GroupDone(s)]);
    ls := [GroupFetch(s)] + loop + [GroupDone(s)];
    var members := first.pcs[s].members;
    assert members[0..] == members;
    DueMeaning(first, s, members);
    hide IsMember;
    assert end.pushes[|st.pushes|..] == Due(first, s, members);
    assert end.pcs == st.pcs[s := Idle];
  }

  /** The whole handler: a member who can send has his message stored under the next number, acknowledged, and pushed to all who are online. */
  lemma GroupSendDelivers(st: State, s: Sid, content: string, t: int, g: int, now: int) returns (ls: seq<Label>, end: State)
    requires SendGuarantees.Reachable(st) && At(st, s) && Ready(st, s) && content != [] && IsMember(st.db, g, st.user[s])
    ensures Run(st, ls) == Some(end) && At(end, s) && end.pcs[s].Idle? && st.pushes <= end.pushes
    ensures var n := |Groups.Posts(st.db.posts, g)| + 1;
            && PostedAs(end.db, g, n, st.user[s], content, t)
            && end.acks == st.acks + [GroupAck(s, st.user[s], g, n)]
            && forall u :: u in st.registry && IsMember(st.db, g, u) && u != st.user[s] ==>
                 GroupPush(s, st.registry[u], u, g, n, st.user[s], content, t) in end.pushes[|st.pushes|..]
  {
    SendGuarantees.ReachableHolds(st);
    var check, store := GroupCheck(s, g, content, t), GroupStore(s, now);
    GroupCheckExactly(st, s, g, content, t);
    HandlerSafety.NextKeeps(st, check);
    var checked := Next(st, check).value;
    GroupStoreExactly(checked, s, now);
    hide Next;
    hide Invariant;
    hide PostedAs;
    var stored := Next(checked, store).value;
    var rest;
    rest, end := GroupRoundDelivers(stored, s);
    assert forall u :: IsMember(st.db, g, u) ==> IsMember(stored.db, g, u);
    hide IsMember;
    RunOne(st, check);
    RunOne(checked, store);
    RunThenRun(st, [check], [store]);
    RunThenRun(st, [check] + [store], rest);
    ls := [check] + [store] + rest;
  }

  // ----- group, with others in between

  /** Nothing but its own steps moves the loop of a handler, and its own steps only on. */
  lemma LoopMoves(st: State, s: Sid, l: Label)
    requires At(st, s) && st.pcs[s].Pushing? && l != GroupDone(s) && Next(st, l).Some?
    ensures var next := Next(st, l).value;
            && At(next, s) && next.user[s] == st.user[s] && st.pushes <= next.pushes
            && next.pcs[s] == (if l == GroupNotify(s) then st.pcs[s].(next := st.pcs[s].next + 1) else st.pcs[s])
  {
    if l == GroupNotify(s) {
      GroupNotifyExactly(st, s);
    } else if Foreign(l, s) {
      ForeignWaits(st, s, l);
    }
  }

  /**
   Everybody on the list has his turn: in any run in which the loop gets past the j-th member there
   is the step at which he was looked up, and if he was registered then and is not the sender, he
   has been pushed to.
   */
  lemma {:induction false} TurnComes(st: State, s: Sid, more: seq<Label>, j: nat) returns (k: nat, turn: State)
    requires At(st, s) && st.pcs[s].Pushing? && st.pcs[s].next <= j < |st.pcs[s].members|
    requires Run(st, more).Some? && GroupDone(s) !in more
    requires var end := Run(st, more).value;
             At(end, s) && end.pcs[s].Pushing? && end.pcs[s].next > j
    ensures k < |more| && more[k] == GroupNotify(s) && Run(st, more[..k]) == Some(turn)
    ensures At(turn, s) && turn.pcs[s] == st.pcs[s].(next := j) && turn.user[s] == st.user[s]
    ensures var m := st.pcs[s].members[j];
            m in turn.registry && m != st.user[s] ==> GroupPushTo(turn, s, m) in Run(st, more).value.pushes
    decreases |more|
  {
    assert more != [];
    var l := more[0];
    LoopMoves(st, s, l);
    var next := Next(st, l).value;
    if l == GroupNotify(s) && st.pcs[s].next == j {
      k, turn := 0, st;
      assert more[..0] == [];
      GroupNotifyExactly(st, s);
      var m := st.pcs[s].members[j];
      assert m in st.registry && m != st.user[s] ==> GroupPushTo(st, s, m) in next.pushes;
      hide Next;
      hide DueTo;
      LoopOnlyPushes(next, s, more[1..]);
      assert Run(st, more) == Run(next, more[1..]);
      assert forall p :: p in next.pushes ==> p in Run(next, more[1..]).value.pushes;
    } else {
      hide Next;
      k, turn := TurnComes(next, s, more[1..], j);
      k := k + 1;
      assert more[..k][1..] == more[1..][..k - 1];
    }
  }

  lemma {:induction false} LoopOnlyPushes(st: State, s: Sid, more: seq<Label>)
    requires At(st, s) && st.pcs[s].Pushing? && Run(st, more).Some? && GroupDone(s) !in more
    ensures st.pushes <= Run(st, more).value.pushes
    decreases |more|
  {
    if more != [] {
      LoopMoves(st, s, more[0]);
      hide Next;
      LoopOnlyPushes(Next(st, more[0]).value, s, more[1..]);
    }
  }

  /**
   In every run: when the handler of a stored group message is done, every user who was a member
   when the list was fetched has had his turn, and if he was registered at his turn, and is not the
   sender, he has been pushed the message.
   */
  lemma EveryMemberHasHisTurn(st: State, s: Sid, more: seq<Label>, u: int) returns (k: nat, turn: State)
    requires At(st, s) && st.pcs[s].GroupStored? && IsMember(st.db, st.pcs[s].group, u) && GroupDone(s) !in more
    requires Run(st, [GroupFetch(s)] + more + [GroupDone(s)]).Some?
    ensures k < |more| && more[k] == GroupNotify(s) && Run(st, [GroupFetch(s)] + more[..k]) == Some(turn)
    ensures u in turn.registry && u != st.user[s] ==>
              var pc := st.pcs[s];
              GroupPush(s, turn.registry[u], u, pc.group, pc.number, st.user[s], pc.content, pc.msgType)
              in Run(st, [GroupFetch(s)] + more + [GroupDone(s)]).value.pushes
  {
    GroupFetchExactly(st, s);
    var first := Next(st, GroupFetch(s)).value;
    var members := first.pcs[s].members;
    var j :| 0 <= j < |members| && members[j] == u;
    hide Next;
    RunOne(st, GroupFetch(s));
    assert [GroupFetch(s)] + more + [GroupDone(s)] == [GroupFetch(s)] + (more + [GroupDone(s)]);
    RunThenRun(st, [GroupFetch(s)], more + [GroupDone(s)]);
    SplitLast(first, more, GroupDone(s));
    var last := Run(first, more).value;
    LoopStays(first, s, more);
    GroupNotifyExactly(last, s);
    k, turn := TurnComes(first, s, more, j);
    RunThenRun(st, [GroupFetch(s)], more[..k]);
  }

  lemma {:induction false} SplitLast(st: State, ls: seq<Label>, l: Label)
    requires Run(st, ls + [l]).Some?
    ensures Run(st, ls).Some? && Run(st, ls + [l]) == Next(Run(st, ls).value, l)
    decreases |ls|
  {
    hide Next;
    if ls == [] {
      assert ls + [l] == [l];
      RunOne(st, l);
    } else {
      assert (ls + [l])[1..] == ls[1..] + [l];
      SplitLast(Next(st, ls[0]).value, ls[1..], l);
    }
  }

  lemma {:induction false} LoopStays(st: State, s: Sid, more: seq<Label>)
    requires At(st, s) && st.pcs[s].Pushing? && Run(st, more).Some? && GroupDone(s) !in more
    ensures var end := Run(st, more).value;
            At(end, s) && end.pcs[s].Pushing? && end.pcs[s].members == st.pcs[s].members
    decreases |more|
  {
    if more != [] {
      LoopMoves(st, s, more[0]);
      hide Next;
      LoopStays(Next(st, more[0]).value, s, more[1..]);
    }
  }

  // ----- who is registered twice is pushed to twice

  /**
   A session that is registered under two members is pushed the same message twice: from any
   state in which a handler has stored it, the rest of the handler, uninterrupted, does so.
   */
  lemma RegisteredTwicePushedTwice(st: State, s: Sid, u: int, v: int) returns (ls: seq<Label>, end: State, i: nat, j: nat)
    requires At(st, s) && st.pcs[s].GroupStored? && u != v && st.user[s] != u && st.user[s] != v
    requires IsMember(st.db, st.pcs[s].group, u) && IsMember(st.db, st.pcs[s].group, v)
    requires u in st.registry && v in st.registry && st.registry[u] == st.registry[v]
    ensures Run(st, ls) == Some(end) && |st.pushes| <= i < |end.pushes| && |st.pushes| <= j < |end.pushes| && i != j
    ensures end.pushes[i] == PushFor(st, s, u) && end.pushes[j] == PushFor(st, s, v)
    ensures end.pushes[i].target == end.pushes[j].target && end.pushes[i].number == end.pushes[j].number
  {
    ls, end := GroupRoundDelivers(st, s);
    var late := end.pushes[|st.pushes|..];
    var a :| 0 <= a < |late| && late[a] == PushFor(st, s, u);
    var b :| 0 <= b < |late| && late[b] == PushFor(st, s, v);
    i, j := |st.pushes| + a, |st.pushes| + b;
  }
}
