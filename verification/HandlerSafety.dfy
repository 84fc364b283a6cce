/** What the sends guarantee in every reachable state of `Handlers`. */
module HandlerSafety {
  import opened Store
  import opened Handlers
  import Cursor
  import Messages
  import Groups

  // ----- growth of the database keeps everything that refers to it

  lemma RowsStay(db: Db, later: Db)
    requires Grows(db, later)
    ensures forall id, sender, recipient, content, msgType ::
              SavedAs(db, id, sender, recipient, content, msgType) ==> SavedAs(later, id, sender, recipient, content, msgType)
    ensures forall g, number, sender, content, msgType ::
              PostedAs(db, g, number, sender, content, msgType) ==> PostedAs(later, g, number, sender, content, msgType)
    ensures forall g, number, sender :: NumberUsed(db, g, number, sender) ==> NumberUsed(later, g, number, sender)
  {
    forall g, number, sender, content, msgType | PostedAs(db, g, number, sender, content, msgType)
      ensures PostedAs(later, g, number, sender, content, msgType) {
      var i :| 0 <= i < |db.posts| && IsPost(db.posts[i], g, number, sender, content, msgType);
      assert later.posts[i] == db.posts[i];
    }
    forall g, number, sender | NumberUsed(db, g, number, sender) ensures NumberUsed(later, g, number, sender) {
      var i :| 0 <= i < |db.posts| && db.posts[i].group == g && db.posts[i].number == number && db.posts[i].sender == sender;
      assert later.posts[i] == db.posts[i];
    }
  }

  lemma MembersStay(db: Db, later: Db)
    requires Grows(db, later)
    ensures forall u :: HasUser(db, u) ==> HasUser(later, u)
    ensures forall g, u :: IsMember(db, g, u) ==> IsMember(later, g, u)
  {
    forall u | HasUser(db, u) ensures HasUser(later, u) {
      GrowsKeeps(db, later, u, 0);
    }
    forall g, u | IsMember(db, g, u) ensures IsMember(later, g, u) {
      GrowsKeeps(db, later, u, g);
    }
  }

  lemma GrowthKeeps(st: State, later: Db)
    requires Invariant(st) && Grows(st.db, later) && DbOk(later)
    ensures Invariant(st.(db := later))
  {
    RowsStay(st.db, later);
    MembersStay(st.db, later);
    hide Grows;
    hide DbOk;
    hide SavedAs;
    hide PostedAs;
    hide NumberUsed;
    hide HasUser;
    hide IsMember;
    hide Before;
    hide InOrder;
    hide SameNumber;
    var next := st.(db := later);
    forall s | At(next, s) ensures PcOk(next, s) {
      assert PcOk(st, s);
    }
    forall a | a in next.acks ensures AckOk(next, a) {
      assert AckOk(st, a);
    }
    forall p | p in next.pushes ensures PushOk(next, p) {
      assert PushOk(st, p);
    }
  }

  // ----- the parts a step is made of

  lemma SetPc(st: State, s: Sid, pc: Pc)
    requires Invariant(st) && At(st, s)
    requires PcOk(WithPc(st, s, pc), s)
    requires forall p :: p in st.pushes ==> Before(p, s, pc)
    ensures Invariant(WithPc(st, s, pc))
  {
    hide DbOk;
    hide SavedAs;
    hide PostedAs;
    hide NumberUsed;
    hide HasUser;
    hide IsMember;
    hide Before;
    hide InOrder;
    hide SameNumber;
    var next := WithPc(st, s, pc);
    forall t | At(next, t) ensures PcOk(next, t) {
      if t != s {
        assert PcOk(st, t);
      }
    }
    forall a | a in next.acks ensures AckOk(next, a) {
      assert AckOk(st, a);
    }
    forall p | p in next.pushes ensures PushOk(next, p) {
      assert PushOk(st, p);
    }
  }

  lemma AddAck(st: State, a: Ack)
    requires Invariant(st) && AckOk(st, a)
    requires forall b :: b in st.acks ==> !SameNumber(b, a)
    ensures Invariant(st.(acks := st.acks + [a]))
  {
    hide DbOk;
    hide SavedAs;
    hide PostedAs;
    hide NumberUsed;
    hide HasUser;
    hide IsMember;
    hide Before;
    hide InOrder;
    hide SameNumber;
    var next := st.(acks := st.acks + [a]);
    assert forall b :: b in st.acks ==> b in next.acks;
    forall t | At(next, t) ensures PcOk(next, t) {
      assert PcOk(st, t);
    }
    forall b | b in next.acks ensures AckOk(next, b) {
      assert AckOk(st, b);
    }
    forall p | p in next.pushes ensures PushOk(next, p) {
      assert PushOk(st, p);
    }
    assert forall i :: 0 <= i < |st.acks| ==> st.acks[i] in st.acks;
  }

  lemma AddPush(st: State, p: Push)
    requires Invariant(st) && PushOk(st, p)
    requires forall q :: q in st.pushes ==> InOrder(q, p)
    requires forall t :: At(st, t) ==> Before(p, t, st.pcs[t])
    ensures Invariant(st.(pushes := st.pushes + [p]))
  {
    hide DbOk;
    hide SavedAs;
    hide PostedAs;
    hide NumberUsed;
    hide HasUser;
    hide IsMember;
    hide Before;
    hide InOrder;
    hide SameNumber;
    var next := st.(pushes := st.pushes + [p]);
    forall t | At(next, t) ensures PcOk(next, t) {
      assert PcOk(st, t);
    }
    forall b | b in next.acks ensures AckOk(next, b) {
      assert AckOk(st, b);
    }
    forall q | q in next.pushes ensures PushOk(next, q) {
      assert PushOk(st, q);
    }
    assert forall i :: 0 <= i < |st.pushes| ==> st.pushes[i] in st.pushes;
  }

  // ----- the steps

  lemma LoginKeeps(st: State, s: Sid, u: int)
    requires Invariant(st) && Next(st, Login(s, u)).Some?
    ensures Invariant(Next(st, Login(s, u)).value)
  {
    hide DbOk;
    hide SavedAs;
    hide PostedAs;
    hide NumberUsed;
    hide HasUser;
    hide IsMember;
    hide InOrder;
    hide SameNumber;
    var next := Next(st, Login(s, u)).value;
    forall t | At(next, t) ensures PcOk(next, t) {
      if t != s {
        assert PcOk(st, t);
      }
    }
    forall a | a in next.acks ensures AckOk(next, a) {
      assert AckOk(st, a);
    }
    forall p | p in next.pushes ensures PushOk(next, p) {
      assert PushOk(st, p);
    }
    forall p, t | p in next.pushes && At(next, t) ensures Before(p, t, next.pcs[t]) {
      assert t != s ==> Before(p, t, st.pcs[t]);
    }
  }

  lemma RegistryKeeps(st: State, closing: set<Sid>, registry: map<int, Sid>)
    requires Invariant(st) && forall u :: u in registry ==> u in st.registry && registry[u] == st.registry[u]
    ensures Invariant(st.(closing := closing, registry := registry))
  {
    hide DbOk;
    hide Before;
    hide SavedAs;
    hide PostedAs;
    hide NumberUsed;
    hide HasUser;
    hide IsMember;
    hide InOrder;
    hide SameNumber;
    var next := st.(closing := closing, registry := registry);
    forall t | At(next, t) ensures PcOk(next, t) {
      assert PcOk(st, t);
    }
    forall a | a in next.acks ensures AckOk(next, a) {
      assert AckOk(st, a);
    }
    forall p | p in next.pushes ensures PushOk(next, p) {
      assert PushOk(st, p);
    }
  }

  /** Any database call leaves the tables in order, given that new group messages are by members. */
  lemma ApplyKeepsDb(db: Db, op: Op)
    requires DbOk(db) && (op.OpPost? ==> IsMember(db, op.group, op.sender))
    ensures DbOk(Apply(db, op)) && Grows(db, Apply(db, op))
  {
    Messages.ApplyKeepsMessages(db, op);
    Groups.ApplyKeepsGroups(db, op);
    ApplyGrows(db, op);
    var later := Apply(db, op);
    MembersStay(db, later);
    assert forall p :: p in later.posts ==> p in db.posts || (op.OpPost? && p.group == op.group && p.sender == op.sender) by {
      hide Stored;
      hide MaxNumber;
    }
    hide Apply;
  }

  lemma OtherKeeps(st: State, op: Op)
    requires Invariant(st) && Next(st, Other(op)).Some?
    ensures Invariant(Next(st, Other(op)).value)
  {
    ApplyKeepsDb(st.db, op);
    GrowthKeeps(st, Apply(st.db, op));
  }

  lemma SaveResult(db: Db, sender: int, recipient: int, content: string, msgType: int, now: int)
    requires DbOk(db) && HasUser(db, sender)
    ensures var done := SaveMessage(db, sender, recipient, content, msgType, now);
            && (HasUser(db, recipient) <==> done.result != -1)
            && (HasUser(db, recipient) ==> SavedAs(done.db, done.result, sender, recipient, content, msgType))
  {
    hide HasUser;
  }

  /** The second half of the step: the acknowledgement is sent. */
  lemma SaveAcked(st: State, s: Sid, pc: Pc)
    requires Invariant(st) && At(st, s) && pc.ChatSaved?
    requires pc.known <==> pc.id != -1
    requires pc.known ==> SavedAs(st.db, pc.id, st.user[s], pc.recipient, pc.content, pc.msgType)
    ensures Invariant(WithPc(st, s, pc).(acks := st.acks + [ChatAck(s, st.user[s], pc.id)]))
  {
    var ack := ChatAck(s, st.user[s], pc.id);
    assert Entry(s, st.user[s]) in st.logins;
    hide Invariant;
    hide SavedAs;
    AddAck(st, ack);
    SetPc(st.(acks := st.acks + [ack]), s, pc);
  }

  lemma ChatSaveKeeps(st: State, l: Label)
    requires l.ChatSave? && Invariant(st) && Next(st, l).Some?
    ensures Invariant(Next(st, l).value)
  {
    var sender := st.user[l.s];
    var op := OpSave(sender, l.recipient, l.content, l.msgType, l.now);
    var done := SaveMessage(st.db, sender, l.recipient, l.content, l.msgType, l.now);
    assert HasUser(st.db, sender);
    assert Apply(st.db, op) == done.db;
    hide Apply;
    hide SaveMessage;
    ApplyKeepsDb(st.db, op);
    GrowthKeeps(st, done.db);
    SaveResult(st.db, sender, l.recipient, l.content, l.msgType, l.now);
    hide Invariant;
    hide Grows;
    hide DbOk;
    hide SavedAs;
    hide HasUser;
    SaveAcked(st.(db := done.db), l.s,
              ChatSaved(l.recipient, done.result, l.content, l.msgType, HasUser(st.db, l.recipient)));
  }

  lemma ChatNotifyKeeps(st: State, s: Sid)
    requires Invariant(st) && Next(st, ChatNotify(s)).Some?
    ensures Invariant(Next(st, ChatNotify(s)).value)
  {
    var pc := st.pcs[s];
    assert PcOk(st, s);
    SetPc(st, s, Idle);
    if pc.recipient in st.registry {
      AddPush(WithPc(st, s, Idle), ChatPushTo(st, s, st.registry[pc.recipient]));
    }
  }

  lemma GroupCheckKeeps(st: State, l: Label)
    requires l.GroupCheck? && Invariant(st) && Next(st, l).Some?
    ensures Invariant(Next(st, l).value)
  {
    SetPc(st, l.s, GroupChecked(l.group, l.content, l.msgType));
  }

  /** The numbers in use in a group are at most the number of its messages. */
  lemma NumberBound(db: Db, g: int, number: int, sender: int)
    requires Groups.GroupsOk(db) && NumberUsed(db, g, number, sender)
    ensures number <= |Groups.Posts(db.posts, g)|
  {
    var i :| 0 <= i < |db.posts| && db.posts[i].group == g && db.posts[i].number == number && db.posts[i].sender == sender;
    assert Groups.PostOk(db, i);
    var early, late := db.posts[..i + 1], db.posts[i + 1..];
    assert db.posts == early + late && early[..i] == db.posts[..i] && early[i] == db.posts[i];
    Cursor.FilterAppend(early, late, Groups.OfGroup(g));
  }

  /** A member can post: the foreign keys hold, so the store cannot fail, and the number is new. */
  lemma PostResult(db: Db, g: int, sender: int, content: string, msgType: int, now: int)
    requires DbOk(db) && IsMember(db, g, sender)
    ensures var done := SendGroupMessage(db, g, sender, content, msgType, now);
            && done.result == |Groups.Posts(db.posts, g)| + 1
            && PostedAs(done.db, g, done.result, sender, content, msgType)
            && NumberUsed(done.db, g, done.result, sender)
  {
    var i :| 0 <= i < |db.members| && db.members[i].group == g && db.members[i].user == sender;
    assert Groups.MemberOk(db, db.members[i]);
    Groups.KnownGroup(db, g);
    Groups.PostKeepsGroups(db, g, sender, content, msgType, now);
    hide MaxNumber;
    hide Stored;
    var done := SendGroupMessage(db, g, sender, content, msgType, now);
    assert IsPost(done.db.posts[|db.posts|], g, done.result, sender, content, msgType);
  }

  lemma UsedNumbersAreOld(st: State, g: int)
    requires Invariant(st)
    ensures forall a :: a in st.acks && a.GroupAck? && a.group == g ==> a.number <= |Groups.Posts(st.db.posts, g)|
    ensures forall p :: p in st.pushes && p.GroupPush? && p.group == g ==> p.number <= |Groups.Posts(st.db.posts, g)|
  {
    forall a | a in st.acks && a.GroupAck? && a.group == g ensures a.number <= |Groups.Posts(st.db.posts, g)| {
      assert AckOk(st, a);
      NumberBound(st.db, g, a.number, a.sender);
    }
    forall p | p in st.pushes && p.GroupPush? && p.group == g ensures p.number <= |Groups.Posts(st.db.posts, g)| {
      assert PushOk(st, p);
    }
  }

  /** The second half of the step: the row is there, the ack is sent. */
  lemma StoreAcked(st: State, s: Sid, g: int, number: int, content: string, msgType: int)
    requires Invariant(st) && At(st, s)
    requires PostedAs(st.db, g, number, st.user[s], content, msgType) && NumberUsed(st.db, g, number, st.user[s])
    requires forall a :: a in st.acks && a.GroupAck? && a.group == g ==> a.number < number
    requires forall p :: p in st.pushes && p.GroupPush? && p.group == g ==> p.number < number
    ensures Invariant(WithPc(st, s, GroupStored(g, number, content, msgType)).(acks := st.acks + [GroupAck(s, st.user[s], g, number)]))
  {
    var ack := GroupAck(s, st.user[s], g, number);
    assert Entry(s, st.user[s]) in st.logins;
    hide Invariant;
    hide PostedAs;
    hide NumberUsed;
    AddAck(st, ack);
    var acked := st.(acks := st.acks + [ack]);
    SetPc(acked, s, GroupStored(g, number, content, msgType));
  }

  lemma GroupStoreKeeps(st: State, s: Sid, now: int)
    requires Invariant(st) && Next(st, GroupStore(s, now)).Some?
    ensures Invariant(Next(st, GroupStore(s, now)).value)
  {
    var pc := st.pcs[s];
    assert PcOk(st, s);
    var op := OpPost(pc.group, st.user[s], pc.content, pc.msgType, now);
    var done := SendGroupMessage(st.db, pc.group, st.user[s], pc.content, pc.msgType, now);
    assert Apply(st.db, op) == done.db;
    hide Apply;
    hide SendGroupMessage;
    UsedNumbersAreOld(st, pc.group);
    ApplyKeepsDb(st.db, op);
    GrowthKeeps(st, done.db);
    PostResult(st.db, pc.group, st.user[s], pc.content, pc.msgType, now);
    hide Invariant;
    hide Grows;
    hide DbOk;
    hide PostedAs;
    hide NumberUsed;
    hide IsMember;
    hide Groups.Posts;
    StoreAcked(st.(db := done.db), s, pc.group, done.result, pc.content, pc.msgType);
  }

  lemma GroupFetchKeeps(st: State, s: Sid)
    requires Invariant(st) && Next(st, GroupFetch(s)).Some?
    ensures Invariant(Next(st, GroupFetch(s)).value)
  {
    var pc := st.pcs[s];
    assert PcOk(st, s);
    Groups.MemberIdsMeaning(st.db.members, pc.group);
    Groups.MemberIdsDistinct(st.db.members, pc.group);
    var members := Groups.MemberIds(st.db.members, pc.group);
    assert forall m :: m in members ==> IsMember(st.db, pc.group, m);
    hide PostedAs;
    hide Groups.MemberIds;
    SetPc(st, s, Pushing(pc.group, pc.number, pc.content, pc.msgType, members, 0));
  }

  /** The handler moves on to the next member of its list. */
  lemma AdvanceKeeps(st: State, s: Sid)
    requires Invariant(st) && At(st, s) && st.pcs[s].Pushing? && st.pcs[s].next < |st.pcs[s].members|
    ensures Invariant(WithPc(st, s, st.pcs[s].(next := st.pcs[s].next + 1)))
  {
    var pc := st.pcs[s];
    assert PcOk(st, s);
    forall p | p in st.pushes ensures Before(p, s, pc.(next := pc.next + 1)) {
      assert Before(p, s, pc);
      assert forall m :: m in pc.members[..pc.next] ==> m in pc.members[..pc.next + 1];
    }
    hide PostedAs;
    hide Before;
    SetPc(st, s, pc.(next := pc.next + 1));
  }

  /** Earlier pushes on the way to the next member carry smaller numbers. */
  lemma EarlierIsSmaller(st: State, s: Sid, q: Push)
    requires Invariant(st) && At(st, s) && st.pcs[s].Pushing? && st.pcs[s].next < |st.pcs[s].members|
    requires q in st.pushes && q.GroupPush? && q.origin == s && q.group == st.pcs[s].group
    requires q.recipient == st.pcs[s].members[st.pcs[s].next]
    ensures q.number < st.pcs[s].number
  {
    var pc := st.pcs[s];
    assert PcOk(st, s);
    assert Before(q, s, pc);
    assert forall i :: 0 <= i < pc.next ==> pc.members[i] != pc.members[pc.next];
  }

  /** The member whose turn it is. */
  function NextMember(st: State, s: Sid): int
    requires At(st, s) && st.pcs[s].Pushing? && st.pcs[s].next < |st.pcs[s].members|
  {
    st.pcs[s].members[st.pcs[s].next]
  }

  lemma PushToIsOk(st: State, s: Sid)
    requires Invariant(st) && At(st, s) && st.pcs[s].Pushing? && st.pcs[s].next < |st.pcs[s].members|
    requires NextMember(st, s) in st.registry && NextMember(st, s) != st.user[s]
    ensures var pc, push := st.pcs[s].(next := st.pcs[s].next + 1), GroupPushTo(st, s, NextMember(st, s));
            PushOk(WithPc(st, s, pc), push) && Before(push, s, pc)
  {
    var pc := st.pcs[s];
    assert PcOk(st, s);
    assert Entry(s, st.user[s]) in st.logins && Entry(st.registry[NextMember(st, s)], NextMember(st, s)) in st.logins;
    hide DbOk;
    hide PostedAs;
    hide IsMember;
    assert pc.members[pc.next] in pc.members;
    assert pc.members[..pc.next + 1][pc.next] == pc.members[pc.next];
  }

  lemma PushToIsLater(st: State, s: Sid)
    requires Invariant(st) && At(st, s) && st.pcs[s].Pushing? && st.pcs[s].next < |st.pcs[s].members|
    requires NextMember(st, s) in st.registry
    ensures forall q :: q in st.pushes ==> InOrder(q, GroupPushTo(st, s, NextMember(st, s)))
  {
    hide DbOk;
    hide PostedAs;
    var push := GroupPushTo(st, s, NextMember(st, s));
    forall q | q in st.pushes ensures InOrder(q, push) {
      assert Before(q, s, st.pcs[s]);
      if SameSource(q, push) && q.recipient == push.recipient {
        EarlierIsSmaller(st, s, q);
      }
    }
  }

  lemma GroupNotifyKeeps(st: State, s: Sid)
    requires Invariant(st) && Next(st, GroupNotify(s)).Some?
    ensures Invariant(Next(st, GroupNotify(s)).value)
  {
    hide Invariant;
    hide PushOk;
    hide Before;
    var pc := st.pcs[s];
    var m := NextMember(st, s);
    AdvanceKeeps(st, s);
    if m != st.user[s] && m in st.registry {
      PushToIsOk(st, s);
      PushToIsLater(st, s);
      var moved := WithPc(st, s, pc.(next := pc.next + 1));
      OnlyTheOrigin(moved, GroupPushTo(st, s, m));
      AddPush(moved, GroupPushTo(st, s, m));
    }
  }

  /** Only the handler that pushes can be in the middle of pushing. */
  lemma OnlyTheOrigin(st: State, p: Push)
    ensures forall t :: At(st, t) && t != p.origin ==> Before(p, t, st.pcs[t])
  {
  }

  lemma GroupDoneKeeps(st: State, s: Sid)
    requires Invariant(st) && Next(st, GroupDone(s)).Some?
    ensures Invariant(Next(st, GroupDone(s)).value)
  {
    SetPc(st, s, Idle);
  }

  lemma NextKeeps(st: State, l: Label)
    requires Invariant(st) && Next(st, l).Some?
    ensures Invariant(Next(st, l).value)
  {
    hide Invariant;
    match l
    case Login(s, u) => LoginKeeps(st, s, u);
    case Close(s) => RegistryKeeps(st, st.closing + {s}, st.registry);
    case Unregister(u) => RegistryKeeps(st, st.closing, st.registry - {u});
    case Other(op) => OtherKeeps(st, op);
    case ChatSave(_, _, _, _, _) => ChatSaveKeeps(st, l);
    case ChatNotify(s) => ChatNotifyKeeps(st, s);
    case GroupCheck(_, _, _, _) => GroupCheckKeeps(st, l);
    case GroupStore(s, now) => GroupStoreKeeps(st, s, now);
    case GroupFetch(s) => GroupFetchKeeps(st, s);
    case GroupNotify(s) => GroupNotifyKeeps(st, s);
    case GroupDone(s) => GroupDoneKeeps(st, s);
  }

  lemma {:induction false} RunKeeps(st: State, ls: seq<Label>)
    requires Invariant(st) && Run(st, ls).Some?
    ensures Invariant(Run(st, ls).value)
    decreases |ls|
  {
    hide Invariant;
    hide Next;
    if ls != [] {
      NextKeeps(st, ls[0]);
      RunKeeps(Next(st, ls[0]).value, ls[1..]);
    }
  }
}
