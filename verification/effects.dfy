/**
  What each request answers and what it changes, node by node, said without the handlers:
  in terms of links, hosts, members and copies before and after. No assumption is made on
  what links and hosts work.
 */
module Effects {
  import opened Fields
  import opened Numerals
  import opened LocalStore
  import opened Records
  import opened Roles
  import opened Sources
  import opened Protocol
  import opened Sites
  import opened Convergence
  import opened AddingReplicas
  import opened Runs

  // ---- permissions and answers ----

  /** The method that the user must be allowed; anybody may create a keygroup. */
  function Needed(req: Request): Option<Method> {
    match req
    case CreateKeygroup(_, _, _) => None
    case DeleteKeygroup(_) => Some("DeleteKeygroup")
    case Update(_, _, _) => Some("Update")
    case AppendItem(_, _) => Some("Update")
    case Delete(_, _) => Some("Delete")
    case AddReplica(_, _, _) => Some("AddReplica")
    case RemoveReplica(_, _) => Some("RemoveReplica")
    case AddTrigger(_, _, _) => Some("AddTrigger")
    case RemoveTrigger(_, _) => Some("RemoveTrigger")
    case AddUser(_, _, _) => Some("AddUser")
    case RemoveUser(_, _, _) => Some("RemoveUser")
  }

  predicate Permitted(g: Slice, req: Request) {
    Needed(req).None? || (req.user in g.perms && Needed(req).value in g.perms[req.user])
  }

  /** A request without permission is refused and changes nothing at all. */
  lemma UnpermittedChangesNothing(env: Env, g: Slice, self: string, req: Request, ch: Choice)
    requires !Permitted(g, req)
    ensures Handle(env, g, self, req, ch) == Reply(g, false)
  {
  }

  predicate Stores(g: Slice, n: string) {
    SiteOf(g, n).store.present
  }

  /** Every trigger at the node has a host that answers. */
  ghost predicate HostsAnswer(env: Env, g: Slice, n: string) {
    forall t | t in SiteOf(g, n).store.triggers :: SiteOf(g, n).store.triggers[t] in env.hosts
  }

  /** Before the call: will the request be answered with success? */
  ghost predicate Succeeds(env: Env, g: Slice, self: string, req: Request, ch: Choice) {
    Permitted(g, req) &&
    match req
    case CreateKeygroup(_, _, _) => !g.record.created && !Stores(g, self)
    case DeleteKeygroup(_) => g.record.created && Stores(g, self)
    case Update(_, id, _) =>
      g.record.created && g.record.mutable && Stores(g, self) && Alnum(id) && HostsAnswer(env, g, self)
    case AppendItem(_, _) => g.record.created && !g.record.mutable && Stores(g, self) && HostsAnswer(env, g, self)
    case Delete(_, id) =>
      g.record.created && g.record.mutable && Stores(g, self) && Alnum(id) && id in SiteOf(g, self).store.items
      && HostsAnswer(env, g, self)
    case AddReplica(_, n, _) =>
      g.record.created && n in env.nodes && !Stores(g, n)
      && (forall m | m == n || (m in g.record.ok && m != self) :: (self, m) in env.links)
      && (if n != self then Stores(g, self)
          else ch.source.Some? ==> (self, ch.source.value) in env.links && Stores(g, ch.source.value))
    case RemoveReplica(_, n) =>
      g.record.created && n in env.nodes && n in g.record.ok && |g.record.ok| > 1 && (self, n) in env.links
          && Stores(g, n)
    case AddTrigger(_, _, _) => Stores(g, self)
    case RemoveTrigger(_, _) => Stores(g, self)
    case AddUser(_, _, _) => true
    case RemoveUser(_, _, _) => true
  }

  lemma WritesAnswer(env: Env, g: Slice, self: string, req: Request, ch: Choice)
    requires req.Update? || req.AppendItem? || req.Delete?
    ensures Handle(env, g, self, req, ch).ok <==> Succeeds(env, g, self, req, ch)
  {
    var targets := g.record.ok - {self};
    var s := SiteOf(g, self);
    hide Relay, Receive, Notify;
    match req
    case Update(_, id, val) => RelayAt(env, g, self, targets, Put(id, val), self);
    case AppendItem(_, val) =>
      var g1 := WithSite(g, self, s.(store := AppendNew(s.store, val)));
      RelayAt(env, g1, self, targets, Append(Format(s.store.next), val), self);
    case Delete(_, id) =>
      if s.store.present && Alnum(id) {
        var g1 := WithSite(g, self, s.(store := Apply(s.store, Remove(id))));
        RelayAt(env, g1, self, targets, Remove(id), self);
      }
  }

  lemma AllTold(env: Env, ok: set<string>, self: string)
    ensures (exists m | m in ok - {self} :: !Reaches(env, self, m))
      <==> !(forall m | m in ok - {self} :: (self, m) in env.links)
  {
  }

  lemma AddReplicaAnswers(env: Env, g: Slice, self: string, req: Request, ch: Choice)
    requires req.AddReplica? && ValidRequest(g, self, req, ch)
    ensures Handle(env, g, self, req, ch).ok <==> Succeeds(env, g, self, req, ch)
  {
    var n := req.node;
    var others := g.record.ok + {n} - {self};
    AllTold(env, g.record.ok + {n}, self);
    if n == self && ch.source.Some? {
      assert ch.source.value in Others(WithMember(g.record, self, req.expiry), self);
    }
    assert (forall m | m in others :: (self, m) in env.links) && (self, n) in env.links
      <==> forall m | m == n || (m in g.record.ok && m != self) :: (self, m) in env.links;
    hide CopyFrom, MayChoose, ValidChoice;
  }

  /** A request is answered with success if and only if it succeeds, for every request there is. */
  lemma AnswersExactly(env: Env, g: Slice, self: string, req: Request, ch: Choice)
    requires ValidRequest(g, self, req, ch)
    ensures Handle(env, g, self, req, ch).ok <==> Succeeds(env, g, self, req, ch)
  {
    hide CopyFrom, CloseAll;
    if req.Update? || req.AppendItem? || req.Delete? {
      hide Handle, Succeeds;
      WritesAnswer(env, g, self, req, ch);
    } else if req.AddReplica? {
      hide Handle, Succeeds;
      AddReplicaAnswers(env, g, self, req, ch);
    }
  }

  // ---- changes of items ----

  /** Does the node write the change? It stores the keygroup, the id is valid, and it is the
      coordinator or a member that the coordinator reaches. */
  ghost predicate Takes(env: Env, g: Slice, self: string, m: string, c: Change) {
    && Stores(g, m) && Alnum(c.id) && (c.Append? ==> Atoi(c.id).Some?)
    && (m == self || (m in g.record.ok && (self, m) in env.links))
  }

  function ItemsAfter(items: map<string, string>, c: Change): map<string, string> {
    match c
    case Put(id, val) => items[id := val]
    case Append(id, val) => items[id := val]
    case Remove(id) => items - {id}
  }

  /** The copy after a write: the item, a counter past an appended id, and one note for every trigger
      whose host answers. */
  ghost predicate Written(s: Site, s': Site, hosts: set<string>, c: Change) {
    var note := if c.Remove? then Deleted(c.id) else Wrote(c.id, c.val);
    && s'.store == Local(s.store.present, ItemsAfter(s.store.items, c), s.store.triggers, s'.store.next)
    && (if c.Append? then s'.store.next > s.store.next && (Atoi(c.id).Some? ==> s'.store.next > Atoi(c.id).value)
        else s'.store.next == s.store.next)
    && s'.inboxes.Keys == s.inboxes.Keys
    && forall t | t in s.inboxes :: InboxAfter(s, s'.inboxes[t], hosts, t, note)
  }

  predicate InboxAfter(s: Site, inbox: Inbox, hosts: set<string>, t: string, note: Note)
    requires t in s.inboxes
  {
    inbox == if t in s.store.triggers && s.store.triggers[t] in hosts
      then Inbox(s.inboxes[t].since, s.inboxes[t].got + [note]) else s.inboxes[t]
  }

  /** A node that takes the change has written it, and no other copy changed. */
  ghost predicate SpreadAt(env: Env, g: Slice, h: Slice, self: string, c: Change, m: string) {
    if Takes(env, g, self, m, c)
        then Written(SiteOf(g, m), SiteOf(h, m), env.hosts, c) else SiteOf(h, m) == SiteOf(g, m)
  }

  /** New reports are exactly: another member did not take the change, or has a trigger whose host is silent. */
  ghost predicate ReportedAt(env: Env, g: Slice, h: Slice, self: string, c: Change, m: string) {
    forall i :: Missed(m, i) in h.missed
        <==> (Missed(m, i) in g.missed || (i == c.id && NotAcknowledged(env, g, self, c, m)))
  }

  ghost predicate NotAcknowledged(env: Env, g: Slice, self: string, c: Change, m: string) {
    m in g.record.ok && m != self && !(Takes(env, g, self, m, c) && HostsAnswer(env, g, m))
  }

  ghost predicate Spread(env: Env, g: Slice, h: Slice, self: string, c: Change) {
    && h.record == g.record && h.perms == g.perms
    && forall m :: SpreadAt(env, g, h, self, c, m) && ReportedAt(env, g, h, self, c, m)
  }

  lemma ReceivedIsWritten(s: Site, hosts: set<string>, c: Change)
    requires s.store.present && Acceptable(c)
    ensures Written(s, Receive(s, hosts, c), hosts, c)
  {
  }

  lemma RelayIsSpread(env: Env, g: Slice, self: string, c: Change, m: string)
    requires m != self
    ensures var h := Relay(env, g, self, g.record.ok - {self}, c);
      SpreadAt(env, g, h, self, c, m) && ReportedAt(env, g, h, self, c, m)
  {
    if SiteOf(g, m).store.present && Acceptable(c) { ReceivedIsWritten(SiteOf(g, m), env.hosts, c); }
    hide Written;
  }

  lemma RelaySkipsSelf(env: Env, g: Slice, self: string, c: Change)
    ensures var h := Relay(env, g, self, g.record.ok - {self}, c);
      && h.record == g.record && h.perms == g.perms && SiteOf(h, self) == SiteOf(g, self)
      && forall i :: Missed(self, i) in h.missed <==> Missed(self, i) in g.missed
  {
  }

  /** What is said of the other nodes holds whatever the coordinator's own copy is. */
  lemma SpreadElsewhere(env: Env, g: Slice, g1: Slice, h1: Slice, h: Slice, self: string, c: Change, m: string)
    requires m != self && SiteOf(g1, m) == SiteOf(g, m) && SiteOf(h1, m) == SiteOf(h, m)
    requires g1.record == g.record && g1.missed == g.missed && h1.missed == h.missed
    requires SpreadAt(env, g1, h1, self, c, m) && ReportedAt(env, g1, h1, self, c, m)
    ensures SpreadAt(env, g, h, self, c, m) && ReportedAt(env, g, h, self, c, m)
  {
    hide Written;
  }

  lemma ReceivedNothingChanges(g: Slice, hosts: set<string>, n: string, c: Change)
    ensures var h := ReceivedAt(g, hosts, n, c);
      && h.missed == g.missed && h.record == g.record && h.perms == g.perms
      && (forall m | m != n :: SiteOf(h, m) == SiteOf(g, m))
      && SiteOf(h, n) == if Acceptable(c) && Stores(g, n) then Receive(SiteOf(g, n), hosts, c) else SiteOf(g, n)
  {
  }

  /** An accepted update reaches every node that can take it. */
  lemma UpdateSpreads(env: Env, g: Slice, self: string, user: string, id: string, val: string)
    requires Allowed(g, user, "Update") && g.record.mutable && g.record.created
    ensures Spread(env, g, HandleUpdate(env, g, self, user, id, val).g, self, Put(id, val))
  {
    var c := Put(id, val);
    var r := Relay(env, g, self, g.record.ok - {self}, c);
    var h := HandleUpdate(env, g, self, user, id, val).g;
    RelaySkipsSelf(env, g, self, c);
    if Stores(g, self) && Alnum(id) { ReceivedIsWritten(SiteOf(g, self), env.hosts, c); }
    ReceivedNothingChanges(r, env.hosts, self, c);
    assert h == ReceivedAt(r, env.hosts, self, c);
    assert Acceptable(c) <==> Alnum(id);
    hide Relay, Receive, Written, ReceivedAt, HandleUpdate, Acceptable, Alnum;
    assert SpreadAt(env, g, h, self, c, self) && ReportedAt(env, g, h, self, c, self);
    hide SpreadAt, ReportedAt;
    forall m | m != self ensures SpreadAt(env, g, h, self, c, m) && ReportedAt(env, g, h, self, c, m) {
      RelayIsSpread(env, g, self, c, m);
      SpreadElsewhere(env, g, g, r, h, self, c, m);
    }
  }

  lemma FinishAt(env: Env, r: Slice, self: string, note: Note)
    ensures var h := Finish(env, r, self, note).g;
      && h.record == r.record && h.perms == r.perms && h.missed == r.missed
      && (forall m | m != self :: SiteOf(h, m) == SiteOf(r, m))
      && SiteOf(h, self) == Notify(SiteOf(r, self), env.hosts, note)
  {
  }

  /** A coordinator that writes first and tells its triggers last leaves the same as one that receives. */
  lemma FinishSpreads(env: Env, g: Slice, self: string, c: Change, store: Local)
    requires Stores(g, self) && Acceptable(c) && store == Apply(SiteOf(g, self).store, c)
    ensures var g1 := WithSite(g, self, SiteOf(g, self).(store := store));
      Spread(env, g, Finish(env, Relay(env, g1, self, g.record.ok - {self}, c), self, NoteOf(c)).g, self, c)
  {
    var g1 := WithSite(g, self, SiteOf(g, self).(store := store));
    var r := Relay(env, g1, self, g.record.ok - {self}, c);
    var h := Finish(env, r, self, NoteOf(c)).g;
    ReceivedIsWritten(SiteOf(g, self), env.hosts, c);
    RelaySkipsSelf(env, g1, self, c);
    FinishAt(env, r, self, NoteOf(c));
    assert SiteOf(h, self) == Receive(SiteOf(g, self), env.hosts, c);
    hide Relay, Receive, Written, Notify, Apply, Finish;
    assert SpreadAt(env, g, h, self, c, self) && ReportedAt(env, g, h, self, c, self);
    hide SpreadAt, ReportedAt;
    forall m | m != self ensures SpreadAt(env, g, h, self, c, m) && ReportedAt(env, g, h, self, c, m) {
      RelayIsSpread(env, g1, self, c, m);
      SpreadElsewhere(env, g, g1, r, h, self, c, m);
    }
  }

  lemma AppendSpreads(env: Env, g: Slice, self: string, user: string, val: string)
    requires Allowed(g, user, "Update") && !g.record.mutable && g.record.created && Stores(g, self)
    ensures Spread(env, g, HandleAppend(env, g, self, user, val).g, self,
      Append(Format(SiteOf(g, self).store.next), val))
  {
    var l := SiteOf(g, self).store;
    AppendNewIsAppend(l, val);
    hide Relay, Finish, Spread, AppendNew, Apply, Acceptable;
    FinishSpreads(env, g, self, Append(Format(l.next), val), AppendNew(l, val));
  }

  lemma DeleteSpreads(env: Env, g: Slice, self: string, user: string, id: string)
    requires Allowed(g, user, "Delete") && g.record.mutable && g.record.created && Stores(g, self)
    requires Alnum(id) && id in SiteOf(g, self).store.items
    ensures Spread(env, g, HandleDelete(env, g, self, user, id).g, self, Remove(id))
  {
    hide Relay, Finish, Spread, Apply;
    FinishSpreads(env, g, self, Remove(id), Apply(SiteOf(g, self).store, Remove(id)));
  }

  /** The writes that are not accepted; a keygroup that is deleted elsewhere takes no update. */
  ghost predicate TurnedDown(g: Slice, self: string, req: Request) {
    match req
    case Update(_, _, _) => !g.record.mutable || !g.record.created
    case AppendItem(_, _) => g.record.mutable || !Stores(g, self)
    case Delete(_, id) => !g.record.mutable || !Stores(g, self) || !Alnum(id) || id !in SiteOf(g, self).store.items
    case _ => false
  }

  lemma TurnedDownChangesNothing(env: Env, g: Slice, self: string, req: Request, ch: Choice)
    requires TurnedDown(g, self, req)
    ensures Handle(env, g, self, req, ch) == Reply(g, false)
  {
  }

  /** A copy of a keygroup that is deleted elsewhere is still written, alone and silently. */
  lemma StaleWriteIsLocal(env: Env, g: Slice, self: string, req: Request, ch: Choice)
    requires (req.AppendItem? || req.Delete?) && Permitted(g, req) && !TurnedDown(g, self, req) && !g.record.created
    ensures var r, l := Handle(env, g, self, req, ch), SiteOf(g, self).store;
      && !r.ok && r.g.record == g.record && r.g.perms == g.perms && r.g.missed == g.missed
      && (forall m | m != self :: SiteOf(r.g, m) == SiteOf(g, m))
      && SiteOf(r.g, self).inboxes == SiteOf(g, self).inboxes
      && SiteOf(r.g, self).store == match req
        case AppendItem(_, val) => l.(items := l.items[Format(l.next) := val], next := l.next + 1)
        case Delete(_, id) => l.(items := l.items - {id})
        case _ => l
  {
  }

  // ---- keygroups ----

  /** A copy that has been dropped: only its counter is left. */
  predicate IsClosed(s: Site, s': Site) {
    s' == Site(Local(false, map[], map[], s.store.next), map[])
  }

  /** A created keygroup has the given mutability, its creator as only member, and an empty or kept copy. */
  lemma CreateEffect(env: Env, g: Slice, self: string, user: string, mutable: bool, expiry: int, ch: Choice)
    ensures var r := Handle(env, g, self, CreateKeygroup(user, mutable, expiry), ch);
      && (if g.record.created then r.g == g
          else r.g.record.created && r.g.record.mutable == mutable && r.g.record.ok == {self}
               && ExpiryOf(r.g.record, self) == expiry)
      && r.g.missed == g.missed && (forall m | m != self :: SiteOf(r.g, m) == SiteOf(g, m))
      && (r.ok ==> SiteOf(r.g, self) == SiteOf(g, self).(store := SiteOf(g, self).store.(present := true)))
      && (!r.ok ==> r.g.perms == g.perms && SiteOf(r.g, self) == SiteOf(g, self))
      && (r.ok ==> forall m: Method | m in {"Read", "Update", "Delete", "AddReplica", "GetReplica", "RemoveReplica",
        "GetTrigger", "AddTrigger", "RemoveTrigger", "DeleteKeygroup", "AddUser", "RemoveUser"} ::
            Allowed(r.g, user, m))
  {
    AllRolesGiveAll();
    hide Methods, MethodsOf;
  }

  lemma AllRolesGiveAll()
    ensures {"Read", "Update", "Delete", "AddReplica", "GetReplica", "RemoveReplica", "GetTrigger", "AddTrigger",
      "RemoveTrigger", "DeleteKeygroup", "AddUser", "RemoveUser"} <= MethodsOf(ALL_ROLES)
  {
    forall m | m in {"Read", "Update", "Delete", "AddReplica", "GetReplica", "RemoveReplica", "GetTrigger",
        "AddTrigger",
      "RemoveTrigger", "DeleteKeygroup", "AddUser", "RemoveUser"} ensures m in MethodsOf(ALL_ROLES)
    {
      assert "R" in ALL_ROLES && "W" in ALL_ROLES && "C" in ALL_ROLES && "T" in ALL_ROLES && "K" in ALL_ROLES;
      assert m in Methods("R") || m in Methods("W") || m in Methods("C") || m in Methods("T") || m in Methods("K");
    }
  }

  /** A deletion closes the coordinator's copy and, if the keygroup still exists, the copy of every member
      that can be reached; the record goes whatever the members did. */
  lemma DeleteKeygroupEffect(env: Env, g: Slice, self: string, user: string, ch: Choice)
    requires Allowed(g, user, "DeleteKeygroup") && Stores(g, self)
    ensures var r := Handle(env, g, self, DeleteKeygroup(user), ch);
      && r.g.record == g.record.(created := false) && r.g.perms == g.perms && r.g.missed == g.missed
      && forall m :: if Stores(g, m) && (m == self || (g.record.created && m in g.record.ok && (self, m) in env.links))
        then IsClosed(SiteOf(g, m), SiteOf(r.g, m)) else SiteOf(r.g, m) == SiteOf(g, m)
  {
    var r := Handle(env, g, self, DeleteKeygroup(user), ch);
    var g1 := WithSite(g, self, Close(SiteOf(g, self)));
    forall m
      ensures if Stores(g, m) && (m == self || (g.record.created && m in g.record.ok && (self, m) in env.links))
        then IsClosed(SiteOf(g, m), SiteOf(r.g, m)) else SiteOf(r.g, m) == SiteOf(g, m)
    {
      CloseAllAt(env, g1, self, g.record.ok - {self}, m);
    }
  }

  lemma DeleteKeygroupRefused(env: Env, g: Slice, self: string, user: string, ch: Choice)
    requires !Stores(g, self)
    ensures Handle(env, g, self, DeleteKeygroup(user), ch) == Reply(g, false)
  {
  }

  // ---- replicas ----

  lemma {:induction false} CopyAllOthers(env: Env, g: Slice, self: string, n: string, items: map<string, string>,
          order: seq<string>)
    requires forall id | id in order :: id in items
    ensures var h := CopyAll(env, g, self, n, items, order);
      && h.record == g.record && h.perms == g.perms
      && (forall m | m != n :: SiteOf(h, m) == SiteOf(g, m))
      && SiteOf(h, n).store.present == SiteOf(g, n).store.present
    decreases |order|
  {
    if order != [] {
      var c := Copy(g.record.mutable, order[0], items[order[0]]);
      var g' := Relay(env, g, self, {n}, c);
      RelayRecord(env, g, self, {n}, c);
      forall m ensures m != n ==> SiteOf(g', m) == SiteOf(g, m) { RelayAt(env, g, self, {n}, c, m); }
      RelayAt(env, g, self, {n}, c, n);
      ReceiveStores(SiteOf(g, n), env.hosts, c);
      hide Relay, SiteOf, Receive;
      CopyAllOthers(env, g', self, n, items, order[1..]);
    }
  }

  lemma CopyFromOthers(env: Env, g: Slice, self: string, n: string, from: string, order: seq<string>)
    ensures var h := CopyFrom(env, g, self, n, from, order);
      && h.record == g.record && h.perms == g.perms
      && (forall m | m != n :: SiteOf(h, m) == SiteOf(g, m))
      && SiteOf(h, n).store.present == SiteOf(g, n).store.present
  {
    var items := SiteOf(g, from).store.items;
    hide CopyAll;
    if forall id | id in order :: id in items { CopyAllOthers(env, g, self, n, items, order); }
  }

  /** An accepted request joins the node, opens its copy if it can be reached, and touches no other copy. */
  lemma AddReplicaEffect(env: Env, g: Slice, self: string, user: string, n: string, expiry: int, ch: Choice)
    requires Allowed(g, user, "AddReplica") && g.record.created && n in env.nodes
    ensures var h := HandleAddReplica(env, g, self, user, n, expiry, ch).g;
      && n in h.record.ok && ExpiryOf(h.record, n) == expiry && h.perms == g.perms
      && (forall m | m != n :: SiteOf(h, m) == SiteOf(g, m))
      && (Stores(g, n) || (self, n) !in env.links ==> SiteOf(h, n) == SiteOf(g, n))
      && ((self, n) in env.links ==> Stores(h, n))
  {
    var g2 := Joined(g, n, expiry);
    var from := if n != self then self else if ch.source.Some? then ch.source.value else self;
    CopyFromOthers(env, g2, self, n, from, ch.order);
    hide CopyFrom;
  }

  lemma CopiedItems(env: Env, g: Slice, self: string, n: string, from: string, order: seq<string>)
    requires from != n && (self, n) in env.links && Enumerates(order, SiteOf(g, from).store.items)
    requires SiteOf(g, n).store.present && Tidy(SiteOf(g, n))
    requires SiteOf(g, n).store.triggers == map[] && SiteOf(g, n).store.items == map[]
    requires forall id | id in SiteOf(g, from).store.items ::
      Acceptable(Copy(g.record.mutable, id, SiteOf(g, from).store.items[id]))
    ensures var h := CopyFrom(env, g, self, n, from, order);
      h.missed == g.missed && SiteOf(h, n).store.items == SiteOf(g, from).store.items
  {
    var items := SiteOf(g, from).store.items;
    CopyAllSites(env, g, self, n, items, order);
    LoadItems(SiteOf(g, n).store, items, order, g.record.mutable);
    hide CopyAll, Load;
    assert map[] + Picked(items, order) == items;
  }

  /** A successful one ends with exactly the items of the node they come from, or none if there is none. */
  lemma AddReplicaCopies(env: Env, g: Slice, self: string, user: string, n: string, expiry: int, ch: Choice)
    requires ValidChoice(g, self, n, expiry, ch) && Tidy(SiteOf(g, n))
    requires Succeeds(env, g, self, Request.AddReplica(user, n, expiry), ch)
    requires forall m, id | id in SiteOf(g, m).store.items ::
      Acceptable(Copy(g.record.mutable, id, SiteOf(g, m).store.items[id]))
    ensures var h := HandleAddReplica(env, g, self, user, n, expiry, ch).g;
      && h.missed == g.missed
      && SiteOf(h, n).store.items == if n != self then SiteOf(g, self).store.items
        else if ch.source.Some? then SiteOf(g, ch.source.value).store.items else map[]
  {
    var g2 := Joined(g, n, expiry);
    var from := if n != self then self else if ch.source.Some? then ch.source.value else self;
    if n == self && ch.source.Some? { assert from in Others(WithMember(g.record, n, expiry), self); }
    AddReplicaAnswers(env, g, self, Request.AddReplica(user, n, expiry), ch);
    assert HandleAddReplica(env, g, self, user, n, expiry, ch).g
      == if from == n then g2 else CopyFrom(env, g2, self, n, from, ch.order) by { hide CopyFrom, MayChoose; }
    hide HandleAddReplica, Succeeds, MayChoose, Acceptable, CopyFrom;
    assert from != n ==> SiteOf(g2, from) == SiteOf(g, from);
    if from != n { CopiedItems(env, g2, self, n, from, ch.order); }
  }

  /** Adding a replica among agreeing members adds it: a member with the given expiry and all the items. */
  lemma AddReplicaAdds(env: Env, g: Slice, self: string, user: string, n: string, expiry: int, ch: Choice,
          content: Content)
    requires Healthy(env.nodes, g, content) && Delivered(env) && self in env.nodes
    requires ValidChoice(g, self, n, expiry, ch) && Served(env, g, self, user, n)
    requires Allowed(g, user, "AddReplica") && g.record.created && n in env.nodes
    ensures var h := HandleAddReplica(env, g, self, user, n, expiry, ch).g;
      n in h.record.ok && ExpiryOf(h.record, n) == expiry && Stores(h, n) && SiteOf(h, n).store.items == content
  {
    assert (self, n) in env.links by { assert Reaches(env, self, n); }
    AddReplicaEffect(env, g, self, user, n, expiry, ch);
    RecordAfter(env, g, self, Request.AddReplica(user, n, expiry), ch);
    AddReplicaConverges(env, g, self, user, n, expiry, ch, content);
    hide HandleAddReplica, Healthy, Delivered, ValidChoice, Served;
    ItemsOfMember(env.nodes, HandleAddReplica(env, g, self, user, n, expiry, ch).g, n, content);
  }

  /** A removal that succeeds ends the membership and leaves no copy; any other changes nothing. */
  lemma RemoveReplicaEffect(env: Env, g: Slice, self: string, user: string, n: string, ch: Choice)
    ensures var req := Request.RemoveReplica(user, n); var r := Handle(env, g, self, req, ch);
      if Succeeds(env, g, self, req, ch) then
        && r.ok && r.g.record == g.record.(ok := g.record.ok - {n})
        && IsClosed(SiteOf(g, n), SiteOf(r.g, n)) && (forall m | m != n :: SiteOf(r.g, m) == SiteOf(g, m))
        && r.g.perms == g.perms && r.g.missed == g.missed
      else r == Reply(g, false)
  {
  }

  // ---- triggers and users ----

  /** An accepted trigger is registered at this node alone, with the items it starts from. */
  lemma AddTriggerEffect(env: Env, g: Slice, self: string, user: string, tid: string, host: string, ch: Choice)
    requires Succeeds(env, g, self, Request.AddTrigger(user, tid, host), ch) && tid != ""
    ensures var r, s := Handle(env, g, self, Request.AddTrigger(user, tid, host), ch), SiteOf(g, self);
      && r.ok && r.g.record == g.record && r.g.perms == g.perms && r.g.missed == g.missed
      && (forall m | m != self :: SiteOf(r.g, m) == SiteOf(g, m))
      && SiteOf(r.g, self).store == s.store.(triggers := s.store.triggers[tid := host])
      && SiteOf(r.g, self).inboxes == s.inboxes[tid := Inbox(s.store.items, [])]
  {
  }

  lemma RemoveTriggerEffect(env: Env, g: Slice, self: string, user: string, tid: string, ch: Choice)
    requires Succeeds(env, g, self, Request.RemoveTrigger(user, tid), ch)
    ensures var r, s := Handle(env, g, self, Request.RemoveTrigger(user, tid), ch), SiteOf(g, self);
      && r.ok && r.g.record == g.record && r.g.perms == g.perms && r.g.missed == g.missed
      && (forall m | m != self :: SiteOf(r.g, m) == SiteOf(g, m))
      && SiteOf(r.g, self).store == s.store.(triggers := s.store.triggers - {tid})
      && SiteOf(r.g, self).inboxes == s.inboxes - {tid}
  {
  }

  /** The first change after the registration is the first note, if the host answers; after the removal of
      the trigger there is no note of it any more. */
  lemma NextChangeIsHeard(env: Env, g: Slice, self: string, user: string, tid: string, host: string, ch: Choice,
          c: Change)
    requires Succeeds(env, g, self, Request.AddTrigger(user, tid, host), ch) && tid != "" && Acceptable(c)
    ensures var s := SiteOf(Handle(env, g, self, Request.AddTrigger(user, tid, host), ch).g, self);
      var note := if c.Remove? then Deleted(c.id) else Wrote(c.id, c.val);
      && tid in Receive(s, env.hosts, c).inboxes
      && Receive(s, env.hosts, c).inboxes[tid]
        == Inbox(SiteOf(g, self).store.items, if host in env.hosts then [note] else [])
  {
    AddTriggerEffect(env, g, self, user, tid, host, ch);
    var s := SiteOf(Handle(env, g, self, Request.AddTrigger(user, tid, host), ch).g, self);
    hide Handle, Succeeds;
    ReceivedIsWritten(s, env.hosts, c);
    hide Receive;
  }

  // ---- a node starts again ----

  /** Is something reported for the node that is read back as this id? */
  ghost predicate Reported(g: Slice, n: string, id: string) {
    exists full :: Missed(n, full) in g.missed && Head(full) == id
  }

  /** Can the node get the id from the source? */
  predicate Offers(env: Env, g: Slice, n: string, source: Option<string>, id: string) {
    source.Some? && (n, source.value) in env.links && Stores(g, source.value)
    && Alnum(id) && id in SiteOf(g, source.value).store.items
  }

  /** A node that starts again takes its reports, stores of each what its source offers, and touches
      neither other items, nor triggers, counters, other copies or other reports. */
  lemma RecoverEffect(env: Env, g: Slice, n: string, sources: map<string, Option<string>>)
    requires sources.Keys == MissedIds(g, n)
    ensures var h, s := Recover(env, g, n, sources), SiteOf(g, n);
      && h.record == g.record && h.perms == g.perms && (forall m | m != n :: SiteOf(h, m) == SiteOf(g, m))
      && (forall m, id :: Missed(m, id) in h.missed <==> m != n && Missed(m, id) in g.missed)
      && SiteOf(h, n) == s.(store := s.store.(items := SiteOf(h, n).store.items))
      && (forall id :: id in sources <==> Reported(g, n, id))
      && (!Stores(g, n) ==> SiteOf(h, n) == s)
      && (Stores(g, n) ==> forall id :: if id in sources && Offers(env, g, n, sources[id], id)
            then id in SiteOf(h, n).store.items
              && SiteOf(h, n).store.items[id] == SiteOf(g, sources[id].value).store.items[id]
            else ItemKept(s, SiteOf(h, n), id))
  {
    forall id ensures id in sources <==> Reported(g, n, id) {
      if full :| Missed(n, full) in g.missed && Head(full) == id { assert Missed(n, full).node == n; }
    }
    if !Stores(g, n) { assert SiteOf(g, n).store.items + map[] == SiteOf(g, n).store.items; }
    hide Head;
  }

  predicate ItemKept(s: Site, s': Site, id: string) {
    (id in s'.store.items <==> id in s.store.items) && (id in s.store.items ==> s'.store.items[id] == s.store.items[id])
  }

  /** Sources are chosen among the other members. */
  lemma OthersAre(r: Record, self: string, n: string)
    ensures n in Others(r, self) <==> n in r.ok && n != self
    ensures n in Others(r, self) ==> Others(r, self)[n] == if n in r.expiry then r.expiry[n] else 0
  {
  }
}
