/**
  The handlers of pkg/fred, step by step, over the state of all nodes. Each is proved to
  bring the keygroup it is about to the state that `Protocol` gives, and to leave every
  other keygroup as it was.
 */
module Clusters {
  import opened Fields
  import opened Numerals
  import opened LocalStore
  import opened Records
  import opened Roles
  import opened Sources
  import opened Protocol
  import opened Runs

  class Cluster {
    var nodes: set<string>
    var links: set<(string, string)>
    var hosts: set<string>
    var kgs: map<Name, Slice>

    function E(): Env
      reads this
    {
      Env(nodes, links, hosts)
    }

    function Of(kg: Name): Slice
      reads this
    {
      if kg in kgs then kgs[kg] else NO_SLICE
    }

    /** Every "ok" member has an address in the name service. */
    ghost predicate Valid()
      reads this
    {
      forall kg: Name :: Of(kg).record.ok <= nodes
    }

    constructor (links: set<(string, string)>, hosts: set<string>)
      ensures Valid() && nodes == {} && this.links == links && this.hosts == hosts
      ensures forall kg: Name :: Of(kg) == NO_SLICE
    {
      nodes, kgs := {}, map[];
      this.links, this.hosts := links, hosts;
    }

    method Set(kg: Name, g: Slice)
      modifies this`kgs
      ensures Of(kg) == g && forall k: Name | k != kg :: Of(k) == old(Of(k))
    {
      kgs := kgs[kg := g];
    }

    // ---- triggers, and what peers do with a relayed message ----

    /** triggerUpdate and triggerDelete: every registered trigger is tried, whatever fails. */
    method Trigger(kg: Name, n: string, note: Note) returns (ok: bool)
      modifies this`kgs
      ensures Of(kg) == NotifiedAt(old(Of(kg)), hosts, n, note) && ok == AllAnswer(SiteOf(old(Of(kg)), n), hosts)
      ensures forall k: Name | k != kg :: Of(k) == old(Of(k))
    {
      ok := true;
      var s := SiteOf(Of(kg), n);
      var inboxes := s.inboxes;
      var left := s.store.triggers.Keys;
      while left != {}
        invariant left <= s.store.triggers.Keys && inboxes.Keys == s.inboxes.Keys
        invariant ok == forall t | t in s.store.triggers && t !in left :: s.store.triggers[t] in hosts
        invariant forall t | t in inboxes && t in s.store.triggers && t !in left && s.store.triggers[t] in hosts ::
          inboxes[t] == s.inboxes[t].(got := s.inboxes[t].got + [note])
        invariant forall t | t in inboxes && !(t in s.store.triggers && t !in left && s.store.triggers[t] in hosts) ::
          inboxes[t] == s.inboxes[t]
        decreases left
      {
        var t :| t in left;
        left := left - {t};
        if s.store.triggers[t] in hosts {
          if t in inboxes { inboxes := inboxes[t := inboxes[t].(got := inboxes[t].got + [note])]; }
        } else {
          ok := false;
        }
      }
      assert inboxes == Notify(s, hosts, note).inboxes;
      if n in Of(kg).sites {
        Set(kg, WithSite(Of(kg), n, s.(inboxes := inboxes)));
      }
    }

    /** The internal handlers for a relayed update, append or deletion. */
    method HandleChange(kg: Name, n: string, c: Change) returns (ok: bool)
      modifies this`kgs
      ensures Of(kg) == ReceivedAt(old(Of(kg)), hosts, n, c) && ok == Acks(SiteOf(old(Of(kg)), n), hosts, c)
      ensures forall k: Name | k != kg :: Of(k) == old(Of(k))
    {
      var s := SiteOf(Of(kg), n);
      if !Acceptable(c) || !s.store.present {
        ReceivedNothing(Of(kg), hosts, n, c);
        return false;
      }
      Set(kg, WithSite(Of(kg), n, s.(store := Apply(s.store, c))));
      ok := Trigger(kg, n, NoteOf(c));
    }

    method SendChange(self: string, kg: Name, n: string, c: Change) returns (ok: bool)
      modifies this`kgs
      ensures Of(kg) == if Reaches(E(), self, n) then ReceivedAt(old(Of(kg)), hosts, n, c) else old(Of(kg))
      ensures ok == Acknowledged(E(), old(Of(kg)), self, n, c)
      ensures forall k: Name | k != kg :: Of(k) == old(Of(k))
    {
      if (self, n) !in links { return false; }
      ok := HandleChange(kg, n, c);
    }

    method ReportNodeFail(kg: Name, n: string, id: string)
      modifies this`kgs
      ensures Of(kg) == old(Of(kg)).(missed := old(Of(kg)).missed + {Missed(n, id)})
      ensures forall k: Name | k != kg :: Of(k) == old(Of(k))
    {
      Set(kg, Of(kg).(missed := Of(kg).missed + {Missed(n, id)}));
    }

    /** relayUpdate, relayAppend and relayDelete, which differ in the message alone. Members have
        addresses, so looking one up does not fail. */
    method RelayChange(self: string, kg: Name, c: Change) returns (ok: bool)
      requires Valid()
      modifies this`kgs
      ensures ok == old(Of(kg)).record.created
      ensures Of(kg) == if ok then Relay(E(), old(Of(kg)), self, old(Of(kg)).record.ok - {self}, c) else old(Of(kg))
      ensures forall k: Name | k != kg :: Of(k) == old(Of(k))
    {
      if !Of(kg).record.created { return false; }
      ghost var g, env := Of(kg), E();
      var left := Of(kg).record.ok - {self};
      ghost var done := {};
      RelayNone(env, g, self, c);
      while left != {}
        invariant left !! done && left + done == g.record.ok - {self}
        invariant Of(kg) == Relay(env, g, self, done, c)
        invariant forall k: Name | k != kg :: Of(k) == old(Of(k))
        decreases left
      {
        var n :| n in left;
        RelayStep(env, g, self, done, n, c);
        var sent := SendChange(self, kg, n, c);
        if !sent { ReportNodeFail(kg, n, c.id); }
        left, done := left - {n}, done + {n};
      }
      assert done == g.record.ok - {self};
      ok := true;
    }

    // ---- client requests ----

    method ServeUpdate(self: string, kg: Name, user: string, id: string, val: string) returns (ok: bool)
      requires Valid()
      modifies this`kgs
      ensures Reply(Of(kg), ok) == HandleUpdate(E(), old(Of(kg)), self, user, id, val)
      ensures forall k: Name | k != kg :: Of(k) == old(Of(k))
    {
      hide Relay, Receive;
      if !Allowed(Of(kg), user, "Update") { return false; }
      if !Of(kg).record.mutable { return false; }
      var relayed := RelayChange(self, kg, Put(id, val));
      if !relayed { return false; }
      ok := HandleChange(kg, self, Put(id, val));
    }

    method ServeAppend(self: string, kg: Name, user: string, val: string) returns (ok: bool, id: string)
      requires Valid()
      modifies this`kgs
      ensures Reply(Of(kg), ok) == HandleAppend(E(), old(Of(kg)), self, user, val)
      ensures ok ==> id == Format(SiteOf(old(Of(kg)), self).store.next)
      ensures forall k: Name | k != kg :: Of(k) == old(Of(k))
    {
      hide Relay, Receive;
      ok, id := false, "";
      if !Allowed(Of(kg), user, "Update") { return; }
      if Of(kg).record.mutable { return; }
      var s := SiteOf(Of(kg), self);
      if !s.store.present { return; }
      id := Format(s.store.next);
      Set(kg, WithSite(Of(kg), self, s.(store := AppendNew(s.store, val))));
      var relayed := RelayChange(self, kg, Append(id, val));
      if !relayed { return; }
      ok := Trigger(kg, self, Wrote(id, val));
    }

    method ServeDelete(self: string, kg: Name, user: string, id: string) returns (ok: bool)
      requires Valid()
      modifies this`kgs
      ensures Reply(Of(kg), ok) == HandleDelete(E(), old(Of(kg)), self, user, id)
      ensures forall k: Name | k != kg :: Of(k) == old(Of(k))
    {
      hide Relay, Receive;
      if !Allowed(Of(kg), user, "Delete") { return false; }
      if !Of(kg).record.mutable { return false; }
      var s := SiteOf(Of(kg), self);
      if id !in s.store.items { return false; }
      if !Alnum(id) || !s.store.present { return false; }
      Set(kg, WithSite(Of(kg), self, s.(store := Apply(s.store, Remove(id)))));
      var relayed := RelayChange(self, kg, Remove(id));
      if !relayed { return false; }
      ok := Trigger(kg, self, Deleted(id));
    }

    /** A node stores the keygroup from now on, unless it does already. */
    method OpenSite(kg: Name, n: string) returns (ok: bool)
      modifies this`kgs
      ensures ok == !SiteOf(old(Of(kg)), n).store.present
      ensures Of(kg) == if ok then WithSite(old(Of(kg)), n, Open(SiteOf(old(Of(kg)), n))) else old(Of(kg))
      ensures forall k: Name | k != kg :: Of(k) == old(Of(k))
    {
      if SiteOf(Of(kg), n).store.present { return false; }
      Set(kg, WithSite(Of(kg), n, Open(SiteOf(Of(kg), n))));
      ok := true;
    }

    method CloseSite(kg: Name, n: string) returns (ok: bool)
      modifies this`kgs
      ensures ok == SiteOf(old(Of(kg)), n).store.present
      ensures Of(kg) == if ok then WithSite(old(Of(kg)), n, Close(SiteOf(old(Of(kg)), n))) else old(Of(kg))
      ensures forall k: Name | k != kg :: Of(k) == old(Of(k))
    {
      if !SiteOf(Of(kg), n).store.present { return false; }
      Set(kg, WithSite(Of(kg), n, Close(SiteOf(Of(kg), n))));
      ok := true;
    }

    method ServeCreateKeygroup(self: string, kg: Name, user: string, mutable: bool, expiry: int) returns (ok: bool)
      requires Valid() && self in nodes
      modifies this`kgs
      ensures Valid() && Reply(Of(kg), ok) == HandleCreate(old(Of(kg)), self, user, mutable, expiry)
      ensures forall k: Name | k != kg :: Of(k) == old(Of(k))
    {
      if Of(kg).record.created { return false; }
      Set(kg, Of(kg).(record := Founded(Of(kg).record, self, mutable, expiry)));
      ok := OpenSite(kg, self);
      if !ok { return; }
      Set(kg, Grant(Of(kg), user, MethodsOf(ALL_ROLES)));
    }

    method ServeDeleteKeygroup(self: string, kg: Name, user: string) returns (ok: bool)
      requires Valid()
      modifies this`kgs
      ensures Valid() && Reply(Of(kg), ok) == HandleDrop(E(), old(Of(kg)), self, user)
      ensures forall k: Name | k != kg :: Of(k) == old(Of(k))
    {
      hide Close;
      if !Allowed(Of(kg), user, "DeleteKeygroup") { return false; }
      ok := CloseSite(kg, self);
      if !ok { return; }
      if !Of(kg).record.created { return false; }
      ghost var g, env := Of(kg), E();
      var left := Of(kg).record.ok - {self};
      ghost var done := {};
      CloseNone(env, g, self);
      while left != {}
        invariant left !! done && left + done == g.record.ok - {self}
        invariant Of(kg) == CloseAll(env, g, self, done)
        invariant forall k: Name | k != kg :: Of(k) == old(Of(k))
        decreases left
      {
        var n :| n in left;
        CloseStep(env, g, self, done, n);
        if (self, n) in links {
          var _ := CloseSite(kg, n);
        }
        left, done := left - {n}, done + {n};
      }
      assert done == g.record.ok - {self};
      Set(kg, Of(kg).(record := Retired(Of(kg).record)));
      ok := true;
    }

    /** Sends one item, and reports it if it is not acknowledged. */
    method SendItem(self: string, kg: Name, n: string, c: Change)
      modifies this`kgs
      ensures Of(kg) == Relay(E(), old(Of(kg)), self, {n}, c)
      ensures forall k: Name | k != kg :: Of(k) == old(Of(k))
    {
      RelayNone(E(), Of(kg), self, c);
      RelayStep(E(), Of(kg), self, {}, n, c);
      assert {} + {n} == {n};
      hide Relay, Receive, Acks;
      var sent := SendChange(self, kg, n, c);
      if !sent { ReportNodeFail(kg, n, c.id); }
    }

    /** Sends the items to `n` in an order that nobody fixes, and reports what is not acknowledged. */
    method SendItems(self: string, kg: Name, n: string, items: map<string, string>) returns (ghost order: seq<string>)
      modifies this`kgs
      ensures Enumerates(order, items) && Of(kg) == CopyAll(E(), old(Of(kg)), self, n, items, order)
      ensures forall k: Name | k != kg :: Of(k) == old(Of(k))
    {
      ghost var g, env := Of(kg), E();
      var mutable := Of(kg).record.mutable;
      order := [];
      var left := items;
      assert CopyAll(env, g, self, n, items, []) == g;
      hide Relay, CopyAll, Remaining;
      RemainingAll(items);
      while left != map[]
        invariant Remaining(items, order, left)
        invariant Of(kg) == CopyAll(env, g, self, n, items, order)
        invariant forall k: Name | k != kg :: Of(k) == old(Of(k))
        decreases |left.Keys|
      {
        var id :| id in left;
        RemainingStep(items, order, left, id);
        CopyAllSnoc(env, g, self, n, items, order, id);
        SendItem(self, kg, n, Copy(mutable, id, left[id]));
        left, order := left - {id}, order + [id];
      }
      RemainingNone(items, order);
    }

    /** Tells every other member about the new one, and the new one about them; nobody acts on it. */
    method SendAddReplica(self: string, kg: Name, n: string) returns (ok: bool)
      requires (self, n) in links
      ensures ok == forall m | m in Of(kg).record.ok - {self} :: Reaches(E(), self, m)
    {
      var left := Of(kg).record.ok - {self};
      while left != {}
        invariant left <= Of(kg).record.ok - {self}
        invariant forall m | m in Of(kg).record.ok - {self} && m !in left :: Reaches(E(), self, m)
        decreases left
      {
        var m :| m in left;
        var told := (self, m) in links && (self, n) in links;
        if !told { return false; }
        left := left - {m};
      }
      ok := true;
    }

    method ServeAddReplica(self: string, kg: Name, user: string, n: string, expiry: int)
            returns (ok: bool, ghost ch: Choice)
      requires Valid()
      modifies this`kgs
      ensures Valid() && ValidChoice(old(Of(kg)), self, n, expiry, ch)
      ensures Reply(Of(kg), ok) == HandleAddReplica(E(), old(Of(kg)), self, user, n, expiry, ch)
      ensures forall k: Name | k != kg :: Of(k) == old(Of(k))
    {
      hide CopyAll, MayChoose;
      ch := AnyChoice(Of(kg), self, n, expiry);
      if !Allowed(Of(kg), user, "AddReplica") { return false, ch; }
      if !Of(kg).record.created { return false, ch; }
      if n !in nodes { return false, ch; }
      Set(kg, Of(kg).(record := WithMember(Of(kg).record, n, expiry)));
      if (self, n) !in links { return false, ch; }
      ok := OpenSite(kg, n);
      if !ok { return; }
      ok := SendAddReplica(self, kg, n);
      if !ok { return; }
      var items;
      if n != self {
        if !SiteOf(Of(kg), self).store.present { return false, ch; }
        items := SiteOf(Of(kg), self).store.items;
      } else {
        var source := GetNodeWithBiggerExpiry(Others(Of(kg).record, self));
        ch := AnyOrder(old(Of(kg)), self, n, ch.(source := source));
        if source.None? { return true, ch; }
        if (self, source.value) !in links || !SiteOf(Of(kg), source.value).store.present { return false, ch; }
        SourceIsOther(Others(Of(kg).record, self), source);
        items := SiteOf(Of(kg), source.value).store.items;
      }
      ghost var order := SendItems(self, kg, n, items);
      ch := ch.(order := order);
      CopyAllKeeps(E(),
          WithSite(old(Of(kg)).(record := WithMember(old(Of(kg)).record, n, expiry)), n, Open(SiteOf(old(Of(kg)), n))),
              self, n, items, order);
      ok := true;
    }

    method ServeRemoveReplica(self: string, kg: Name, user: string, n: string) returns (ok: bool)
      requires Valid()
      modifies this`kgs
      ensures Valid() && Reply(Of(kg), ok) == HandleRemoveReplica(E(), old(Of(kg)), self, user, n)
      ensures forall k: Name | k != kg :: Of(k) == old(Of(k))
    {
      if !Allowed(Of(kg), user, "RemoveReplica") { return false; }
      if n !in nodes { return false; }
      if !Of(kg).record.created { return false; }
      if n !in Of(kg).record.ok { return false; }
      if |Of(kg).record.ok| <= 1 { return false; }
      if (self, n) !in links { return false; }
      ok := CloseSite(kg, n);
      if !ok { return; }
      Set(kg, Of(kg).(record := WithoutMember(Of(kg).record, n)));
    }

    method ServeAddTrigger(self: string, kg: Name, user: string, tid: string, host: string) returns (ok: bool)
      modifies this`kgs
      ensures Reply(Of(kg), ok) == HandleAddTrigger(old(Of(kg)), self, user, tid, host)
      ensures forall k: Name | k != kg :: Of(k) == old(Of(k))
    {
      if !Allowed(Of(kg), user, "AddTrigger") { return false; }
      var s := SiteOf(Of(kg), self);
      if !s.store.present { return false; }
      if tid == "" { return true; }
      Set(kg, WithSite(Of(kg), self,
          Site(s.store.(triggers := s.store.triggers[tid := host]), s.inboxes[tid := Inbox(s.store.items, [])])));
      ok := true;
    }

    method ServeRemoveTrigger(self: string, kg: Name, user: string, tid: string) returns (ok: bool)
      modifies this`kgs
      ensures Reply(Of(kg), ok) == HandleRemoveTrigger(old(Of(kg)), self, user, tid)
      ensures forall k: Name | k != kg :: Of(k) == old(Of(k))
    {
      if !Allowed(Of(kg), user, "RemoveTrigger") { return false; }
      var s := SiteOf(Of(kg), self);
      if !s.store.present { return false; }
      Set(kg, WithSite(Of(kg), self, Site(s.store.(triggers := s.store.triggers - {tid}), s.inboxes - {tid})));
      ok := true;
    }

    method ServeAddUser(kg: Name, user: string, newUser: string, role: Role) returns (ok: bool)
      modifies this`kgs
      ensures Reply(Of(kg), ok) == HandleAddUser(old(Of(kg)), user, newUser, role)
      ensures forall k: Name | k != kg :: Of(k) == old(Of(k))
    {
      if !Allowed(Of(kg), user, "AddUser") { return false; }
      Set(kg, Grant(Of(kg), newUser, Methods(role)));
      ok := true;
    }

    method ServeRemoveUser(kg: Name, user: string, newUser: string, role: Role) returns (ok: bool)
      modifies this`kgs
      ensures Reply(Of(kg), ok) == HandleRemoveUser(old(Of(kg)), user, newUser, role)
      ensures forall k: Name | k != kg :: Of(k) == old(Of(k))
    {
      if !Allowed(Of(kg), user, "RemoveUser") { return false; }
      Set(kg, Revoke(Of(kg), newUser, Methods(role)));
      ok := true;
    }

    /** Any client request: what it does to its keygroup is the step that the runs of `Runs` are made of. */
    method Serve(self: string, kg: Name, req: Request) returns (ok: bool, ghost ch: Choice)
      requires Valid() && self in nodes
      modifies this`kgs
      ensures Valid() && ValidRequest(old(Of(kg)), self, req, ch)
      ensures Reply(Of(kg), ok) == Handle(E(), old(Of(kg)), self, req, ch)
      ensures forall k: Name | k != kg :: Of(k) == old(Of(k))
      ensures World(E(), Of(kg)) == Next(World(old(E()), old(Of(kg))), Client(self, req, ch))
    {
      hide HandleCreate, HandleDrop, HandleUpdate, HandleAppend, HandleDelete, HandleAddReplica, HandleRemoveReplica,
        HandleAddTrigger, HandleRemoveTrigger, HandleAddUser, HandleRemoveUser, ValidChoice;
      ch := Choice(None, []);
      match req {
        case CreateKeygroup(user, mutable, expiry) => { ok := ServeCreateKeygroup(self, kg, user, mutable, expiry); }
        case DeleteKeygroup(user) => { ok := ServeDeleteKeygroup(self, kg, user); }
        case Update(user, id, val) => { ok := ServeUpdate(self, kg, user, id, val); }
        case AppendItem(user, val) => { var id; ok, id := ServeAppend(self, kg, user, val); }
        case Delete(user, id) => { ok := ServeDelete(self, kg, user, id); }
        case AddReplica(user, n, expiry) => { ok, ch := ServeAddReplica(self, kg, user, n, expiry); }
        case RemoveReplica(user, n) => { ok := ServeRemoveReplica(self, kg, user, n); }
        case AddTrigger(user, tid, host) => { ok := ServeAddTrigger(self, kg, user, tid, host); }
        case RemoveTrigger(user, tid) => { ok := ServeRemoveTrigger(self, kg, user, tid); }
        case AddUser(user, newUser, role) => { ok := ServeAddUser(kg, user, newUser, role); }
        case RemoveUser(user, newUser, role) => { ok := ServeRemoveUser(kg, user, newUser, role); }
      }
      RecordAfter(E(), old(Of(kg)), self, req, ch);
      hide Handle;
    }

    /** Links and trigger hosts come and go. */
    method Change(links: set<(string, string)>, hosts: set<string>)
      requires Valid()
      modifies this`links, this`hosts
      ensures Valid()
      ensures forall kg: Name :: World(E(), Of(kg)) == Next(World(old(E()), old(Of(kg))), Network(links, hosts))
    {
      this.links, this.hosts := links, hosts;
      assert forall kg: Name :: Of(kg) == old(Of(kg)) && old(Of(kg)).record.ok <= nodes;
    }

    // ---- New ----

    /** Registers the node and takes everything that is reported for it. */
    method TakeReported(n: string) returns (items: set<(Name, string)>)
      requires Valid()
      modifies this`nodes, this`kgs
      ensures Valid() && nodes == old(nodes) + {n}
      ensures forall kg: Name :: Of(kg) == Restored(old(Of(kg)), n, map[])
      ensures forall kg: Name, id :: (kg, id) in items <==> id in MissedIds(old(Of(kg)), n)
    {
      nodes := nodes + {n};
      items := set kg, m | kg in kgs && m in kgs[kg].missed && m.node == n :: (kg, Head(m.id));
      kgs := map kg | kg in kgs :: Restored(kgs[kg], n, map[]);
      assert forall kg: Name :: Of(kg).record == old(Of(kg)).record;
    }

    /** Fetches one missed item from the chosen source and stores it. */
    method FetchItem(n: string, kg: Name, id: string) returns (source: Option<string>)
      modifies this`kgs
      ensures MayChoose(Others(old(Of(kg)).record, n), source)
      ensures Of(kg) == PutBack(old(Of(kg)), n, id, Fetch(E(), old(Of(kg)), n, source, id))
      ensures forall k: Name | k != kg :: Of(k) == old(Of(k))
    {
      source := GetNodeWithBiggerExpiry(Others(Of(kg).record, n));
      if source.None? || (n, source.value) !in links { return; }
      var there := SiteOf(Of(kg), source.value).store;
      if !Alnum(id) || !there.present || id !in there.items { return; }
      var s := SiteOf(Of(kg), n);
      if !s.store.present { return; }
      Set(kg, WithSite(Of(kg), n, s.(store := Apply(s.store, Put(id, there.items[id])))));
    }

    /** Fetches the missed items one after the other, in an order that nobody fixes. */
    method FetchItems(n: string, items: set<(Name, string)>, ghost before: map<Name, Slice>, ghost env: Env)
      returns (ghost sources: map<(Name, string), Option<string>>)
      requires env.links == links
      requires forall kg: Name, id | (kg, id) in items :: id in MissedIds(SliceIn(before, kg), n)
      requires forall kg: Name :: Of(kg) == SoFar(env, before, n, kg, map[])
      modifies this`kgs
      ensures sources.Keys == items
      ensures forall kg: Name, id | (kg, id) in items ::
        MayChoose(Others(SliceIn(before, kg).record, n), sources[(kg, id)])
      ensures forall kg: Name :: Of(kg) == SoFar(env, before, n, kg, sources)
    {
      hide MayChoose, MissedIds, SoFar, PutBack, Fetch, Others;
      var left := items;
      ghost var done := {};
      sources := map[];
      while left != {}
        invariant left !! done && left + done == items && sources.Keys == done
        invariant forall kg: Name, id | (kg, id) in done ::
          MayChoose(Others(SliceIn(before, kg).record, n), sources[(kg, id)])
        invariant forall kg: Name :: Of(kg) == SoFar(env, before, n, kg, sources)
        decreases left
      {
        var item :| item in left;
        var (kg, id) := item;
        SoFarRecord(env, before, n, kg, sources);
        var source := FetchItem(n, kg, id);
        SoFarStep(env, E(), before, n, kg, id, sources, source);
        forall k: Name | k != kg { SoFarFrame(env, before, n, k, item, sources, source); }
        sources := sources[item := source];
        left, done := left - {item}, done + {item};
      }
    }

    /** New: a node registers, takes what is reported for it, and fetches each item from the chosen source. */
    method Start(n: string) returns (ghost sources: map<(Name, string), Option<string>>)
      requires Valid()
      modifies this`nodes, this`kgs
      ensures Valid() && nodes == old(nodes) + {n}
      ensures forall kg: Name :: ValidSources(old(Of(kg)), n, SourcesFor(sources, old(Of(kg)), n, kg))
      ensures forall kg: Name ::
        World(E(), Of(kg))
            == Next(World(old(E()), old(Of(kg))), Event.Start(n, SourcesFor(sources, old(Of(kg)), n, kg)))
    {
      ghost var before, env := kgs, E();
      assert forall kg: Name :: Of(kg) == SliceIn(before, kg);
      var items := TakeReported(n);
      hide MayChoose, MissedIds, Restored, Fetch, Others;
      forall kg: Name ensures Of(kg) == SoFar(env, before, n, kg, map[]) {
        NothingYet(env, SliceIn(before, kg), n, kg);
      }
      hide SoFar;
      sources := FetchItems(n, items, before, env);
      forall kg: Name ensures Of(kg).record == SliceIn(before, kg).record { SoFarRecord(env, before, n, kg, sources); }
      forall kg: Name ensures ValidSources(SliceIn(before, kg), n, SourcesFor(sources, SliceIn(before, kg), n, kg))
        && Of(kg) == Recover(env, SliceIn(before, kg), n, SourcesFor(sources, SliceIn(before, kg), n, kg))
      {
        AllFetched(env, before, n, kg, items, sources);
      }
      hide Recover, SourcesFor, ValidSources;
    }
  }

  lemma NothingYet(env: Env, g: Slice, n: string, kg: Name)
    ensures Back(env, g, n, kg, map[]) == map[]
  {
  }

  lemma AllFetched(env: Env, before: map<Name, Slice>, n: string, kg: Name, items: set<(Name, string)>,
          sources: map<(Name, string), Option<string>>)
    requires sources.Keys == items && forall id :: (kg, id) in items <==> id in MissedIds(SliceIn(before, kg), n)
    requires forall id | (kg, id) in items :: MayChoose(Others(SliceIn(before, kg).record, n), sources[(kg, id)])
    ensures ValidSources(SliceIn(before, kg), n, SourcesFor(sources, SliceIn(before, kg), n, kg))
    ensures SoFar(env, before, n, kg, sources)
      == Recover(env, SliceIn(before, kg), n, SourcesFor(sources, SliceIn(before, kg), n, kg))
  {
    var g := SliceIn(before, kg);
    hide MissedIds, Fetch, MayChoose, Restored, Others;
    assert SiteOf(g, n).store.present ==>
        Back(env, g, n, kg, sources) == Fetched(env, g, n, SourcesFor(sources, g, n, kg));
  }

  function SourcesFor(sources: map<(Name, string), Option<string>>, g: Slice, n: string,
          kg: Name): map<string, Option<string>> {
    map id | id in MissedIds(g, n) :: if (kg, id) in sources then sources[(kg, id)] else None
  }

  /** What has been fetched for one keygroup so far. */
  function Back(env: Env, g: Slice, n: string, kg: Name,
          sources: map<(Name, string), Option<string>>): map<string, string> {
    if SiteOf(g, n).store.present then
      map id | id in MissedIds(g, n) && (kg, id) in sources && Fetch(env, g, n, sources[(kg, id)], id).Some? ::
        Fetch(env, g, n, sources[(kg, id)], id).value
    else map[]
  }

  lemma SourceIsOther(members: map<string, int>, source: Option<string>)
    requires MayChoose(members, source)
    ensures source.Some? ==> source.value in members
  {
  }

  lemma AnyChoice(g: Slice, self: string, n: string, expiry: int) returns (ch: Choice)
    ensures ValidChoice(g, self, n, expiry, ch)
  {
    var source := SomeChoice(Others(WithMember(g.record, n, expiry), self));
    ch := AnyOrder(g, self, n, Choice(source, []));
  }

  lemma AnyOrder(g: Slice, self: string, n: string, ch0: Choice) returns (ch: Choice)
    ensures ch.source == ch0.source
    ensures var from := if n != self then self else if ch.source.Some? then ch.source.value else self;
      Enumerates(ch.order, SiteOf(g, from).store.items)
  {
    var from := if n != self then self else if ch0.source.Some? then ch0.source.value else self;
    var order := Enumeration(SiteOf(g, from).store.items);
    ch := ch0.(order := order);
  }

  lemma ReceivedNothing(g: Slice, hosts: set<string>, n: string, c: Change)
    requires !Acceptable(c) || !SiteOf(g, n).store.present
    ensures ReceivedAt(g, hosts, n, c) == g
  {
  }

  lemma RelayNone(env: Env, g: Slice, self: string, c: Change)
    ensures Relay(env, g, self, {}, c) == g
  {
  }

  /** Relaying to one more target is a send, and a report if it was not acknowledged. */
  lemma RelayStep(env: Env, g: Slice, self: string, done: set<string>, n: string, c: Change)
    requires n !in done
    ensures var r := Relay(env, g, self, done, c);
      var sent := if Reaches(env, self, n) then ReceivedAt(r, env.hosts, n, c) else r;
      && Acknowledged(env, r, self, n, c) == Acknowledged(env, g, self, n, c)
      && Relay(env, g, self, done + {n}, c)
        == if Acknowledged(env, r, self, n, c) then sent else sent.(missed := sent.missed + {Missed(n, c.id)})
  {
    var r := Relay(env, g, self, done, c);
    var sent := if Reaches(env, self, n) then ReceivedAt(r, env.hosts, n, c) else r;
    var all := Relay(env, g, self, done + {n}, c);
    assert SiteOf(r, n) == SiteOf(g, n);
    hide Receive, Acks;
    assert all.sites == sent.sites;
    assert all.missed == if Acknowledged(env, r, self, n, c) then r.missed else r.missed + {Missed(n, c.id)};
  }

  lemma CloseNone(env: Env, g: Slice, self: string)
    ensures CloseAll(env, g, self, {}) == g
  {
  }

  lemma CloseStep(env: Env, g: Slice, self: string, done: set<string>, n: string)
    requires n !in done
    ensures var r := CloseAll(env, g, self, done);
      CloseAll(env, g, self, done + {n})
        == if Reaches(env, self, n) && SiteOf(r, n).store.present then WithSite(r, n, Close(SiteOf(r, n))) else r
  {
  }

  lemma {:induction false} CopyAllSnoc(env: Env, g: Slice, self: string, n: string, items: map<string, string>,
          order: seq<string>, id: string)
    requires forall i | i in order + [id] :: i in items
    ensures var r := CopyAll(env, g, self, n, items, order);
      && r.record == g.record
      && CopyAll(env, g, self, n, items, order + [id])
          == Relay(env, r, self, {n}, Copy(g.record.mutable, id, items[id]))
    decreases |order|
  {
    if order == [] {
      assert [] + [id] == [id];
      assert [id][1..] == [];
    } else {
      var c := Copy(g.record.mutable, order[0], items[order[0]]);
      assert (order + [id])[1..] == order[1..] + [id];
      assert Relay(env, g, self, {n}, c).record == g.record;
      hide Relay;
      CopyAllSnoc(env, Relay(env, g, self, {n}, c), self, n, items, order[1..], id);
    }
  }

  /** Items in `order` have been taken, once each, and those in `left` have not. */
  ghost predicate Remaining(items: map<string, string>, order: seq<string>, left: map<string, string>) {
    && left.Keys <= items.Keys && (forall id | id in left :: left[id] == items[id])
    && (forall id :: id in order <==> id in items && id !in left)
    && (forall i, j | 0 <= i < j < |order| :: order[i] != order[j])
  }

  lemma RemainingAll(items: map<string, string>)
    ensures Remaining(items, [], items)
  {
  }

  lemma RemainingStep(items: map<string, string>, order: seq<string>, left: map<string, string>, id: string)
    requires Remaining(items, order, left) && id in left
    ensures Remaining(items, order + [id], left - {id}) && |(left - {id}).Keys| < |left.Keys|
    ensures forall i | i in order + [id] :: i in items
    ensures left[id] == items[id]
  {
  }

  lemma RemainingNone(items: map<string, string>, order: seq<string>)
    requires Remaining(items, order, map[])
    ensures Enumerates(order, items)
  {
  }

  lemma {:induction false} CopyAllKeeps(env: Env, g: Slice, self: string, n: string, items: map<string, string>,
          order: seq<string>)
    requires forall i | i in order :: i in items
    ensures CopyAll(env, g, self, n, items, order).record == g.record
    decreases |order|
  {
    if order != [] {
      var c := Copy(g.record.mutable, order[0], items[order[0]]);
      assert Relay(env, g, self, {n}, c).record == g.record;
      CopyAllKeeps(env, Relay(env, g, self, {n}, c), self, n, items, order[1..]);
    }
  }

  function SliceIn(kgs: map<Name, Slice>, kg: Name): Slice {
    if kg in kgs then kgs[kg] else NO_SLICE
  }

  function PutBack(g: Slice, n: string, id: string, got: Option<string>): Slice {
    var s := SiteOf(g, n);
    if got.Some? && s.store.present
        then WithSite(g, n, s.(store := s.store.(items := s.store.items[id := got.value]))) else g
  }

  /** A keygroup after the items with a source in `sources` have been fetched. */
  function SoFar(env: Env, before: map<Name, Slice>, n: string, kg: Name,
          sources: map<(Name, string), Option<string>>): Slice {
    Restored(SliceIn(before, kg), n, Back(env, SliceIn(before, kg), n, kg, sources))
  }

  lemma SoFarRecord(env: Env, before: map<Name, Slice>, n: string, kg: Name,
          sources: map<(Name, string), Option<string>>)
    ensures SoFar(env, before, n, kg, sources).record == SliceIn(before, kg).record
  {
  }

  lemma SoFarStep(env: Env, env': Env, before: map<Name, Slice>, n: string, kg: Name, id: string,
                  sources: map<(Name, string), Option<string>>, source: Option<string>)
    requires id in MissedIds(SliceIn(before, kg), n) && (kg, id) !in sources && env'.links == env.links
    requires MayChoose(Others(SliceIn(before, kg).record, n), source)
    ensures var g := SoFar(env, before, n, kg, sources);
      SoFar(env, before, n, kg, sources[(kg, id) := source]) == PutBack(g, n, id, Fetch(env', g, n, source, id))
  {
    var g0 := SliceIn(before, kg);
    hide MissedIds, Fetch, Back, MayChoose, PutBack, Restored, Others;
    BackStep(env, g0, n, kg, id, sources, source);
    SourceIsOther(Others(g0.record, n), source);
    OthersAreOther(g0.record, n);
    FetchSame(env, env', g0, n, Back(env, g0, n, kg, sources), source, id);
    PutBackStep(g0, n, Back(env, g0, n, kg, sources), id, Fetch(env, g0, n, source, id));
  }

  lemma OthersAreOther(r: Record, n: string)
    ensures n !in Others(r, n)
  {
  }

  lemma FetchSame(env: Env, env': Env, g: Slice, n: string, back: map<string, string>, source: Option<string>,
          id: string)
    requires env'.links == env.links && (source.Some? ==> source.value != n)
    ensures Fetch(env', Restored(g, n, back), n, source, id) == Fetch(env, g, n, source, id)
  {
  }

  lemma PutBackStep(g: Slice, n: string, back: map<string, string>, id: string, got: Option<string>)
    ensures PutBack(Restored(g, n, back), n, id, got)
      == Restored(g, n, if SiteOf(g, n).store.present && got.Some? then back[id := got.value] else back)
  {
    if n in g.sites && got.Some? {
      var items := SiteOf(g, n).store.items;
      assert items + back[id := got.value] == (items + back)[id := got.value];
    }
  }

  lemma SoFarFrame(env: Env, before: map<Name, Slice>, n: string, k: Name, item: (Name, string),
                   sources: map<(Name, string), Option<string>>, source: Option<string>)
    requires k != item.0
    ensures SoFar(env, before, n, k, sources[item := source]) == SoFar(env, before, n, k, sources)
  {
    BackFrame(env, SliceIn(before, k), n, k, item, sources, source);
    hide Back;
  }

  lemma BackStep(env: Env, g: Slice, n: string, kg: Name, id: string, sources: map<(Name, string), Option<string>>,
          source: Option<string>)
    requires id in MissedIds(g, n) && (kg, id) !in sources
    ensures var got := Fetch(env, g, n, source, id);
      Back(env, g, n, kg, sources[(kg, id) := source])
        == if SiteOf(g, n).store.present && got.Some?
            then Back(env, g, n, kg, sources)[id := got.value] else Back(env, g, n, kg, sources)
  {
  }

  lemma BackFrame(env: Env, g: Slice, n: string, k: Name, item: (Name, string),
          sources: map<(Name, string), Option<string>>, source: Option<string>)
    requires k != item.0
    ensures Back(env, g, n, k, sources[item := source]) == Back(env, g, n, k, sources)
  {
  }
}
