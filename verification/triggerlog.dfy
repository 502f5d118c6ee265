/**
  Trigger logs. A trigger that starts from a node's items at its registration and replays
  what the node tells it ends with the node's current items, as long as its host answers.
  The one exception is a node that still stores a keygroup which was deleted without it.
 */
module TriggerLog {
  import opened Fields
  import opened Numerals
  import opened LocalStore
  import opened Records
  import opened Protocol
  import opened Sites
  import opened Runs
  import opened Effects

  function Heard(items: map<string, string>, note: Note): map<string, string> {
    match note
    case Wrote(id, val) => items[id := val]
    case Deleted(id) => items - {id}
  }

  function Replay(since: map<string, string>, got: seq<Note>): map<string, string> {
    if got == [] then since else Heard(Replay(since, got[..|got| - 1]), got[|got| - 1])
  }

  /** Every trigger on a host in `steady` can rebuild the node's items from what it was told. */
  ghost predicate Replayed(s: Site, steady: set<string>) {
    forall t | t in s.inboxes && t in s.store.triggers && s.store.triggers[t] in steady ::
      Replay(s.inboxes[t].since, s.inboxes[t].got) == s.store.items
  }

  ghost predicate SiteReplays(s: Site, steady: set<string>) {
    Tidy(s) && Replayed(s, steady)
  }

  ghost predicate AllReplayed(g: Slice, steady: set<string>) {
    forall n :: SiteReplays(SiteOf(g, n), steady)
  }

  lemma ReplayOneMore(since: map<string, string>, got: seq<Note>, note: Note)
    ensures Replay(since, got + [note]) == Heard(Replay(since, got), note)
  {
    assert (got + [note])[..|got|] == got;
  }

  /** A trigger that is told of a write replays to the written items. */
  lemma ToldOf(inbox: Inbox, l: Local, c: Change)
    requires Replay(inbox.since, inbox.got) == l.items && Acceptable(c)
    ensures Replay(inbox.since, inbox.got + [NoteOf(c)]) == Apply(l, c).items
  {
    hide Replay, Acceptable;
    ReplayOneMore(inbox.since, inbox.got, NoteOf(c));
  }

  lemma ReceiveReplays(s: Site, hosts: set<string>, steady: set<string>, c: Change)
    requires SiteReplays(s, steady) && steady <= hosts
    ensures SiteReplays(Receive(s, hosts, c), steady)
  {
    if s.store.present && Acceptable(c) {
      ReceiveStores(s, hosts, c);
      var s' := Receive(s, hosts, c);
      hide Replay, Apply, Tidy, Acceptable;
      forall t | t in s'.inboxes && t in s'.store.triggers && s'.store.triggers[t] in steady
        ensures Replay(s'.inboxes[t].since, s'.inboxes[t].got) == s'.store.items
      {
        SameTriggers(s.store, c);
        ToldOf(s.inboxes[t], s.store, c);
      }
    }
  }

  lemma SameTriggers(l: Local, c: Change)
    requires Acceptable(c)
    ensures Apply(l, c).triggers == l.triggers
  {
  }

  lemma RelayReplays(env: Env, g: Slice, self: string, targets: set<string>, c: Change, steady: set<string>)
    requires AllReplayed(g, steady) && steady <= env.hosts
    ensures AllReplayed(Relay(env, g, self, targets, c), steady)
  {
    hide Receive, SiteReplays;
    forall n ensures SiteReplays(SiteOf(Relay(env, g, self, targets, c), n), steady) {
      RelayAt(env, g, self, targets, c, n);
      ReceiveReplays(SiteOf(g, n), env.hosts, steady, c);
    }
  }

  /** Relaying to the others after a local write, and telling the local triggers last. */
  lemma FinishReplays(env: Env, g: Slice, self: string, c: Change, store: Local, steady: set<string>)
    requires AllReplayed(g, steady) && steady <= env.hosts && SiteOf(g, self).store.present
    requires Acceptable(c) && store == Apply(SiteOf(g, self).store, c)
    ensures AllReplayed(Finish(env,
      Relay(env, WithSite(g, self, SiteOf(g, self).(store := store)), self, g.record.ok - {self}, c),
      self, NoteOf(c)).g, steady)
  {
    var s := SiteOf(g, self);
    var g1 := WithSite(g, self, s.(store := store));
    var targets := g.record.ok - {self};
    assert Receive(s, env.hosts, c) == Notify(s.(store := store), env.hosts, NoteOf(c));
    hide Receive, SiteReplays, Relay, Notify, Apply;
    ReceiveReplays(s, env.hosts, steady, c);
    RelayAt(env, g1, self, targets, c, self);
    var r := Relay(env, g1, self, targets, c);
    var h := Finish(env, r, self, NoteOf(c)).g;
    forall n ensures SiteReplays(SiteOf(h, n), steady) {
      RelayAt(env, g1, self, targets, c, n);
      ReceiveReplays(SiteOf(g, n), env.hosts, steady, c);
      assert n != self ==> SiteOf(h, n) == SiteOf(r, n);
    }
  }

  lemma WithSiteReplays(g: Slice, n: string, s: Site, steady: set<string>)
    requires AllReplayed(g, steady) && SiteReplays(s, steady)
    ensures AllReplayed(WithSite(g, n, s), steady)
  {
    hide SiteReplays;
    forall m ensures SiteReplays(SiteOf(WithSite(g, n, s), m), steady) {
      assert SiteReplays(SiteOf(g, m), steady);
    }
  }

  lemma {:induction false} CopyAllReplays(env: Env, g: Slice, self: string, n: string, items: map<string, string>,
          order: seq<string>, steady: set<string>)
    requires AllReplayed(g, steady) && steady <= env.hosts && forall id | id in order :: id in items
    ensures AllReplayed(CopyAll(env, g, self, n, items, order), steady)
    decreases |order|
  {
    if order != [] {
      var c := Copy(g.record.mutable, order[0], items[order[0]]);
      hide Relay, AllReplayed;
      RelayReplays(env, g, self, {n}, c, steady);
      CopyAllReplays(env, Relay(env, g, self, {n}, c), self, n, items, order[1..], steady);
    }
  }

  /** The coordinator stores the keygroup, the name service does not know it any more, and the
      request changes an item: the item is written, the relay is refused, no trigger is told. */
  ghost predicate StaleWrite(g: Slice, self: string, req: Request) {
    var l := SiteOf(g, self).store;
    l.present && !g.record.created &&
      match req
      case AppendItem(user, val) => Allowed(g, user, "Update") && !g.record.mutable
        && !(Format(l.next) in l.items && l.items[Format(l.next)] == val)
      case Delete(user, id) => Allowed(g, user, "Delete") && g.record.mutable && id in l.items
      case _ => false
  }

  ghost predicate HasSteadyTrigger(g: Slice, self: string, steady: set<string>) {
    exists t | t in SiteOf(g, self).store.triggers :: SiteOf(g, self).store.triggers[t] in steady
  }

  lemma OtherRequestsReplay(env: Env, g: Slice, self: string, req: Request, ch: Choice, steady: set<string>)
    requires AllReplayed(g, steady)
    requires !req.Update? && !req.AppendItem? && !req.Delete? && !req.AddReplica? && !req.DeleteKeygroup?
    ensures AllReplayed(Handle(env, g, self, req, ch).g, steady)
  {
    var h := Handle(env, g, self, req, ch).g;
    forall n ensures SiteReplays(SiteOf(h, n), steady) {
      assert SiteReplays(SiteOf(g, n), steady);
    }
  }

  lemma DropReplays(env: Env, g: Slice, self: string, user: string, steady: set<string>)
    requires AllReplayed(g, steady)
    ensures AllReplayed(HandleDrop(env, g, self, user).g, steady)
  {
    var h := HandleDrop(env, g, self, user).g;
    forall n ensures SiteReplays(SiteOf(h, n), steady) {
      assert SiteReplays(SiteOf(g, n), steady) && SiteReplays(SiteOf(g, self), steady);
      CloseAllAt(env, WithSite(g, self, Close(SiteOf(g, self))), self, g.record.ok - {self}, n);
    }
  }

  lemma AddReplicaReplays(env: Env, g: Slice, self: string, user: string, n: string, expiry: int, ch: Choice,
          steady: set<string>)
    requires AllReplayed(g, steady) && steady <= env.hosts
    ensures AllReplayed(HandleAddReplica(env, g, self, user, n, expiry, ch).g, steady)
  {
    var g1 := g.(record := WithMember(g.record, n, expiry));
    var g2 := WithSite(g1, n, Open(SiteOf(g, n)));
    forall m ensures SiteReplays(SiteOf(g1, m), steady) { assert SiteReplays(SiteOf(g, m), steady); }
    if !SiteOf(g, n).store.present {
      forall m ensures SiteReplays(SiteOf(g2, m), steady) { assert SiteReplays(SiteOf(g, m), steady); }
      var from := if n != self then self else if ch.source.Some? then ch.source.value else self;
      var items := SiteOf(g2, from).store.items;
      hide AllReplayed, CopyAll;
      if forall id | id in ch.order :: id in items { CopyAllReplays(env, g2, self, n, items, ch.order, steady); }
    }
  }

  lemma WritesReplay(env: Env, g: Slice, self: string, req: Request, ch: Choice, steady: set<string>)
    requires AllReplayed(g, steady) && steady <= env.hosts
    requires req.Update? || ((req.AppendItem? || req.Delete?) && (g.record.created || !SiteOf(g, self).store.present))
    ensures AllReplayed(Handle(env, g, self, req, ch).g, steady)
  {
    var s := SiteOf(g, self);
    match req
    case Update(_, id, val) =>
      var c := Put(id, val);
      hide Relay, Receive, SiteReplays;
      RelayReplays(env, g, self, g.record.ok - {self}, c, steady);
      var g1 := Relay(env, g, self, g.record.ok - {self}, c);
      ReceiveReplays(SiteOf(g1, self), env.hosts, steady, c);
      WithSiteReplays(g1, self, Receive(SiteOf(g1, self), env.hosts, c), steady);
    case AppendItem(_, val) =>
      AppendNewIsAppend(s.store, val);
      if s.store.present {
        hide Relay, Finish, AllReplayed, Acceptable, AppendNew, Apply;
        FinishReplays(env, g, self, Append(Format(s.store.next), val), AppendNew(s.store, val), steady);
      }
    case Delete(_, id) =>
      if s.store.present && Alnum(id) {
        hide Relay, Finish, AllReplayed, Apply;
        FinishReplays(env, g, self, Remove(id), Apply(s.store, Remove(id)), steady);
      }
    case _ =>
  }

  /** A write that no trigger hears of leaves every trigger behind, and harms nobody without triggers. */
  lemma StaleWriteReplays(env: Env, g: Slice, self: string, req: Request, ch: Choice, steady: set<string>)
    requires AllReplayed(g, steady)
    requires (req.AppendItem? || req.Delete?) && !g.record.created && SiteOf(g, self).store.present
    ensures AllReplayed(Handle(env, g, self, req, ch).g, steady)
      <==> !(StaleWrite(g, self, req) && HasSteadyTrigger(g, self, steady))
  {
    var h := Handle(env, g, self, req, ch).g;
    var s, s' := SiteOf(g, self), SiteOf(h, self);
    assert SiteReplays(s, steady);
    assert StaleWrite(g, self, req) <==> s'.store.items != s.store.items by { StaleWriteWrites(env, g, self, req, ch); }
    assert s'.inboxes == s.inboxes && s'.store.triggers == s.store.triggers && s'.store.present;
    forall n | n != self ensures SiteReplays(SiteOf(h, n), steady) { assert SiteReplays(SiteOf(g, n), steady); }
    StillTidy(env, g, self, req, ch);
    if s'.store.items != s.store.items && HasSteadyTrigger(g, self, steady) {
      var t :| t in s.store.triggers && s.store.triggers[t] in steady;
      assert t in s.inboxes && Replay(s.inboxes[t].since, s.inboxes[t].got) == s.store.items;
      assert !Replayed(s', steady);
    } else {
      assert Replayed(s', steady);
    }
  }

  lemma StaleWriteWrites(env: Env, g: Slice, self: string, req: Request, ch: Choice)
    requires (req.AppendItem? || req.Delete?) && !g.record.created && SiteOf(g, self).store.present
      && Tidy(SiteOf(g, self))
    ensures StaleWrite(g, self, req)
      <==> SiteOf(Handle(env, g, self, req, ch).g, self).store.items != SiteOf(g, self).store.items
  {
  }

  lemma StillTidy(env: Env, g: Slice, self: string, req: Request, ch: Choice)
    requires (req.AppendItem? || req.Delete?) && !g.record.created && Tidy(SiteOf(g, self))
    ensures Tidy(SiteOf(Handle(env, g, self, req, ch).g, self))
  {
  }

  /** A request keeps every steady trigger able to rebuild its node's items if and only if it is not
      a write at a stale copy that has such a trigger. */
  lemma RequestReplaysExactly(env: Env, g: Slice, self: string, req: Request, ch: Choice, steady: set<string>)
    requires AllReplayed(g, steady) && steady <= env.hosts
    ensures AllReplayed(Handle(env, g, self, req, ch).g, steady)
      <==> !(StaleWrite(g, self, req) && HasSteadyTrigger(g, self, steady))
  {
    if req.AddReplica? {
      hide AllReplayed, HandleAddReplica;
      AddReplicaReplays(env, g, self, req.user, req.node, req.expiry, ch, steady);
    } else {
      assert req.DeleteKeygroup? ==> Handle(env, g, self, req, ch) == HandleDrop(env, g, self, req.user);
      hide AllReplayed, Handle, HandleDrop;
      if (req.AppendItem? || req.Delete?) && !g.record.created && SiteOf(g, self).store.present {
        StaleWriteReplays(env, g, self, req, ch, steady);
      } else if req.Update? || req.AppendItem? || req.Delete? {
        WritesReplay(env, g, self, req, ch, steady);
      } else if req.DeleteKeygroup? {
        DropReplays(env, g, self, req.user, steady);
      } else {
        OtherRequestsReplay(env, g, self, req, ch, steady);
      }
    }
  }

  /** The restarted node fetches a value that it does not hold. */
  ghost predicate BringsNews(env: Env, g: Slice, n: string, sources: map<string, Option<string>>) {
    var l, got := SiteOf(g, n).store, Fetched(env, g, n, sources);
    l.present && exists id | id in got :: !(id in l.items && l.items[id] == got[id])
  }

  /** A restart keeps every steady trigger able to rebuild its node's items if and only if it does not
      bring news to a node that has such a trigger. */
  lemma StartReplaysExactly(env: Env, g: Slice, n: string, sources: map<string, Option<string>>, steady: set<string>)
    requires AllReplayed(g, steady)
    ensures AllReplayed(Recover(env, g, n, sources), steady)
      <==> !(BringsNews(env, g, n, sources) && HasSteadyTrigger(g, n, steady))
  {
    var h := Recover(env, g, n, sources);
    var s, s' := SiteOf(g, n), SiteOf(h, n);
    assert SiteReplays(s, steady);
    forall m | m != n ensures SiteReplays(SiteOf(h, m), steady) { assert SiteOf(h, m) == SiteOf(g, m); }
    assert BringsNews(env, g, n, sources) <==> s'.store.items != s.store.items by { NewsAreNew(env, g, n, sources); }
    assert s'.inboxes == s.inboxes && s'.store.triggers == s.store.triggers && Tidy(s');
    if s'.store.items != s.store.items && HasSteadyTrigger(g, n, steady) {
      var t :| t in s.store.triggers && s.store.triggers[t] in steady;
      assert t in s.inboxes && Replay(s.inboxes[t].since, s.inboxes[t].got) == s.store.items;
      assert !Replayed(s', steady);
    } else {
      assert Replayed(s', steady);
    }
  }

  lemma NewsAreNew(env: Env, g: Slice, n: string, sources: map<string, Option<string>>)
    requires Tidy(SiteOf(g, n))
    ensures BringsNews(env, g, n, sources)
      <==> SiteOf(Recover(env, g, n, sources), n).store.items != SiteOf(g, n).store.items
  {
    var l, got := SiteOf(g, n).store, Fetched(env, g, n, sources);
    hide Fetched;
    if !BringsNews(env, g, n, sources) {
      assert l.items + (if l.present then got else map[]) == l.items;
    } else {
      var id :| id in got && !(id in l.items && l.items[id] == got[id]);
      assert id in l.items + got && (l.items + got)[id] == got[id];
    }
  }

  /** No node with a steady trigger writes to a stale copy or is brought news, and the steady hosts answer. */
  ghost predicate Audible(w: World, e: Event, steady: set<string>) {
    match e
    case Client(self, req, _) => !(StaleWrite(w.g, self, req) && HasSteadyTrigger(w.g, self, steady))
    case Start(n, sources) => !(BringsNews(w.env, w.g, n, sources) && HasSteadyTrigger(w.g, n, steady))
    case Network(_, hosts) => steady <= hosts
  }

  ghost predicate AudibleRun(w: World, events: seq<Event>, steady: set<string>)
    decreases |events|
  {
    events == [] || (Audible(w, events[0], steady) && AudibleRun(Next(w, events[0]), events[1..], steady))
  }

  /** Trigger log replay, over every audible run: links may fail and members come and go. */
  lemma {:induction false} RunReplays(w: World, events: seq<Event>, steady: set<string>)
    requires AllReplayed(w.g, steady) && steady <= w.env.hosts && AudibleRun(w, events, steady)
    ensures AllReplayed(Run(w, events).g, steady)
    decreases |events|
  {
    if events != [] {
      hide AllReplayed, Handle, Recover, StaleWrite, HasSteadyTrigger;
      match events[0] {
        case Client(self, req, ch) => RequestReplaysExactly(w.env, w.g, self, req, ch, steady);
        case Start(n, sources) => StartReplaysExactly(w.env, w.g, n, sources, steady);
        case Network(_, _) =>
      }
      RunReplays(Next(w, events[0]), events[1..], steady);
    }
  }

  // ---- from registration on ----

  /** The event neither removes the trigger, nor registers it anew, nor closes the node's copy. */
  ghost predicate Keeps(w: World, e: Event, n: string, tid: string) {
    && Stores(Next(w, e).g, n)
    && !(e.Client? && e.self == n
        && ((e.req.RemoveTrigger? && e.req.tid == tid) || (e.req.AddTrigger? && e.req.tid == tid)))
  }

  ghost predicate KeepingRun(w: World, events: seq<Event>, n: string, tid: string)
    decreases |events|
  {
    events == [] || (Keeps(w, events[0], n, tid) && KeepingRun(Next(w, events[0]), events[1..], n, tid))
  }

  /** The trigger is registered with this host, started from `since`, and has heard at least `got`. */
  ghost predicate Listening(g: Slice, n: string, tid: string, host: string, since: map<string, string>,
          got: seq<Note>) {
    var s := SiteOf(g, n);
    && s.store.present && tid in s.store.triggers && s.store.triggers[tid] == host
    && tid in s.inboxes && s.inboxes[tid].since == since && got <= s.inboxes[tid].got
  }

  lemma SpreadKeepsListening(env: Env, g: Slice, h: Slice, self: string, c: Change, n: string, tid: string,
          host: string,
          since: map<string, string>, got: seq<Note>)
    requires Spread(env, g, h, self, c) && Listening(g, n, tid, host, since, got)
    ensures Listening(h, n, tid, host, since, got)
  {
    assert SpreadAt(env, g, h, self, c, n);
    if Takes(env, g, self, n, c) {
      var s, s' := SiteOf(g, n), SiteOf(h, n);
      assert InboxAfter(s, s'.inboxes[tid], env.hosts, tid, if c.Remove? then Deleted(c.id) else Wrote(c.id, c.val));
    }
  }

  lemma WriteKeepsListening(env: Env, g: Slice, self: string, req: Request, ch: Choice, n: string, tid: string,
          host: string, since: map<string, string>, got: seq<Note>)
    requires (req.Update? || req.AppendItem? || req.Delete?) && Listening(g, n, tid, host, since, got)
    ensures Listening(Handle(env, g, self, req, ch).g, n, tid, host, since, got)
  {
    var h := Handle(env, g, self, req, ch).g;
    hide Relay, Spread, Receive, Finish, Notify;
    if !Permitted(g, req) {
      UnpermittedChangesNothing(env, g, self, req, ch);
    } else if TurnedDown(g, self, req) {
      TurnedDownChangesNothing(env, g, self, req, ch);
    } else if req.Update? {
      UpdateSpreads(env, g, self, req.user, req.id, req.val);
      hide Handle;
      SpreadKeepsListening(env, g, h, self, Put(req.id, req.val), n, tid, host, since, got);
    } else if !g.record.created {
      StaleWriteIsLocal(env, g, self, req, ch);
    } else if req.AppendItem? {
      var c := Append(Format(SiteOf(g, self).store.next), req.val);
      AppendSpreads(env, g, self, req.user, req.val);
      hide Handle;
      SpreadKeepsListening(env, g, h, self, c, n, tid, host, since, got);
    } else {
      DeleteSpreads(env, g, self, req.user, req.id);
      hide Handle;
      SpreadKeepsListening(env, g, h, self, Remove(req.id), n, tid, host, since, got);
    }
  }

  lemma RequestKeepsListening(env: Env, g: Slice, self: string, req: Request, ch: Choice, n: string, tid: string,
          host: string, since: map<string, string>, got: seq<Note>)
    requires Listening(g, n, tid, host, since, got) && Stores(Handle(env, g, self, req, ch).g, n)
    requires self == n ==> !(req.RemoveTrigger? && req.tid == tid) && !(req.AddTrigger? && req.tid == tid)
    ensures Listening(Handle(env, g, self, req, ch).g, n, tid, host, since, got)
  {
    hide CopyFrom, CloseAll, HandleUpdate, HandleAppend, HandleDelete, HandleAddReplica;
    if req.Update? || req.AppendItem? || req.Delete? {
      hide Handle, Listening;
      WriteKeepsListening(env, g, self, req, ch, n, tid, host, since, got);
    } else if req.DeleteKeygroup? {
      if Permitted(g, req) && Stores(g, self) { DeleteKeygroupEffect(env, g, self, req.user, ch); }
    } else if req.AddReplica? {
      if Allowed(g, req.user, "AddReplica") && g.record.created && req.node in env.nodes {
        AddReplicaEffect(env, g, self, req.user, req.node, req.expiry, ch);
      } else {
        RefusedReplica(env, g, self, req.user, req.node, req.expiry, ch);
      }
    }
  }

  lemma RefusedReplica(env: Env, g: Slice, self: string, user: string, n: string, expiry: int, ch: Choice)
    requires !(Allowed(g, user, "AddReplica") && g.record.created && n in env.nodes)
    ensures HandleAddReplica(env, g, self, user, n, expiry, ch) == Reply(g, false)
  {
  }

  /** A registered trigger stays registered, and keeps what it heard, until it is removed or registered
      anew or the node's copy is closed. */
  lemma {:induction false} RunKeepsListening(w: World, events: seq<Event>, n: string, tid: string, host: string,
          since: map<string, string>, got: seq<Note>)
    requires Listening(w.g, n, tid, host, since, got) && KeepingRun(w, events, n, tid)
    ensures Listening(Run(w, events).g, n, tid, host, since, got)
    decreases |events|
  {
    if events != [] {
      var e := events[0];
      assert Listening(Next(w, e).g, n, tid, host, since, got) by {
        match e {
          case Client(self, req, ch) =>
            hide Handle, Listening;
            RequestKeepsListening(w.env, w.g, self, req, ch, n, tid, host, since, got);
          case Start(m, sources) => hide Fetched;
          case Network(_, _) =>
        }
      }
      hide Next, Listening, Keeps;
      RunKeepsListening(Next(w, e), events[1..], n, tid, host, since, got);
    }
  }

  /** The whole way: a trigger that is registered with success and not dismissed since is still registered,
      and replaying what it was told over the items at its registration gives the node's items. */
  lemma RegisteredTriggerReplays(w: World, n: string, user: string, tid: string, host: string, ch: Choice,
          events: seq<Event>, steady: set<string>)
    requires AllReplayed(w.g, steady) && steady <= w.env.hosts && host in steady && tid != ""
    requires var req := AddTrigger(user, tid, host); var w' := Next(w, Client(n, req, ch));
      Succeeds(w.env, w.g, n, req, ch) && AudibleRun(w', events, steady) && KeepingRun(w', events, n, tid)
    ensures var s := SiteOf(Run(Next(w, Client(n, AddTrigger(user, tid, host), ch)), events).g, n);
      && tid in s.store.triggers && s.store.triggers[tid] == host && tid in s.inboxes
      && s.inboxes[tid].since == SiteOf(w.g, n).store.items
      && Replay(SiteOf(w.g, n).store.items, s.inboxes[tid].got) == s.store.items
  {
    var w' := Next(w, Client(n, AddTrigger(user, tid, host), ch));
    AddTriggerEffect(w.env, w.g, n, user, tid, host, ch);
    RequestReplaysExactly(w.env, w.g, n, AddTrigger(user, tid, host), ch, steady);
    assert Listening(w'.g, n, tid, host, SiteOf(w.g, n).store.items, []);
    assert w'.env == w.env && AllReplayed(w'.g, steady);
    hide Run, Next, AudibleRun, KeepingRun, Handle, Succeeds, AllReplayed;
    RunKeepsListening(w', events, n, tid, host, SiteOf(w.g, n).store.items, []);
    RunReplays(w', events, steady);
    ReplayedAt(Run(w', events).g, n, tid, steady);
  }

  lemma ReplayedAt(g: Slice, n: string, tid: string, steady: set<string>)
    requires AllReplayed(g, steady)
    ensures var s := SiteOf(g, n); tid in s.inboxes && tid in s.store.triggers && s.store.triggers[tid] in steady ==>
      Replay(s.inboxes[tid].since, s.inboxes[tid].got) == s.store.items
  {
    assert SiteReplays(SiteOf(g, n), steady);
  }
}
