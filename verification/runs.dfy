/**
  Whole runs of one keygroup: client requests at any node, nodes that start again, and
  links and trigger hosts that come and go, in any order.
 */
module Runs {
  import opened Numerals
  import opened LocalStore
  import opened Records
  import opened Protocol
  import opened Convergence
  import opened AddingReplicas

  datatype World = World(env: Env, g: Slice)

  datatype Event =
    | Client(self: string, req: Request, ch: Choice)
    | Start(node: string, sources: map<string, Option<string>>)
    | Network(links: set<(string, string)>, hosts: set<string>)

  function Next(w: World, e: Event): World {
    match e
    case Client(self, req, ch) => w.(g := Handle(w.env, w.g, self, req, ch).g)
    case Start(n, sources) => World(w.env.(nodes := w.env.nodes + {n}), Recover(w.env, w.g, n, sources))
    case Network(links, hosts) => w.(env := w.env.(links := links, hosts := hosts))
  }

  function Run(w: World, events: seq<Event>): World
    decreases |events|
  {
    if events == [] then w else Run(Next(w, events[0]), events[1..])
  }

  /** An event that can happen: a running node takes a request, and open choices are made as the code makes them. */
  ghost predicate Possible(w: World, e: Event) {
    match e
    case Client(self, req, ch) => self in w.env.nodes && ValidRequest(w.g, self, req, ch)
    case Start(n, sources) => ValidSources(w.g, n, sources)
    case Network(_, _) => true
  }

  /** Every request is delivered, and replicas are added through a node that can serve them. */
  ghost predicate Orderly(w: World, e: Event) {
    && Possible(w, e)
    && (e.Client? ==> Delivered(w.env))
    && (e.Client? && e.req.AddReplica? ==> Served(w.env, w.g, e.self, e.req.user, e.req.node))
  }

  ghost predicate PossibleRun(w: World, events: seq<Event>)
    decreases |events|
  {
    events == [] || (Possible(w, events[0]) && PossibleRun(Next(w, events[0]), events[1..]))
  }

  ghost predicate OrderlyRun(w: World, events: seq<Event>)
    decreases |events|
  {
    events == [] || (Orderly(w, events[0]) && OrderlyRun(Next(w, events[0]), events[1..]))
  }

  function ContentNext(w: World, e: Event, content: Content): Content {
    if e.Client? then ContentAfter(w.g, e.self, e.req, content) else content
  }

  function ContentRun(w: World, events: seq<Event>, content: Content): Content
    decreases |events|
  {
    if events == [] then content
    else ContentRun(Next(w, events[0]), events[1..], ContentNext(w, events[0], content))
  }

  lemma RequestConverges(env: Env, g: Slice, self: string, req: Request, ch: Choice, content: Content)
    requires Healthy(env.nodes, g, content) && Delivered(env) && self in env.nodes && ValidRequest(g, self, req, ch)
    requires req.AddReplica? ==> Served(env, g, self, req.user, req.node)
    ensures Healthy(env.nodes, Handle(env, g, self, req, ch).g, ContentAfter(g, self, req, content))
  {
    hide Healthy, HandleCreate, HandleDrop, HandleUpdate, HandleAppend, HandleDelete, HandleAddReplica,
        HandleRemoveReplica, Served, ValidChoice;
    match req
    case CreateKeygroup(user, mutable, expiry) => CreateConverges(env, g, self, user, mutable, expiry, content);
    case DeleteKeygroup(user) => DropConverges(env, g, self, user, content);
    case Update(user, id, val) => UpdateConverges(env, g, self, user, id, val, content);
    case AppendItem(user, val) => AppendConverges(env, g, self, user, val, content);
    case Delete(user, id) => DeleteConverges(env, g, self, user, id, content);
    case AddReplica(user, node, expiry) => AddReplicaConverges(env, g, self, user, node, expiry, ch, content);
    case RemoveReplica(user, node) => RemoveReplicaConverges(env, g, self, user, node, content);
    case _ => OthersConverge(env, g, self, req, ch, content);
  }

  /** A node that starts again among members that agree gets back what it has. */
  lemma RecoverConverges(env: Env, g: Slice, n: string, sources: map<string, Option<string>>, content: Content)
    requires Healthy(env.nodes, g, content) && ValidSources(g, n, sources)
    ensures Healthy(env.nodes + {n}, Recover(env, g, n, sources), content)
  {
    var s := SiteOf(g, n);
    assert SiteFits(s, g.record.created && n in g.record.ok, content, !g.record.mutable);
    if s.store.present {
      forall id | id in Fetched(env, g, n, sources)
          ensures id in content && Fetched(env, g, n, sources)[id] == content[id] {
        var m := sources[id].value;
        assert m in Others(g.record, n);
        assert SiteFits(SiteOf(g, m), true, content, !g.record.mutable);
      }
      assert s.store.items + Fetched(env, g, n, sources) == content;
    } else {
      assert s.store.items + map[] == s.store.items;
    }
    var g' := Recover(env, g, n, sources);
    assert SiteOf(g', n) == s;
    forall m ensures SiteFits(SiteOf(g', m), g.record.created && m in g.record.ok, content, !g.record.mutable) {
      assert SiteOf(g', m) == SiteOf(g, m);
      assert SiteFits(SiteOf(g, m), g.record.created && m in g.record.ok, content, !g.record.mutable);
    }
  }

  lemma EventConverges(w: World, e: Event, content: Content)
    requires Healthy(w.env.nodes, w.g, content) && Orderly(w, e)
    ensures Healthy(Next(w, e).env.nodes, Next(w, e).g, ContentNext(w, e, content))
  {
    hide Healthy, Handle, Recover, Served, ContentAfter, ValidRequest, ValidSources;
    match e
    case Client(self, req, ch) => RequestConverges(w.env, w.g, self, req, ch, content);
    case Start(n, sources) => RecoverConverges(w.env, w.g, n, sources, content);
    case Network(_, _) =>
  }

  /** Convergence: after any orderly run the members, and only they, store the keygroup, and every
      one of them holds exactly what the single copy holds. */
  lemma {:induction false} RunConverges(w: World, events: seq<Event>, content: Content)
    requires Healthy(w.env.nodes, w.g, content) && OrderlyRun(w, events)
    ensures Healthy(Run(w, events).env.nodes, Run(w, events).g, ContentRun(w, events, content))
    decreases |events|
  {
    hide Healthy, Orderly, Next, ContentNext;
    if events != [] {
      EventConverges(w, events[0], content);
      RunConverges(Next(w, events[0]), events[1..], ContentNext(w, events[0], content));
    }
  }

  /** The empty system, from which every run starts. */
  lemma InitialIsHealthy(nodes: set<string>)
    ensures Healthy(nodes, NO_SLICE, map[])
  {
  }

  // ---- write-once logs ----

  /** An append takes an id that no member uses. */
  lemma AppendIsFresh(env: Env, g: Slice, self: string, content: Content)
    requires Healthy(env.nodes, g, content) && g.record.created && !g.record.mutable && self in g.record.ok
    ensures forall n | n in g.record.ok :: Format(SiteOf(g, self).store.next) !in SiteOf(g, n).store.items
  {
    assert SiteFits(SiteOf(g, self), true, content, true);
    FormatIsLogId(SiteOf(g, self).store.next);
    forall n | n in g.record.ok { ItemsAre(g, n, content); }
  }

  ghost predicate Grows(before: Content, after: Content) {
    forall id | id in before :: id in after && after[id] == before[id]
  }

  /** A request to delete after which the keygroup still exists was refused, and changed nothing. */
  lemma RefusedDrop(env: Env, g: Slice, self: string, user: string, content: Content)
    requires Healthy(env.nodes, g, content) && g.record.created
    requires HandleDrop(env, g, self, user).g.record.created
    ensures HandleDrop(env, g, self, user).g == g && ContentAfter(g, self, DeleteKeygroup(user), content) == content
  {
    if self in g.record.ok { ItemsAre(g, self, content); }
  }

  lemma LogEvent(w: World, e: Event, content: Content)
    requires Healthy(w.env.nodes, w.g, content) && Orderly(w, e)
    requires w.g.record.created && !w.g.record.mutable && Next(w, e).g.record.created
    ensures Grows(content, ContentNext(w, e, content)) && !Next(w, e).g.record.mutable
  {
    hide Served, Delivered;
    if e.Client? {
      if e.req.AppendItem? && e.self in w.g.record.ok {
        AppendIsFresh(w.env, w.g, e.self, content);
        ItemsOfMember(w.env.nodes, w.g, e.self, content);
      }
      RecordAfter(w.env, w.g, e.self, e.req, e.ch);
      if e.req.DeleteKeygroup? { RefusedDrop(w.env, w.g, e.self, e.req.user, content); }
      hide Handle, Healthy;
    }
  }

  lemma ItemsOfMember(nodes: set<string>, g: Slice, n: string, content: Content)
    requires Healthy(nodes, g, content) && g.record.created && n in g.record.ok
    ensures SiteOf(g, n).store.present && SiteOf(g, n).store.items == content
  {
  }

  lemma {:induction false} CopyAllRecord(env: Env, g: Slice, self: string, n: string, items: map<string, string>,
          order: seq<string>)
    requires forall id | id in order :: id in items
    ensures CopyAll(env, g, self, n, items, order).record == g.record
    ensures CopyAll(env, g, self, n, items, order).perms == g.perms
    decreases |order|
  {
    if order != [] {
      var c := Copy(g.record.mutable, order[0], items[order[0]]);
      RelayRecord(env, g, self, {n}, c);
      CopyAllRecord(env, Relay(env, g, self, {n}, c), self, n, items, order[1..]);
    }
  }

  /** What a request does to the name service record, whatever happens to its messages. */
  lemma RecordAfter(env: Env, g: Slice, self: string, req: Request, ch: Choice)
    ensures var r, r' := g.record, Handle(env, g, self, req, ch).g.record;
      match req
      case CreateKeygroup(_, mutable, expiry) =>
        r' == if r.created then r else Record(true, mutable, {self}, r.expiry[self := expiry])
      case DeleteKeygroup(user) =>
        r' == if Allowed(g, user, "DeleteKeygroup") && r.created && SiteOf(g, self).store.present
          then r.(created := false) else r
      case AddReplica(user, n, expiry) =>
        r' == if Allowed(g, user, "AddReplica") && r.created && n in env.nodes
          then r.(ok := r.ok + {n}, expiry := r.expiry[n := expiry]) else r
      case RemoveReplica(user, n) =>
        r' == if Allowed(g, user, "RemoveReplica") && r.created && n in env.nodes && n in r.ok && |r.ok| > 1
            && (self, n) in env.links && SiteOf(g, n).store.present
          then r.(ok := r.ok - {n}) else r
      case _ => r' == r
  {
    hide Relay, Notify, Receive, CopyAll, Opened;
    match req
    case Update(_, id, val) => RelayRecord(env, g, self, g.record.ok - {self}, Put(id, val));
    case AppendItem(_, val) =>
      var s := SiteOf(g, self);
      RelayRecord(env, WithSite(g, self, s.(store := AppendNew(s.store, val))), self, g.record.ok - {self},
          Append(Format(s.store.next), val));
    case Delete(_, id) =>
      var s := SiteOf(g, self);
      RelayRecord(env, WithSite(g, self, s.(store := s.store.(items := s.store.items - {id}))), self,
          g.record.ok - {self}, Remove(id));
    case AddReplica(_, n, expiry) =>
      var g2 := Joined(g, n, expiry);
      var from := if n != self then self else if ch.source.Some? then ch.source.value else self;
      var items := SiteOf(g2, from).store.items;
      if forall id | id in ch.order :: id in items { CopyAllRecord(env, g2, self, n, items, ch.order); }
    case _ =>
  }

  /** The keygroup exists all along the run. */
  ghost predicate StaysCreated(w: World, events: seq<Event>)
    decreases |events|
  {
    w.g.record.created && (events == [] || StaysCreated(Next(w, events[0]), events[1..]))
  }

  /** Write-once logs: as long as an immutable keygroup exists, no item of the log changes or goes. */
  lemma {:induction false} RunKeepsLog(w: World, events: seq<Event>, content: Content)
    requires Healthy(w.env.nodes, w.g, content) && OrderlyRun(w, events) && StaysCreated(w, events)
    requires !w.g.record.mutable
    ensures Grows(content, ContentRun(w, events, content))
    ensures Run(w, events).g.record.created && !Run(w, events).g.record.mutable
    decreases |events|
  {
    hide Healthy, Orderly, Next, ContentNext;
    if events != [] {
      assert Next(w, events[0]).g.record.created;
      LogEvent(w, events[0], content);
      EventConverges(w, events[0], content);
      RunKeepsLog(Next(w, events[0]), events[1..], ContentNext(w, events[0], content));
    }
  }

  /** The same seen from the replicas: what any member stored at the start, any member stores at
      the end, whether or not it was one all the time. */
  lemma RunKeepsItems(w: World, events: seq<Event>, content: Content, m: string, n: string, id: string)
    requires Healthy(w.env.nodes, w.g, content) && OrderlyRun(w, events) && StaysCreated(w, events)
    requires !w.g.record.mutable
    requires m in w.g.record.ok && id in SiteOf(w.g, m).store.items && n in Run(w, events).g.record.ok
    ensures var after := SiteOf(Run(w, events).g, n).store;
      after.present && id in after.items && after.items[id] == SiteOf(w.g, m).store.items[id]
  {
    assert w.g.record.created;
    hide Run, ContentRun, Healthy, OrderlyRun, StaysCreated;
    ItemsOfMember(w.env.nodes, w.g, m, content);
    RunKeepsLog(w, events, content);
    RunConverges(w, events, content);
    ItemsOfMember(Run(w, events).env.nodes, Run(w, events).g, n, ContentRun(w, events, content));
  }
}
