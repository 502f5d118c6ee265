/**
  What no failure breaks: over every possible run, with links and trigger hosts failing at
  will, an existing keygroup has a member, members are registered nodes, and no node's
  append counter ever goes back.
 */
module Membership {
  import opened Numerals
  import opened LocalStore
  import opened Records
  import opened Protocol
  import opened Sites
  import opened Convergence
  import opened Runs

  ghost predicate Peopled(w: World) {
    && w.g.record.ok <= w.env.nodes
    && (w.g.record.created ==> w.g.record.ok != {})
  }

  lemma EventStaysPeopled(w: World, e: Event)
    requires Peopled(w) && Possible(w, e)
    ensures Peopled(Next(w, e))
  {
    hide Handle, ValidRequest, ValidSources;
    match e
    case Client(self, req, ch) =>
      RecordAfter(w.env, w.g, self, req, ch);
      if req.RemoveReplica? && req.node in w.g.record.ok && |w.g.record.ok| > 1 { OneMore(w.g.record.ok, req.node); }
    case Start(_, _) =>
    case Network(_, _) =>
  }

  /** No keygroup that exists is ever without a member, whatever fails. */
  lemma {:induction false} RunStaysPeopled(w: World, events: seq<Event>)
    requires Peopled(w) && PossibleRun(w, events)
    ensures Peopled(Run(w, events))
    decreases |events|
  {
    hide Peopled, Possible, Next;
    if events != [] {
      EventStaysPeopled(w, events[0]);
      RunStaysPeopled(Next(w, events[0]), events[1..]);
    }
  }

  // ---- counters ----

  function CounterOf(g: Slice, n: string): nat {
    SiteOf(g, n).store.next
  }

  ghost predicate CountersGrow(g: Slice, h: Slice) {
    forall n :: CounterOf(g, n) <= CounterOf(h, n)
  }

  lemma RelayCounters(env: Env, g: Slice, self: string, targets: set<string>, c: Change)
    ensures CountersGrow(g, Relay(env, g, self, targets, c))
  {
  }

  lemma {:induction false} CopyAllCounters(env: Env, g: Slice, self: string, n: string, items: map<string, string>,
          order: seq<string>)
    requires forall id | id in order :: id in items
    ensures CountersGrow(g, CopyAll(env, g, self, n, items, order))
    decreases |order|
  {
    if order != [] {
      var c := Copy(g.record.mutable, order[0], items[order[0]]);
      hide Relay, CounterOf;
      RelayCounters(env, g, self, {n}, c);
      CopyAllCounters(env, Relay(env, g, self, {n}, c), self, n, items, order[1..]);
    }
  }

  lemma RequestCounters(env: Env, g: Slice, self: string, req: Request, ch: Choice)
    ensures CountersGrow(g, Handle(env, g, self, req, ch).g)
  {
    hide CountersGrow, HandleDrop, HandleUpdate, HandleAppend, HandleDelete, HandleAddReplica;
    match req
    case DeleteKeygroup(user) => DropCounters(env, g, self, user);
    case Update(user, id, val) => UpdateCounters(env, g, self, user, id, val);
    case AppendItem(user, val) => AppendCounters(env, g, self, user, val);
    case Delete(user, id) => DeleteCounters(env, g, self, user, id);
    case AddReplica(user, n, expiry) => AddReplicaCounters(env, g, self, user, n, expiry, ch);
    case _ => OtherCounters(env, g, self, req, ch);
  }

  lemma OtherCounters(env: Env, g: Slice, self: string, req: Request, ch: Choice)
    requires !req.DeleteKeygroup? && !req.Update? && !req.AppendItem? && !req.Delete? && !req.AddReplica?
    ensures CountersGrow(g, Handle(env, g, self, req, ch).g)
  {
  }

  lemma DropCounters(env: Env, g: Slice, self: string, user: string)
    ensures CountersGrow(g, HandleDrop(env, g, self, user).g)
  {
    forall n { CloseAllAt(env, WithSite(g, self, Close(SiteOf(g, self))), self, g.record.ok - {self}, n); }
  }

  lemma UpdateCounters(env: Env, g: Slice, self: string, user: string, id: string, val: string)
    ensures CountersGrow(g, HandleUpdate(env, g, self, user, id, val).g)
  {
  }

  lemma AppendCounters(env: Env, g: Slice, self: string, user: string, val: string)
    ensures var h := HandleAppend(env, g, self, user, val).g;
      && CountersGrow(g, h)
      && (Allowed(g, user, "Update") && !g.record.mutable && SiteOf(g, self).store.present
          ==> CounterOf(h, self) > CounterOf(g, self))
  {
  }

  lemma DeleteCounters(env: Env, g: Slice, self: string, user: string, id: string)
    ensures CountersGrow(g, HandleDelete(env, g, self, user, id).g)
  {
  }

  lemma AddReplicaCounters(env: Env, g: Slice, self: string, user: string, n: string, expiry: int, ch: Choice)
    ensures CountersGrow(g, HandleAddReplica(env, g, self, user, n, expiry, ch).g)
  {
    var g2 := WithSite(g.(record := WithMember(g.record, n, expiry)), n, Open(SiteOf(g, n)));
    assert CountersGrow(g, g2);
    var from := if n != self then self else if ch.source.Some? then ch.source.value else self;
    var items := SiteOf(g2, from).store.items;
    if forall id | id in ch.order :: id in items { CopyAllCounters(env, g2, self, n, items, ch.order); }
    hide CopyAll;
  }

  lemma {:induction false} RunCounters(w: World, events: seq<Event>)
    ensures CountersGrow(w.g, Run(w, events).g)
    decreases |events|
  {
    if events != [] {
      var w' := Next(w, events[0]);
      if events[0].Client? { RequestCounters(w.env, w.g, events[0].self, events[0].req, events[0].ch); }
      assert CountersGrow(w.g, w'.g);
      hide Next;
      RunCounters(w', events[1..]);
    }
  }

  /** An id that a node handed out is never handed out there again, across failures, deletion of the
      keygroup, its re-creation, and removal and re-adding of the node. */
  lemma AppendIdsNeverRepeat(w: World, self: string, user: string, val: string, ch: Choice, events: seq<Event>)
    requires Allowed(w.g, user, "Update") && !w.g.record.mutable && SiteOf(w.g, self).store.present
    ensures var after := Run(Next(w, Client(self, AppendItem(user, val), ch)), events).g;
      Format(CounterOf(after, self)) != Format(CounterOf(w.g, self))
  {
    AppendCounters(w.env, w.g, self, user, val);
    var w' := Next(w, Client(self, AppendItem(user, val), ch));
    assert w'.g == HandleAppend(w.env, w.g, self, user, val).g;
    RunCounters(w', events);
    hide Run, Next;
    FormatInjective(CounterOf(Run(w', events).g, self), CounterOf(w.g, self));
  }
}
