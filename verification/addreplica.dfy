/**
  Adding a replica. The new node ends with the common content exactly when somebody can
  hand it over: the coordinator, if it is a member itself, or, if the new node is the
  coordinator, a member whose expiry does not put it out of GetNodeWithBiggerExpiry's reach.
 */
module AddingReplicas {
  import opened Numerals
  import opened LocalStore
  import opened Records
  import opened Sources
  import opened Protocol
  import opened Sites
  import opened Convergence

  /** Checkable before the call: the request is refused, changes no copy, has nothing to copy, or
      finds a copy to send. */
  ghost predicate Served(env: Env, g: Slice, self: string, user: string, n: string) {
    || !Allowed(g, user, "AddReplica") || !g.record.created || n !in env.nodes
    || n in g.record.ok
    || (forall m | m in g.record.ok :: SiteOf(g, m).store.items == map[])
    || (if n != self then self in g.record.ok else exists m | m in g.record.ok :: ExpiryOf(g.record, m) >= 0)
  }

  lemma LoadFits(s: Site, content: Content, order: seq<string>, log: bool, after: Site)
    requires SiteFits(s, true, map[], log) && Enumerates(order, content)
    requires log ==> forall id | id in content :: LogId(id)
    requires forall id | id in order :: Acceptable(Copy(!log, id, content[id]))
    requires after.store == Load(s.store, content, order, !log) && Tidy(after)
    ensures SiteFits(after, true, content, log)
  {
    hide Load, LogId, Tidy, Acceptable;
    LoadItems(s.store, content, order, !log);
    assert map[] + Picked(content, order) == content;
    if log { LoadIsBelow(s.store, content, order); }
  }

  lemma LoadIsBelow(l: Local, content: Content, order: seq<string>)
    requires Enumerates(order, content) && forall id | id in content :: LogId(id)
    requires forall id | id in order :: Acceptable(Copy(false, id, content[id]))
    ensures Below(content, Load(l, content, order, false).next)
  {
    LoadCounter(l, content, order);
    hide Load;
    forall id | id in content ensures LogKey(id) < Load(l, content, order, false).next {
      assert id in order && AppendKey(Append(id, content[id])) == LogKey(id);
    }
  }

  lemma CopyFromFits(env: Env, g: Slice, self: string, n: string, from: string, order: seq<string>, content: Content)
    requires Reaches(env, self, n) && n != from
    requires SiteFits(SiteOf(g, n), true, map[], !g.record.mutable) && SiteOf(g, n).store.triggers == map[]
    requires SiteFits(SiteOf(g, from), true, content, !g.record.mutable) && Enumerates(order, content)
    ensures var h := CopyFrom(env, g, self, n, from, order);
      && h.record == g.record && (forall m | m != n :: SiteOf(h, m) == SiteOf(g, m))
      && SiteFits(SiteOf(h, n), true, content, !g.record.mutable)
  {
    assert forall id | id in order :: Acceptable(Copy(g.record.mutable, id, content[id]));
    CopyAllSites(env, g, self, n, content, order);
    LoadFits(SiteOf(g, n), content, order, !g.record.mutable, SiteOf(CopyAll(env, g, self, n, content, order), n));
  }

  /** The state after the join, with the new node's empty copy. */
  function Joined(g: Slice, n: string, expiry: int): Slice {
    WithSite(g.(record := WithMember(g.record, n, expiry)), n, Open(SiteOf(g, n)))
  }

  lemma JoinedFits(nodes: set<string>, g: Slice, n: string, expiry: int, content: Content)
    requires Healthy(nodes, g, content) && g.record.created && n !in g.record.ok
    ensures var g2 := Joined(g, n, expiry);
      && SiteFits(SiteOf(g2, n), true, map[], !g.record.mutable) && SiteOf(g2, n).store.triggers == map[]
      && (forall m | m != n :: SiteFits(SiteOf(g2, m), m in g.record.ok, content, !g.record.mutable))
  {
  }

  /** After a join that left every other node alone and gave the new one the content. */
  lemma Rejoined(nodes: set<string>, g: Slice, h: Slice, n: string, expiry: int, content: Content)
    requires Healthy(nodes, g, content) && g.record.created && n in nodes && h.record == WithMember(g.record, n, expiry)
    requires SiteFits(SiteOf(h, n), true, content, !g.record.mutable)
    requires forall m | m != n :: SiteFits(SiteOf(h, m), m in g.record.ok, content, !g.record.mutable)
    ensures Healthy(nodes, h, content)
  {
  }

  /** The coordinator is a member and hands its items over. */
  lemma ServedByMember(env: Env, g: Slice, self: string, user: string, n: string, expiry: int, ch: Choice,
          content: Content)
    requires Healthy(env.nodes, g, content) && Delivered(env) && self in env.nodes
      && ValidChoice(g, self, n, expiry, ch)
    requires Allowed(g, user, "AddReplica") && g.record.created && n in env.nodes && n !in g.record.ok
      && self in g.record.ok
    ensures Healthy(env.nodes, HandleAddReplica(env, g, self, user, n, expiry, ch).g, content)
  {
    JoinedFits(env.nodes, g, n, expiry, content);
    var g2 := Joined(g, n, expiry);
    var h := HandleAddReplica(env, g, self, user, n, expiry, ch).g;
    assert SiteFits(SiteOf(g2, self), true, content, !g.record.mutable);
    assert h == CopyFrom(env, g2, self, n, self, ch.order);
    assert SiteOf(g2, self) == SiteOf(g, self);
    hide CopyFrom, SiteFits, HandleAddReplica, Open;
    ItemsAre(g2, self, content);
    CopyFromFits(env, g2, self, n, self, ch.order, content);
    Rejoined(env.nodes, g, h, n, expiry, content);
  }

  /** The new node is the coordinator and fetches the items from its source. */
  lemma ServedBySource(env: Env, g: Slice, self: string, user: string, expiry: int, ch: Choice, content: Content)
    requires Healthy(env.nodes, g, content) && Delivered(env) && self in env.nodes
      && ValidChoice(g, self, self, expiry, ch)
    requires Allowed(g, user, "AddReplica") && g.record.created && self !in g.record.ok && ch.source.Some?
    ensures Healthy(env.nodes, HandleAddReplica(env, g, self, user, self, expiry, ch).g, content)
  {
    JoinedFits(env.nodes, g, self, expiry, content);
    var g2 := Joined(g, self, expiry);
    var h := HandleAddReplica(env, g, self, user, self, expiry, ch).g;
    var m := ch.source.value;
    assert m in Others(WithMember(g.record, self, expiry), self);
    assert SiteFits(SiteOf(g2, m), true, content, !g.record.mutable);
    assert h == CopyFrom(env, g2, self, self, m, ch.order);
    assert SiteOf(g2, m) == SiteOf(g, m);
    hide CopyFrom, SiteFits, HandleAddReplica, Open;
    ItemsAre(g2, m, content);
    CopyFromFits(env, g2, self, self, m, ch.order, content);
    Rejoined(env.nodes, g, h, self, expiry, content);
  }

  /** Nobody hands anything over, and there is nothing to hand over. */
  lemma NothingToServe(env: Env, g: Slice, self: string, user: string, n: string, expiry: int, ch: Choice,
          content: Content)
    requires Healthy(env.nodes, g, content) && Delivered(env) && self in env.nodes
      && ValidChoice(g, self, n, expiry, ch)
    requires Served(env, g, self, user, n)
    requires Allowed(g, user, "AddReplica") && g.record.created && n in env.nodes && n !in g.record.ok
    requires if n != self then self !in g.record.ok else ch.source.None?
    ensures Healthy(env.nodes, HandleAddReplica(env, g, self, user, n, expiry, ch).g, content)
  {
    JoinedFits(env.nodes, g, n, expiry, content);
    var g2 := Joined(g, n, expiry);
    var h := HandleAddReplica(env, g, self, user, n, expiry, ch).g;
    assert SiteFits(SiteOf(g2, self), n == self, if n == self then map[] else content, !g.record.mutable);
    assert h == g2;
    if n == self { NoSource(g, self, expiry); }
    var m :| m in g.record.ok;
    ItemsAre(g, m, content);
    hide HandleAddReplica, SiteFits;
    Rejoined(env.nodes, g, h, n, expiry, content);
  }

  lemma AddReplicaConverges(env: Env, g: Slice, self: string, user: string, n: string, expiry: int, ch: Choice,
          content: Content)
    requires Healthy(env.nodes, g, content) && Delivered(env) && self in env.nodes
    requires ValidChoice(g, self, n, expiry, ch) && Served(env, g, self, user, n)
    ensures Healthy(env.nodes, HandleAddReplica(env, g, self, user, n, expiry, ch).g, content)
  {
    if Allowed(g, user, "AddReplica") && g.record.created && n in env.nodes {
      if n in g.record.ok {
        StillThere(env, g, self, n, expiry, content);
        hide Healthy;
      } else {
        hide Healthy, ValidChoice, Delivered, HandleAddReplica, Served;
        if n != self && self in g.record.ok {
          ServedByMember(env, g, self, user, n, expiry, ch, content);
        } else if n == self && ch.source.Some? {
          ServedBySource(env, g, self, user, expiry, ch, content);
        } else {
          NothingToServe(env, g, self, user, n, expiry, ch, content);
        }
      }
    }
  }

  lemma ItemsAre(g: Slice, m: string, content: Content)
    requires SiteFits(SiteOf(g, m), true, content, !g.record.mutable)
    ensures SiteOf(g, m).store.items == content && SiteOf(g, m).store.present
  {
  }

  lemma StillThere(env: Env, g: Slice, self: string, n: string, expiry: int, content: Content)
    requires Healthy(env.nodes, g, content) && n in g.record.ok && g.record.created
    ensures Healthy(env.nodes, g.(record := WithMember(g.record, n, expiry)), content)
    ensures SiteOf(g, n).store.present
  {
  }

  /** No source is found exactly when every other member has a negative expiry. */
  lemma NoSource(g: Slice, self: string, expiry: int)
    requires self !in g.record.ok && MayChoose(Others(WithMember(g.record, self, expiry), self), None)
    ensures forall m | m in g.record.ok :: ExpiryOf(g.record, m) < 0
  {
    forall m | m in g.record.ok ensures ExpiryOf(g.record, m) < 0 {
      assert m in Others(WithMember(g.record, self, expiry), self);
    }
  }

  /** Otherwise the new node is an "ok" member with an empty copy beside members that hold items. */
  lemma AddReplicaDiverges(env: Env, g: Slice, self: string, user: string, n: string, expiry: int, ch: Choice,
          content: Content)
    requires Healthy(env.nodes, g, content) && Delivered(env) && self in env.nodes
    requires ValidChoice(g, self, n, expiry, ch) && !Served(env, g, self, user, n)
    ensures !exists c :: Healthy(env.nodes, HandleAddReplica(env, g, self, user, n, expiry, ch).g, c)
  {
    var g2 := Joined(g, n, expiry);
    JoinedFits(env.nodes, g, n, expiry, content);
    assert HandleAddReplica(env, g, self, user, n, expiry, ch).g == g2 by {
      if n == self {
        if ch.source.Some? { SourceHasExpiry(g, self, expiry, ch.source.value); }
      } else {
        assert SiteFits(SiteOf(g2, self), false, content, !g.record.mutable);
      }
    }
    var m :| m in g.record.ok;
    assert SiteFits(SiteOf(g2, m), true, content, !g.record.mutable);
    AlwaysSameItems(env.nodes, g2, m, n);
  }

  lemma SourceHasExpiry(g: Slice, self: string, expiry: int, m: string)
    requires self !in g.record.ok && MayChoose(Others(WithMember(g.record, self, expiry), self), Some(m))
    ensures m in g.record.ok && ExpiryOf(g.record, m) >= 0
  {
  }

  lemma AlwaysSameItems(nodes: set<string>, g: Slice, m: string, n: string)
    requires g.record.created && m in g.record.ok && n in g.record.ok
    ensures forall c | Healthy(nodes, g, c) :: SiteOf(g, m).store.items == SiteOf(g, n).store.items
  {
  }

  /** Adding a replica keeps the members in agreement if and only if the new one can be served. */
  lemma AddReplicaExactly(env: Env, g: Slice, self: string, user: string, n: string, expiry: int, ch: Choice,
          content: Content)
    requires Healthy(env.nodes, g, content) && Delivered(env) && self in env.nodes
      && ValidChoice(g, self, n, expiry, ch)
    ensures Served(env, g, self, user, n)
      <==> exists c :: Healthy(env.nodes, HandleAddReplica(env, g, self, user, n, expiry, ch).g, c)
  {
    hide Healthy, HandleAddReplica, ValidChoice, Delivered;
    if Served(env, g, self, user, n) {
      AddReplicaConverges(env, g, self, user, n, expiry, ch, content);
    } else {
      AddReplicaDiverges(env, g, self, user, n, expiry, ch, content);
    }
  }
}
