/** What the handlers of `Protocol` do to each node's copy, one node at a time. */
module Sites {
  import opened Fields
  import opened LocalStore
  import opened Protocol

  /** A node that does not store the keygroup has no items or triggers of it, every trigger has an
      inbox, and ids are alphanumeric. */
  ghost predicate Tidy(s: Site) {
    && (!s.store.present ==> s.store.items == map[] && s.store.triggers == map[])
    && s.inboxes.Keys == s.store.triggers.Keys
    && forall id | id in s.store.items :: Alnum(id)
  }

  lemma RelayAt(env: Env, g: Slice, self: string, targets: set<string>, c: Change, n: string)
    ensures SiteOf(Relay(env, g, self, targets, c), n)
      == if n in targets && Reaches(env, self, n) then Receive(SiteOf(g, n), env.hosts, c) else SiteOf(g, n)
  {
  }

  lemma CloseAllAt(env: Env, g: Slice, self: string, targets: set<string>, n: string)
    ensures SiteOf(CloseAll(env, g, self, targets), n)
      == if n in targets && Reaches(env, self, n) && SiteOf(g, n).store.present
          then Close(SiteOf(g, n)) else SiteOf(g, n)
  {
  }

  lemma ReceiveStores(s: Site, hosts: set<string>, c: Change)
    ensures Receive(s, hosts, c).store == Write(s.store, c)
    ensures Tidy(s) ==> Tidy(Receive(s, hosts, c))
  {
  }

  /** Copying leaves every other node alone and loads the items at `n`, in order. */
  lemma {:induction false} CopyAllSites(env: Env, g: Slice, self: string, n: string, items: map<string, string>,
          order: seq<string>)
    requires forall id | id in order :: id in items && Acceptable(Copy(g.record.mutable, id, items[id]))
    requires Reaches(env, self, n) && SiteOf(g, n).store.present && SiteOf(g, n).store.triggers == map[]
      && Tidy(SiteOf(g, n))
    ensures var h := CopyAll(env, g, self, n, items, order);
      && h.record == g.record && h.perms == g.perms && h.missed == g.missed
      && (forall m | m != n :: SiteOf(h, m) == SiteOf(g, m))
      && SiteOf(h, n).store == Load(SiteOf(g, n).store, items, order, g.record.mutable)
      && Tidy(SiteOf(h, n))
    decreases |order|
  {
    if order != [] {
      var c := Copy(g.record.mutable, order[0], items[order[0]]);
      var g' := Relay(env, g, self, {n}, c);
      forall m { RelayAt(env, g, self, {n}, c, m); }
      ReceiveStores(SiteOf(g, n), env.hosts, c);
      assert forall m | m in {n} :: Acknowledged(env, g, self, m, c);
      assert g'.missed == g.missed;
      hide Relay, SiteOf, Receive, Acknowledged;
      RelayAt(env, g, self, {n}, c, n);
      forall m | m != n ensures SiteOf(g', m) == SiteOf(g, m) { RelayAt(env, g, self, {n}, c, m); }
      CopyAllSites(env, g', self, n, items, order[1..]);
    }
  }
}
