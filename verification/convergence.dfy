/**
  Convergence. When every message is delivered, a keygroup that is spread over many nodes
  behaves like one map: its members, and only they, store it, and all hold the same items.
  For immutable keygroups the same invariant keeps every stored id below every counter.
 */
module Convergence {
  import opened Fields
  import opened Numerals
  import opened LocalStore
  import opened Records
  import opened Protocol
  import opened Sites

  type Content = map<string, string>

  /** An id that an append handed out. */
  predicate LogId(id: string) {
    Atoi(id).Some? && Atoi(id).value >= 0 && Format(Atoi(id).value) == id
  }

  function LogKey(id: string): nat
    requires LogId(id)
  {
    Atoi(id).value
  }

  ghost predicate Below(content: Content, next: nat) {
    forall id | id in content :: LogId(id) && LogKey(id) < next
  }

  /** Node `s` is as the single copy `content` says: `here` if it is a member. */
  ghost predicate SiteFits(s: Site, here: bool, content: Content, log: bool) {
    && s.store.present == here && Tidy(s)
    && (here ==> s.store.items == content && (log ==> Below(content, s.store.next)))
  }

  ghost predicate Healthy(nodes: set<string>, g: Slice, content: Content) {
    && g.record.ok <= nodes
    && (g.record.created ==> g.record.ok != {})
    && (!g.record.created ==> content == map[])
    && forall n :: SiteFits(SiteOf(g, n), g.record.created && n in g.record.ok, content, !g.record.mutable)
  }

  ghost predicate Delivered(env: Env) {
    forall a, b | a in env.nodes && b in env.nodes :: Reaches(env, a, b)
  }

  function Changed(content: Content, c: Change): Content {
    if !Acceptable(c) then content
    else match c
      case Put(id, val) => content[id := val]
      case Append(id, val) => content[id := val]
      case Remove(id) => content - {id}
  }

  /** The single copy: what a request does to the one map that the replicas stand for. */
  function ContentAfter(g: Slice, self: string, req: Request, content: Content): Content {
    match req
    case CreateKeygroup(_, _, _) => if g.record.created then content else map[]
    case DeleteKeygroup(user) => if Allowed(g, user, "DeleteKeygroup") && self in g.record.ok then map[] else content
    case Update(user, id, val) =>
      if Allowed(g, user, "Update") && g.record.mutable && g.record.created
          then Changed(content, Put(id, val)) else content
    case AppendItem(user, val) =>
      if Allowed(g, user, "Update") && !g.record.mutable && g.record.created && self in g.record.ok
      then content[Format(SiteOf(g, self).store.next) := val] else content
    case Delete(user, id) =>
      if Allowed(g, user, "Delete") && g.record.mutable && g.record.created && self in g.record.ok
          then content - {id} else content
    case _ => content
  }

  lemma ReceiveFits(s: Site, hosts: set<string>, c: Change, here: bool, content: Content, log: bool)
    requires SiteFits(s, here, content, log)
    requires if log then c.Append? && LogId(c.id) else !c.Append?
    ensures SiteFits(Receive(s, hosts, c), here, Changed(content, c), log)
  {
  }

  /** Every node but `self` is as the single copy says. */
  ghost predicate PeersFit(g: Slice, self: string, content: Content) {
    forall n | n != self :: SiteFits(SiteOf(g, n), n in g.record.ok, content, !g.record.mutable)
  }

  lemma RelayKeepsPeers(env: Env, g: Slice, self: string, c: Change, content: Content)
    requires g.record.ok <= env.nodes && Delivered(env) && self in env.nodes && PeersFit(g, self, content)
    requires if g.record.mutable then !c.Append? else c.Append? && LogId(c.id)
    ensures PeersFit(Relay(env, g, self, g.record.ok - {self}, c), self, Changed(content, c))
    ensures SiteOf(Relay(env, g, self, g.record.ok - {self}, c), self) == SiteOf(g, self)
  {
    hide Receive, SiteFits, Changed, SiteOf, LogId;
    var g1 := Relay(env, g, self, g.record.ok - {self}, c);
    assert g1.record == g.record;
    RelayAt(env, g, self, g.record.ok - {self}, c, self);
    hide Relay;
    forall n | n != self ensures SiteFits(SiteOf(g1, n), n in g.record.ok, Changed(content, c), !g.record.mutable) {
      RelayAt(env, g, self, g.record.ok - {self}, c, n);
      ReceiveFits(SiteOf(g, n), env.hosts, c, n in g.record.ok, content, !g.record.mutable);
      if n !in g.record.ok { AbsentFits(SiteOf(g, n), content, Changed(content, c), !g.record.mutable); }
    }
  }

  lemma AbsentFits(s: Site, content: Content, content': Content, log: bool)
    requires SiteFits(s, false, content, log)
    ensures SiteFits(s, false, content', log)
  {
  }

  lemma UpdateConverges(env: Env, g: Slice, self: string, user: string, id: string, val: string, content: Content)
    requires Healthy(env.nodes, g, content) && Delivered(env) && self in env.nodes
    ensures Healthy(env.nodes, HandleUpdate(env, g, self, user, id, val).g,
      ContentAfter(g, self, Update(user, id, val), content))
  {
    if Allowed(g, user, "Update") && g.record.mutable && g.record.created {
      var c := Put(id, val);
      var r := Relay(env, g, self, g.record.ok - {self}, c);
      RelayRecord(env, g, self, g.record.ok - {self}, c);
      hide Relay, Receive, SiteFits, Changed, Acceptable, Acks;
      RelayKeepsPeers(env, g, self, c, content);
      ReceiveFits(SiteOf(g, self), env.hosts, c, self in g.record.ok, content, false);
      SelfReceives(env, r, self, c, self in g.record.ok, content);
    }
  }

  lemma SelfReceives(env: Env, r: Slice, self: string, c: Change, here: bool, content: Content)
    requires SiteFits(Receive(SiteOf(r, self), env.hosts, c), here, Changed(content, c), false)
    ensures SiteFits(SiteOf(ReceivedAt(r, env.hosts, self, c), self), here, Changed(content, c), false)
    ensures forall n | n != self :: SiteOf(ReceivedAt(r, env.hosts, self, c), n) == SiteOf(r, n)
    ensures ReceivedAt(r, env.hosts, self, c).record == r.record
  {
  }

  lemma FormatIsLogId(n: nat)
    ensures LogId(Format(n)) && LogKey(Format(n)) == n && Alnum(Format(n))
  {
    FormatIsAlnum(n);
  }

  lemma AppendFits(s: Site, val: string, content: Content)
    requires SiteFits(s, true, content, true)
    ensures SiteFits(s.(store := AppendNew(s.store, val)), true, content[Format(s.store.next) := val], true)
  {
    FormatIsLogId(s.store.next);
  }

  lemma NotifyFits(s: Site, hosts: set<string>, note: Note, here: bool, content: Content, log: bool)
    requires SiteFits(s, here, content, log)
    ensures SiteFits(Notify(s, hosts, note), here, content, log)
  {
  }

  lemma RelayRecord(env: Env, g: Slice, self: string, targets: set<string>, c: Change)
    ensures Relay(env, g, self, targets, c).record == g.record && Relay(env, g, self, targets, c).perms == g.perms
  {
  }

  /** A coordinator that has written locally, then relays, then tells its triggers. */
  lemma FinishConverges(env: Env, g: Slice, self: string, c: Change, note: Note, content: Content)
    requires g.record.ok <= env.nodes && Delivered(env) && self in g.record.ok && g.record.created
      && PeersFit(g, self, content)
    requires if g.record.mutable then !c.Append? else c.Append? && LogId(c.id)
    requires SiteFits(SiteOf(g, self), true, Changed(content, c), !g.record.mutable)
    ensures Healthy(env.nodes, Finish(env, Relay(env, g, self, g.record.ok - {self}, c), self, note).g,
      Changed(content, c))
  {
    RelayRecord(env, g, self, g.record.ok - {self}, c);
    hide Relay, Notify, SiteFits, Changed, LogId;
    RelayKeepsPeers(env, g, self, c, content);
    NotifyFits(SiteOf(g, self), env.hosts, note, true, Changed(content, c), !g.record.mutable);
  }

  lemma AppendConverges(env: Env, g: Slice, self: string, user: string, val: string, content: Content)
    requires Healthy(env.nodes, g, content) && Delivered(env) && self in env.nodes
    ensures Healthy(env.nodes, HandleAppend(env, g, self, user, val).g,
      ContentAfter(g, self, AppendItem(user, val), content))
  {
    var s := SiteOf(g, self);
    assert SiteFits(s, g.record.created && self in g.record.ok, content, !g.record.mutable);
    if Allowed(g, user, "Update") && !g.record.mutable && s.store.present {
      var c := Append(Format(s.store.next), val);
      FormatIsLogId(s.store.next);
      AppendFits(s, val, content);
      assert Changed(content, c) == content[c.id := val];
      hide Relay, SiteFits, Notify, LogId, Acceptable, Format, Changed, Finish;
      FinishConverges(env, WithSite(g, self, s.(store := AppendNew(s.store, val))), self, c, Wrote(c.id, val), content);
    }
  }

  lemma RemoveFits(s: Site, id: string, content: Content)
    requires SiteFits(s, true, content, false) && Alnum(id)
    ensures SiteFits(s.(store := Apply(s.store, Remove(id))), true, content - {id}, false)
  {
  }

  lemma DeleteConverges(env: Env, g: Slice, self: string, user: string, id: string, content: Content)
    requires Healthy(env.nodes, g, content) && Delivered(env) && self in env.nodes
    ensures Healthy(env.nodes, HandleDelete(env, g, self, user, id).g, ContentAfter(g, self, Delete(user, id), content))
  {
    var s := SiteOf(g, self);
    assert SiteFits(s, g.record.created && self in g.record.ok, content, !g.record.mutable);
    if g.record.created && self in g.record.ok && id !in content { assert content - {id} == content; }
    if Allowed(g, user, "Delete") && g.record.mutable && id in s.store.items && s.store.present {
      assert Alnum(id);
      RemoveFits(s, id, content);
      hide Relay, SiteFits, Notify, Finish, Alnum;
      FinishConverges(env, WithSite(g, self, s.(store := Apply(s.store, Remove(id)))), self, Remove(id), Deleted(id),
          content);
    }
  }

  lemma CloseFits(s: Site, here: bool, content: Content, content': Content, log: bool)
    requires SiteFits(s, here, content, log)
    ensures SiteFits(Close(s), false, content', log)
  {
  }

  lemma CreateConverges(env: Env, g: Slice, self: string, user: string, mutable: bool, expiry: int, content: Content)
    requires Healthy(env.nodes, g, content) && self in env.nodes
    ensures Healthy(env.nodes, HandleCreate(g, self, user, mutable, expiry).g,
      ContentAfter(g, self, CreateKeygroup(user, mutable, expiry), content))
  {
    if !g.record.created {
      var g' := HandleCreate(g, self, user, mutable, expiry).g;
      forall n ensures SiteFits(SiteOf(g', n), n == self, map[], !mutable) {
        assert SiteFits(SiteOf(g, n), false, content, !g.record.mutable);
      }
    }
  }

  lemma DropConverges(env: Env, g: Slice, self: string, user: string, content: Content)
    requires Healthy(env.nodes, g, content) && Delivered(env) && self in env.nodes
    ensures Healthy(env.nodes, HandleDrop(env, g, self, user).g, ContentAfter(g, self, DeleteKeygroup(user), content))
  {
    var s := SiteOf(g, self);
    assert SiteFits(s, g.record.created && self in g.record.ok, content, !g.record.mutable);
    if Allowed(g, user, "DeleteKeygroup") && s.store.present {
      var g1 := WithSite(g, self, Close(s));
      var g2 := CloseAll(env, g1, self, g.record.ok - {self});
      CloseFits(s, true, content, map[], !g.record.mutable);
      forall n ensures SiteFits(SiteOf(g2, n), false, map[], !g.record.mutable) {
        CloseAllAt(env, g1, self, g.record.ok - {self}, n);
        assert SiteFits(SiteOf(g, n), n in g.record.ok, content, !g.record.mutable);
        CloseFits(SiteOf(g, n), n in g.record.ok, content, map[], !g.record.mutable);
        if n !in g.record.ok { AbsentFits(SiteOf(g, n), content, map[], !g.record.mutable); }
      }
      RetiredIsHealthy(env.nodes, g2);
      assert HandleDrop(env, g, self, user).g == g2.(record := Retired(g2.record));
    }
  }

  lemma RetiredIsHealthy(nodes: set<string>, g: Slice)
    requires g.record.ok <= nodes && forall n :: SiteFits(SiteOf(g, n), false, map[], !g.record.mutable)
    ensures Healthy(nodes, g.(record := Retired(g.record)), map[])
  {
    var g' := g.(record := Retired(g.record));
    forall n ensures SiteFits(SiteOf(g', n), false, map[], !g.record.mutable) {
      assert SiteOf(g', n) == SiteOf(g, n);
    }
  }

  lemma OneMore(s: set<string>, n: string)
    requires n in s && |s| > 1
    ensures s - {n} != {}
  {
    assert s == s - {n} + {n};
  }

  lemma RemoveReplicaConverges(env: Env, g: Slice, self: string, user: string, n: string, content: Content)
    requires Healthy(env.nodes, g, content)
    ensures Healthy(env.nodes, HandleRemoveReplica(env, g, self, user, n).g, content)
  {
    if n in g.record.ok && |g.record.ok| > 1 {
      OneMore(g.record.ok, n);
      if g.record.created {
        assert SiteFits(SiteOf(g, n), true, content, !g.record.mutable);
        CloseFits(SiteOf(g, n), true, content, content, !g.record.mutable);
        hide SiteFits, Close;
      }
    }
  }

  lemma OthersConverge(env: Env, g: Slice, self: string, req: Request, ch: Choice, content: Content)
    requires Healthy(env.nodes, g, content)
    requires req.AddTrigger? || req.RemoveTrigger? || req.AddUser? || req.RemoveUser?
    ensures Healthy(env.nodes, Handle(env, g, self, req, ch).g, content)
  {
    var g' := Handle(env, g, self, req, ch).g;
    assert g'.record == g.record;
    forall n ensures SiteFits(SiteOf(g', n), g.record.created && n in g.record.ok, content, !g.record.mutable) {
      assert SiteFits(SiteOf(g, n), g.record.created && n in g.record.ok, content, !g.record.mutable);
    }
  }
}
