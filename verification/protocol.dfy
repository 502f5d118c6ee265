/**
  The replication protocol of pkg/fred. Everything FReD keeps is kept per keygroup, so the
  state is what the whole system holds of one keygroup: its record in the name service,
  the permissions on it, the updates that nodes are reported to have missed, and each
  node's copy. Handlers are functions on that state; `Cluster` runs them step by step.
 */
module Protocol {
  import opened Fields
  import opened Numerals
  import opened LocalStore
  import opened Records
  import opened Roles
  import opened Sources

  datatype Missed = Missed(node: string, id: string)

  /** What a trigger node is told. */
  datatype Note = Wrote(id: string, val: string) | Deleted(id: string)

  /** For one trigger at one node: the node's items when it was registered, and what it was told since. */
  datatype Inbox = Inbox(since: map<string, string>, got: seq<Note>)

  /** One node's copy of the keygroup. */
  datatype Site = Site(store: Local, inboxes: map<string, Inbox>)

  const BLANK := Site(ABSENT, map[])

  datatype Slice = Slice(record: Record, perms: map<string, set<Method>>, missed: set<Missed>, sites: map<string, Site>)

  const NO_SLICE := Slice(NO_RECORD, map[], {}, map[])

  /** Registered nodes, the links over which a send from the first node reaches the second, and the
      trigger hosts that answer. */
  datatype Env = Env(nodes: set<string>, links: set<(string, string)>, hosts: set<string>)

  function SiteOf(g: Slice, n: string): Site {
    if n in g.sites then g.sites[n] else BLANK
  }

  function WithSite(g: Slice, n: string, s: Site): Slice {
    g.(sites := g.sites[n := s])
  }

  predicate Allowed(g: Slice, user: string, m: Method) {
    user in g.perms && m in g.perms[user]
  }

  // ---- one node ----

  function NoteOf(c: Change): Note {
    if c.Remove? then Deleted(c.id) else Wrote(c.id, c.val)
  }

  /** triggerUpdate and triggerDelete: tell every registered trigger whose host answers. */
  function Notify(s: Site, hosts: set<string>, note: Note): Site {
    s.(inboxes := map t | t in s.inboxes ::
      if t in s.store.triggers && s.store.triggers[t] in hosts
      then s.inboxes[t].(got := s.inboxes[t].got + [note])
      else s.inboxes[t])
  }

  predicate AllAnswer(s: Site, hosts: set<string>) {
    forall t | t in s.store.triggers :: s.store.triggers[t] in hosts
  }

  /** A change that a peer relays: write it, then tell the triggers. */
  function Receive(s: Site, hosts: set<string>, c: Change): Site {
    if s.store.present && Acceptable(c) then Notify(s.(store := Apply(s.store, c)), hosts, NoteOf(c)) else s
  }

  /** Does the peer answer without an error? */
  predicate Acks(s: Site, hosts: set<string>, c: Change) {
    s.store.present && Acceptable(c) && AllAnswer(s, hosts)
  }

  function NotifiedAt(g: Slice, hosts: set<string>, n: string, note: Note): Slice {
    if n in g.sites then WithSite(g, n, Notify(g.sites[n], hosts, note)) else g
  }

  function ReceivedAt(g: Slice, hosts: set<string>, n: string, c: Change): Slice {
    if n in g.sites then WithSite(g, n, Receive(g.sites[n], hosts, c)) else g
  }

  function Open(s: Site): Site {
    s.(store := Opened(s.store))
  }

  function Close(s: Site): Site {
    Site(Dropped(s.store), map[])
  }

  // ---- sends ----

  predicate Reaches(env: Env, a: string, b: string) {
    (a, b) in env.links
  }

  predicate Acknowledged(env: Env, g: Slice, self: string, n: string, c: Change) {
    Reaches(env, self, n) && Acks(SiteOf(g, n), env.hosts, c)
  }

  /** Sends the change to every target and reports each that did not acknowledge it. */
  function Relay(env: Env, g: Slice, self: string, targets: set<string>, c: Change): Slice {
    g.(sites := map n | n in g.sites ::
         if n in targets && Reaches(env, self, n) then Receive(g.sites[n], env.hosts, c) else g.sites[n],
       missed := g.missed + set n | n in targets && !Acknowledged(env, g, self, n, c) :: Missed(n, c.id))
  }

  /** Sends a deletion of the keygroup to every target; one that fails is only logged. */
  function CloseAll(env: Env, g: Slice, self: string, targets: set<string>): Slice {
    g.(sites := map n | n in g.sites ::
         if n in targets && Reaches(env, self, n) && g.sites[n].store.present then Close(g.sites[n]) else g.sites[n])
  }

  /** Sends the items named in `order` to `n`, one after the other. */
  function CopyAll(env: Env, g: Slice, self: string, n: string, items: map<string, string>, order: seq<string>): Slice
    requires forall id | id in order :: id in items
    decreases |order|
  {
    if order == [] then g
    else CopyAll(env, Relay(env, g, self, {n}, Copy(g.record.mutable, order[0], items[order[0]])), self, n, items,
        order[1..])
  }

  // ---- client requests ----

  datatype Request =
    | CreateKeygroup(user: string, mutable: bool, expiry: int)
    | DeleteKeygroup(user: string)
    | Update(user: string, id: string, val: string)
    | AppendItem(user: string, val: string)
    | Delete(user: string, id: string)
    | AddReplica(user: string, node: string, expiry: int)
    | RemoveReplica(user: string, node: string)
    | AddTrigger(user: string, tid: string, host: string)
    | RemoveTrigger(user: string, tid: string)
    | AddUser(user: string, newUser: string, role: Role)
    | RemoveUser(user: string, newUser: string, role: Role)

  /** What adding a replica leaves open: the node to copy from, and the order of the items. */
  datatype Choice = Choice(source: Option<string>, order: seq<string>)

  datatype Reply = Reply(g: Slice, ok: bool)

  function Grant(g: Slice, user: string, methods: set<Method>): Slice {
    g.(perms := g.perms[user := (if user in g.perms then g.perms[user] else {}) + methods])
  }

  function Revoke(g: Slice, user: string, methods: set<Method>): Slice {
    g.(perms := g.perms[user := (if user in g.perms then g.perms[user] else {}) - methods])
  }

  function HandleCreate(g: Slice, self: string, user: string, mutable: bool, expiry: int): Reply {
    if g.record.created then Reply(g, false) else
      var g1 := g.(record := Founded(g.record, self, mutable, expiry));
      if SiteOf(g1, self).store.present then Reply(g1, false)
      else Reply(Grant(WithSite(g1, self, Open(SiteOf(g1, self))), user, MethodsOf(ALL_ROLES)), true)
  }

  function HandleDrop(env: Env, g: Slice, self: string, user: string): Reply {
    if !Allowed(g, user, "DeleteKeygroup") || !SiteOf(g, self).store.present then Reply(g, false) else
      var g1 := WithSite(g, self, Close(SiteOf(g, self)));
      if !g.record.created then Reply(g1, false)
      else
        var g2 := CloseAll(env, g1, self, g.record.ok - {self});
        Reply(g2.(record := Retired(g2.record)), true)
  }

  function HandleUpdate(env: Env, g: Slice, self: string, user: string, id: string, val: string): Reply {
    if !Allowed(g, user, "Update") || !g.record.mutable || !g.record.created then Reply(g, false) else
      var c := Put(id, val);
      var g1 := Relay(env, g, self, g.record.ok - {self}, c);
      Reply(ReceivedAt(g1, env.hosts, self, c), Acks(SiteOf(g1, self), env.hosts, c))
  }

  function HandleAppend(env: Env, g: Slice, self: string, user: string, val: string): Reply {
    if !Allowed(g, user, "Update") || g.record.mutable || !SiteOf(g, self).store.present then Reply(g, false) else
      var s := SiteOf(g, self);
      var id := Format(s.store.next);
      var g1 := WithSite(g, self, s.(store := AppendNew(s.store, val)));
      if !g.record.created then Reply(g1, false)
      else Finish(env, Relay(env, g1, self, g.record.ok - {self}, Append(id, val)), self, Wrote(id, val))
  }

  function HandleDelete(env: Env, g: Slice, self: string, user: string, id: string): Reply {
    var s := SiteOf(g, self);
    if !Allowed(g, user, "Delete") || !g.record.mutable || id !in s.store.items || !Alnum(id) || !s.store.present
        then Reply(g, false) else
      var g1 := WithSite(g, self, s.(store := Apply(s.store, Remove(id))));
      if !g.record.created then Reply(g1, false)
      else Finish(env, Relay(env, g1, self, g.record.ok - {self}, Remove(id)), self, Deleted(id))
  }

  /** The coordinator tells its own triggers last. */
  function Finish(env: Env, g: Slice, self: string, note: Note): Reply {
    Reply(NotifiedAt(g, env.hosts, self, note), AllAnswer(SiteOf(g, self), env.hosts))
  }

  /** The choices a coordinator may make when it adds a replica: a source that
      GetNodeWithBiggerExpiry may return, and the copied items in any order. */
  ghost predicate ValidChoice(g: Slice, self: string, n: string, expiry: int, ch: Choice) {
    && MayChoose(Others(WithMember(g.record, n, expiry), self), ch.source)
    && var from := if n != self then self else if ch.source.Some? then ch.source.value else self;
       Enumerates(ch.order, SiteOf(g, from).store.items)
  }

  function HandleAddReplica(env: Env, g: Slice, self: string, user: string, n: string, expiry: int, ch: Choice): Reply
  {
    if !Allowed(g, user, "AddReplica") || !g.record.created || n !in env.nodes then Reply(g, false) else
      var g1 := g.(record := WithMember(g.record, n, expiry));
      if !Reaches(env, self, n) || SiteOf(g1, n).store.present then Reply(g1, false) else
        var g2 := WithSite(g1, n, Open(SiteOf(g1, n)));
        if exists m | m in g2.record.ok - {self} :: !Reaches(env, self, m) then Reply(g2, false)
        else if n != self then
          if !SiteOf(g2, self).store.present then Reply(g2, false)
          else Reply(CopyFrom(env, g2, self, n, self, ch.order), true)
        else if ch.source.None? then Reply(g2, true)
        else if !Reaches(env, self, ch.source.value) || !SiteOf(g2, ch.source.value).store.present then Reply(g2, false)
        else Reply(CopyFrom(env, g2, self, n, ch.source.value, ch.order), true)
  }

  /** Copies the items that `from` holds to `n`. */
  function CopyFrom(env: Env, g: Slice, self: string, n: string, from: string, order: seq<string>): Slice {
    var items := SiteOf(g, from).store.items;
    if forall id | id in order :: id in items then CopyAll(env, g, self, n, items, order) else g
  }

  function HandleRemoveReplica(env: Env, g: Slice, self: string, user: string, n: string): Reply {
    if !Allowed(g, user, "RemoveReplica") || n !in env.nodes || !g.record.created || n !in g.record.ok
        || |g.record.ok| <= 1
      || !Reaches(env, self, n) || !SiteOf(g, n).store.present then Reply(g, false)
    else
      var g1 := WithSite(g, n, Close(SiteOf(g, n)));
      Reply(g1.(record := WithoutMember(g1.record, n)), true)
  }

  function HandleAddTrigger(g: Slice, self: string, user: string, tid: string, host: string): Reply {
    var s := SiteOf(g, self);
    if !Allowed(g, user, "AddTrigger") || !s.store.present then Reply(g, false)
    else if tid == "" then Reply(g, true)
    else Reply(WithSite(g, self, Site(s.store.(triggers := s.store.triggers[tid := host]),
      s.inboxes[tid := Inbox(s.store.items, [])])), true)
  }

  function HandleRemoveTrigger(g: Slice, self: string, user: string, tid: string): Reply {
    var s := SiteOf(g, self);
    if !Allowed(g, user, "RemoveTrigger") || !s.store.present then Reply(g, false)
    else Reply(WithSite(g, self, Site(s.store.(triggers := s.store.triggers - {tid}), s.inboxes - {tid})), true)
  }

  function HandleAddUser(g: Slice, user: string, newUser: string, role: Role): Reply {
    if !Allowed(g, user, "AddUser") then Reply(g, false) else Reply(Grant(g, newUser, Methods(role)), true)
  }

  function HandleRemoveUser(g: Slice, user: string, newUser: string, role: Role): Reply {
    if !Allowed(g, user, "RemoveUser") then Reply(g, false) else Reply(Revoke(g, newUser, Methods(role)), true)
  }

  function Handle(env: Env, g: Slice, self: string, req: Request, ch: Choice): Reply {
    match req
    case CreateKeygroup(user, mutable, expiry) => HandleCreate(g, self, user, mutable, expiry)
    case DeleteKeygroup(user) => HandleDrop(env, g, self, user)
    case Update(user, id, val) => HandleUpdate(env, g, self, user, id, val)
    case AppendItem(user, val) => HandleAppend(env, g, self, user, val)
    case Delete(user, id) => HandleDelete(env, g, self, user, id)
    case AddReplica(user, node, expiry) => HandleAddReplica(env, g, self, user, node, expiry, ch)
    case RemoveReplica(user, node) => HandleRemoveReplica(env, g, self, user, node)
    case AddTrigger(user, tid, host) => HandleAddTrigger(g, self, user, tid, host)
    case RemoveTrigger(user, tid) => HandleRemoveTrigger(g, self, user, tid)
    case AddUser(user, newUser, role) => HandleAddUser(g, user, newUser, role)
    case RemoveUser(user, newUser, role) => HandleRemoveUser(g, user, newUser, role)
  }

  ghost predicate ValidRequest(g: Slice, self: string, req: Request, ch: Choice) {
    req.AddReplica? ==> ValidChoice(g, self, req.node, req.expiry, ch)
  }

  // ---- a node starts again ----

  /** The ids the name service reports as missed by `n`, as they are read back from the keys. */
  function MissedIds(g: Slice, n: string): set<string> {
    set m | m in g.missed && m.node == n :: Head(m.id)
  }

  /** What asking the chosen source for an item brings back. */
  function Fetch(env: Env, g: Slice, n: string, source: Option<string>, id: string): Option<string> {
    if source.Some? && Reaches(env, n, source.value) && Alnum(id)
      && SiteOf(g, source.value).store.present && id in SiteOf(g, source.value).store.items
    then Some(SiteOf(g, source.value).store.items[id]) else None
  }

  /** The values that reach `n` for what it missed; `sources` gives the node chosen for each id. */
  function Fetched(env: Env, g: Slice, n: string, sources: map<string, Option<string>>): map<string, string> {
    map id | id in MissedIds(g, n) && id in sources && Fetch(env, g, n, sources[id], id).Some? ::
      Fetch(env, g, n, sources[id], id).value
  }

  ghost predicate ValidSources(g: Slice, n: string, sources: map<string, Option<string>>) {
    sources.Keys == MissedIds(g, n) && forall id | id in sources :: MayChoose(Others(g.record, n), sources[id])
  }

  /** The node's copy with some items put back, and its reported entries taken. */
  function Restored(g: Slice, n: string, back: map<string, string>): Slice {
    var s := SiteOf(g, n);
    g.(sites := if n in g.sites then g.sites[n := s.(store := s.store.(items := s.store.items + back))] else g.sites,
       missed := set m | m in g.missed && m.node != n)
  }

  /** New: take the reported entries, fetch each item and store it. Triggers are not told. */
  function Recover(env: Env, g: Slice, n: string, sources: map<string, Option<string>>): Slice {
    Restored(g, n, if SiteOf(g, n).store.present then Fetched(env, g, n, sources) else map[])
  }
}
