/**
  Permissions over whole runs. Roles are granted and revoked as a whole, and no method
  belongs to two roles, so what a user may do on a keygroup is a union of complete roles,
  and the latest grant or revocation of a method's role decides on it.
 */
module WholeRoles {
  import opened Numerals
  import opened LocalStore
  import opened Records
  import opened Roles
  import opened Protocol
  import opened Convergence
  import opened Runs
  import opened Effects

  /** Of every role a user has all methods or none, and no other methods. */
  ghost predicate Whole(perms: set<Method>) {
    && (forall r: Role :: Methods(r) <= perms || Methods(r) !! perms)
    && (forall m | m in perms :: m in Methods(RoleOf(m)))
  }

  function PermsOf(g: Slice, user: string): set<Method> {
    if user in g.perms then g.perms[user] else {}
  }

  /** What changes permissions: creating a keygroup, and accepted grants and revocations. */
  datatype Change = Granted(user: string, roles: seq<Role>) | Revoked(user: string, roles: seq<Role>)

  function Changed(perms: set<Method>, user: string, c: Change): set<Method> {
    match c
    case Granted(u, roles) => if u == user then perms + MethodsOf(roles) else perms
    case Revoked(u, roles) => if u == user then perms - MethodsOf(roles) else perms
  }

  function AfterChanges(history: seq<Change>, user: string): set<Method> {
    if history == [] then {}
    else Changed(AfterChanges(history[..|history| - 1], user), user, history[|history| - 1])
  }

  /** The change that a request makes, if any. */
  function ChangeOf(g: Slice, self: string, req: Request): seq<Change> {
    match req
    case CreateKeygroup(user, _, _) =>
      if !g.record.created && !SiteOf(g, self).store.present then [Granted(user, ALL_ROLES)] else []
    case AddUser(user, newUser, role) => if Allowed(g, user, "AddUser") then [Granted(newUser, [role])] else []
    case RemoveUser(user, newUser, role) => if Allowed(g, user, "RemoveUser") then [Revoked(newUser, [role])] else []
    case _ => []
  }

  function HistoryOf(w: World, events: seq<Event>): seq<Change>
    decreases |events|
  {
    if events == [] then []
    else
      var e := events[0];
      (if e.Client? then ChangeOf(w.g, e.self, e.req) else []) + HistoryOf(Next(w, e), events[1..])
  }

  lemma OneRole(role: Role)
    ensures MethodsOf([role]) == Methods(role)
  {
  }

  /** Writes and new replicas leave the permissions alone. */
  lemma WritesKeepPerms(env: Env, g: Slice, self: string, req: Request, ch: Choice)
    requires req.Update? || req.AppendItem? || req.Delete? || req.AddReplica?
    ensures Handle(env, g, self, req, ch).g.perms == g.perms
  {
    hide Relay, Notify, Receive, CopyAll, Reaches, Opened, Acknowledged, AllAnswer, Acks;
    match req
    case Update(_, id, val) => RelayRecord(env, g, self, g.record.ok - {self}, Put(id, val));
    case AppendItem(_, val) =>
      var s := SiteOf(g, self);
      RelayRecord(env, WithSite(g, self, s.(store := AppendNew(s.store, val))), self, g.record.ok - {self},
          Append(Format(s.store.next), val));
    case Delete(_, id) =>
      var s := SiteOf(g, self);
      RelayRecord(env, WithSite(g, self, s.(store := s.store.(items := s.store.items - {id}))), self,
          g.record.ok - {self}, Remove(id));
    case AddReplica(_, n, expiry) =>
      var g2 := WithSite(g.(record := WithMember(g.record, n, expiry)), n, Open(SiteOf(g, n)));
      var from := if n != self then self else if ch.source.Some? then ch.source.value else self;
      var items := SiteOf(g2, from).store.items;
      if forall id | id in ch.order :: id in items { CopyAllRecord(env, g2, self, n, items, ch.order); }
  }

  /** The request changes the permissions by its change and by nothing else. */
  lemma RequestPerms(env: Env, g: Slice, self: string, req: Request, ch: Choice, user: string)
    ensures var c := ChangeOf(g, self, req);
      PermsOf(Handle(env, g, self, req, ch).g, user)
          == if c == [] then PermsOf(g, user) else Changed(PermsOf(g, user), user, c[0])
  {
    if req.Update? || req.AppendItem? || req.Delete? || req.AddReplica? {
      hide Handle;
      WritesKeepPerms(env, g, self, req, ch);
    } else {
      hide Methods, MethodsOf, CloseAll, Close, Open;
      match req
      case AddUser(_, _, role) => OneRole(role);
      case RemoveUser(_, _, role) => OneRole(role);
      case _ =>
    }
  }

  /** Over any run, whatever fails, a user's permissions are those of the history of changes. */
  lemma {:induction false} RunPerms(w: World, past: seq<Change>, events: seq<Event>, user: string)
    requires PermsOf(w.g, user) == AfterChanges(past, user)
    ensures PermsOf(Run(w, events).g, user) == AfterChanges(past + HistoryOf(w, events), user)
    decreases |events|
  {
    hide AfterChanges, Changed, Handle, Recover, ChangeOf;
    if events == [] {
      assert past + [] == past;
    } else {
      var e, w' := events[0], Next(w, events[0]);
      var c := if e.Client? then ChangeOf(w.g, e.self, e.req) else [];
      EventPerms(w, e, past, user);
      hide Next;
      RunPerms(w', past + c, events[1..], user);
      assert past + c + HistoryOf(w', events[1..]) == past + (c + HistoryOf(w', events[1..]));
    }
  }

  lemma EventPerms(w: World, e: Event, past: seq<Change>, user: string)
    requires PermsOf(w.g, user) == AfterChanges(past, user)
    ensures var c := if e.Client? then ChangeOf(w.g, e.self, e.req) else [];
      PermsOf(Next(w, e).g, user) == AfterChanges(past + c, user)
  {
    hide Handle, Recover, ChangeOf, Changed;
    AtMostOne(w.g, e);
    match e {
      case Client(self, req, ch) =>
        RequestPerms(w.env, w.g, self, req, ch, user);
        var c := ChangeOf(w.g, self, req);
        if c == [] {
          assert past + c == past;
        } else {
          assert (past + c)[..|past|] == past && (past + c)[|past|] == c[0];
        }
      case Start(n, sources) =>
        RecoverPerms(w.env, w.g, n, sources);
        assert past + [] == past;
      case Network(_, _) =>
        assert past + [] == past;
    }
  }

  lemma AtMostOne(g: Slice, e: Event)
    ensures e.Client? ==> |ChangeOf(g, e.self, e.req)| <= 1
  {
  }

  lemma RecoverPerms(env: Env, g: Slice, n: string, sources: map<string, Option<string>>)
    ensures Recover(env, g, n, sources).perms == g.perms
  {
  }

  /** Does the change decide on method `m` of the user? */
  predicate Touches(c: Change, user: string, m: Method) {
    c.user == user && m in MethodsOf(c.roles)
  }

  /** Change `i` is the latest that decides on the method, and it was a grant. */
  ghost predicate LatestGrants(history: seq<Change>, i: nat, user: string, m: Method) {
    i < |history| && history[i].Granted? && Touches(history[i], user, m)
    && forall j: nat | i < j < |history| :: !Touches(history[j], user, m)
  }

  lemma LatestGrantStep(history: seq<Change>, user: string, m: Method)
    requires history != []
    ensures var last := |history| - 1;
      (exists i :: LatestGrants(history, i, user, m)) <==> (
        if Touches(history[last], user, m) then history[last].Granted?
        else exists i :: LatestGrants(history[..last], i, user, m))
  {
    hide Touches;
    var last := |history| - 1;
    var before := history[..last];
    forall i: nat | i < last
        ensures LatestGrants(history, i, user, m)
          <==> LatestGrants(before, i, user, m) && !Touches(history[last], user, m) {
      forall j: nat | j < last ensures before[j] == history[j] { }
      if LatestGrants(history, i, user, m) {
        forall j: nat | i < j < last ensures !Touches(before[j], user, m) { assert !Touches(history[j], user, m); }
      }
      if LatestGrants(before, i, user, m) && !Touches(history[last], user, m) {
        forall j: nat | i < j < |history| ensures !Touches(history[j], user, m) {
          assert j < last ==> !Touches(before[j], user, m);
        }
      }
    }
    if Touches(history[last], user, m) && history[last].Granted? { assert LatestGrants(history, last, user, m); }
  }

  /** A method is allowed if and only if the latest change of the role it belongs to was a grant. */
  lemma {:induction false} LatestDecides(history: seq<Change>, user: string, m: Method)
    ensures m in AfterChanges(history, user) <==> exists i :: LatestGrants(history, i, user, m)
  {
    if history != [] {
      LatestDecides(history[..|history| - 1], user, m);
      LatestGrantStep(history, user, m);
      hide LatestGrants, MethodsOf;
    }
  }

  lemma RoleSetIsWhole(perms: set<Method>, role: Role)
    requires Whole(perms)
    ensures Whole(perms + Methods(role)) && Whole(perms - Methods(role))
  {
    hide Methods, RoleOf;
    forall r: Role
      ensures Methods(r) <= perms + Methods(role) || Methods(r) !! perms + Methods(role)
      ensures Methods(r) <= perms - Methods(role) || Methods(r) !! perms - Methods(role)
    {
      RolesAreDisjoint(r, role);
      assert Methods(r) <= perms || Methods(r) !! perms;
    }
    forall m | m in Methods(role) ensures m in Methods(RoleOf(m)) { RoleIsUnique(role, m); }
  }

  lemma {:induction false} RolesAreWhole(perms: set<Method>, roles: seq<Role>)
    requires Whole(perms)
    ensures Whole(perms + MethodsOf(roles)) && Whole(perms - MethodsOf(roles))
    decreases |roles|
  {
    hide Methods, Whole;
    if roles == [] {
      assert perms + MethodsOf([]) == perms && perms - MethodsOf([]) == perms;
    } else {
      assert forall r :: r in roles <==> r == roles[0] || r in roles[1..];
      assert MethodsOf(roles) == Methods(roles[0]) + MethodsOf(roles[1..]);
      RoleSetIsWhole(perms, roles[0]);
      RolesAreWhole(perms + Methods(roles[0]), roles[1..]);
      RolesAreWhole(perms - Methods(roles[0]), roles[1..]);
      assert perms + Methods(roles[0]) + MethodsOf(roles[1..]) == perms + MethodsOf(roles);
      assert perms - Methods(roles[0]) - MethodsOf(roles[1..]) == perms - MethodsOf(roles);
    }
  }

  /** What a user may do is always a union of complete roles. */
  lemma {:induction false} HistoryIsWhole(history: seq<Change>, user: string)
    ensures Whole(AfterChanges(history, user))
  {
    if history != [] {
      var last := history[|history| - 1];
      HistoryIsWhole(history[..|history| - 1], user);
      hide Whole, MethodsOf;
      RolesAreWhole(AfterChanges(history[..|history| - 1], user), last.roles);
    }
  }

  /** The theorem for runs that start with an empty system. */
  lemma RunsGrantWholeRoles(env: Env, events: seq<Event>, user: string, m: Method)
    ensures var g := Run(World(env, NO_SLICE), events).g;
      && Whole(PermsOf(g, user))
      && (Allowed(g, user, m) <==> exists i :: LatestGrants(HistoryOf(World(env, NO_SLICE), events), i, user, m))
  {
    var w := World(env, NO_SLICE);
    RunPerms(w, [], events, user);
    assert [] + HistoryOf(w, events) == HistoryOf(w, events);
    HistoryIsWhole(HistoryOf(w, events), user);
    LatestDecides(HistoryOf(w, events), user, m);
    hide Run, AfterChanges, HistoryOf, Whole, LatestGrants;
  }

  // ---- named roles ----

  /** Change `i` is the latest of the user's that names the role, and it was a grant. */
  ghost predicate LatestNames(history: seq<Change>, i: nat, user: string, role: Role) {
    i < |history| && history[i].Granted? && history[i].user == user && role in history[i].roles
    && forall j: nat | i < j < |history| :: !(history[j].user == user && role in history[j].roles)
  }

  lemma NamedRoleDecides(history: seq<Change>, user: string, m: Method)
    requires RoleOf(m) != ""
    ensures m in AfterChanges(history, user) <==> exists i :: LatestNames(history, i, user, RoleOf(m))
  {
    LatestDecides(history, user, m);
    hide AfterChanges, MethodsOf, RoleOf;
    forall i: nat ensures LatestGrants(history, i, user, m) <==> LatestNames(history, i, user, RoleOf(m)) {
      forall j: nat | j < |history| ensures Touches(history[j], user, m)
        <==> history[j].user == user && RoleOf(m) in history[j].roles
      {
        RolesGive(history[j].roles, m);
      }
    }
  }

  /** The role whose grant a request needs. */
  function RoleFor(req: Request): Role
    requires !req.CreateKeygroup?
  {
    match req
    case Update(_, _, _) => "W"
    case AppendItem(_, _) => "W"
    case Delete(_, _) => "W"
    case AddReplica(_, _, _) => "C"
    case RemoveReplica(_, _) => "C"
    case AddTrigger(_, _, _) => "T"
    case RemoveTrigger(_, _) => "T"
    case DeleteKeygroup(_) => "K"
    case AddUser(_, _, _) => "K"
    case RemoveUser(_, _, _) => "K"
  }

  lemma NeededRole(req: Request)
    requires !req.CreateKeygroup?
    ensures Needed(req).Some? && RoleOf(Needed(req).value) == RoleFor(req) != ""
  {
  }

  /** After any run, a user may make a request if and only if the latest change that names its role was a
      grant; otherwise the request is refused and changes nothing. */
  lemma RunsObeyRoles(env: Env, events: seq<Event>, self: string, req: Request, ch: Choice)
    requires !req.CreateKeygroup?
    ensures var w, history := Run(World(env, NO_SLICE), events), HistoryOf(World(env, NO_SLICE), events);
      && (Permitted(w.g, req) <==> exists i :: LatestNames(history, i, req.user, RoleFor(req)))
      && (!Permitted(w.g, req) ==> Handle(w.env, w.g, self, req, ch) == Reply(w.g, false))
  {
    var w0 := World(env, NO_SLICE);
    var w := Run(w0, events);
    NeededRole(req);
    RunPerms(w0, [], events, req.user);
    assert [] + HistoryOf(w0, events) == HistoryOf(w0, events);
    hide Run, HistoryOf, AfterChanges, Handle, RoleOf, RoleFor, Needed, LatestNames;
    NamedRoleDecides(HistoryOf(w0, events), req.user, Needed(req).value);
    if !Permitted(w.g, req) { UnpermittedChangesNothing(w.env, w.g, self, req, ch); }
  }

  /** A user who was only ever granted the right to read can change nothing but by creating a keygroup. */
  lemma ReadersChangeNothing(env: Env, events: seq<Event>, self: string, req: Request, ch: Choice)
    requires !req.CreateKeygroup?
    requires forall c | c in HistoryOf(World(env, NO_SLICE), events) && c.Granted? && c.user == req.user ::
      forall r | r in c.roles :: r == "R"
    ensures var w := Run(World(env, NO_SLICE), events); Handle(w.env, w.g, self, req, ch) == Reply(w.g, false)
  {
    var history := HistoryOf(World(env, NO_SLICE), events);
    RunsObeyRoles(env, events, self, req, ch);
    hide Run, HistoryOf, Handle, Permitted;
    forall i: nat ensures !LatestNames(history, i, req.user, RoleFor(req)) {
      assert i < |history| ==> history[i] in history;
    }
  }
}
