/**
  How the two layers meet. The flat keys of the name service represent what `Protocol`
  keeps of a keygroup there: its record, the permissions on it, and who missed what. Each
  operation on the flat keys is the step that the protocol takes on its slice.
 */
module Naming {
  import opened Fields
  import opened Records
  import opened Roles
  import opened NameKeys
  import opened NameView
  import opened NameServices
  import opened AuthServices
  import P = Protocol

  ghost predicate Represents(kv: Kv, kg: Name, g: P.Slice) {
    && RecordOf(kv, kg) == g.record
    && (forall u: Word :: PermsOf(kv, u, kg) == if u in g.perms then g.perms[u] else {})
    && (forall n: Word, id :: IsMissed(kv, n, kg, id) <==> P.Missed(n, id) in g.missed)
  }

  /** An operation on the record of one keygroup changes that of the slice, and no other slice. */
  lemma RecordStep(kv: Kv, kv': Kv, kg: Name, g: P.Slice, r: Record, k: Name, other: P.Slice)
    requires Represents(kv, kg, g) && RecordOf(kv', kg) == r && OnlyAbout(kv, kv', kg)
    ensures Represents(kv', kg, g.(record := r))
    ensures k != kg && Represents(kv, k, other) ==> Represents(kv', k, other)
  {
    hide RecordOf, PermsOf, IsMissed;
  }

  method CreateKeygroup(n: NameService, kg: Name, mutable: bool, expiry: int, ghost g: P.Slice) returns (ok: bool)
    requires n.Valid() && Represents(n.kv, kg, g)
    modifies n`kv, n`local
    ensures n.Valid() && ok == !g.record.created
    ensures Represents(n.kv, kg, if ok then g.(record := Founded(g.record, n.nodeID, mutable, expiry)) else g)
  {
    ok := n.CreateKeygroup(kg, mutable, expiry);
    hide Represents, NameService.Valid;
    RecordStep(old(n.kv), n.kv, kg, g, RecordOf(n.kv, kg), kg, g);
    RecordIs(old(n.kv), kg, g);
  }

  lemma RecordIs(kv: Kv, kg: Name, g: P.Slice)
    requires Represents(kv, kg, g)
    ensures RecordOf(kv, kg) == g.record && g.(record := g.record) == g
  {
  }

  /** The guard of every handler: the flat permissions answer as the slice does. */
  method IsAllowed(a: AuthService, u: Word, m: Method, kg: Name, ghost g: P.Slice) returns (ok: bool)
    requires a.n.Valid() && Represents(a.n.kv, kg, g)
    modifies a.n`local
    ensures a.n.Valid() && ok == P.Allowed(g, u, m)
  {
    ok := a.IsAllowed(u, m, kg);
  }

  method AddRoles(a: AuthService, u: Word, roles: seq<Role>, kg: Name, ghost g: P.Slice)
    requires a.n.Valid() && Represents(a.n.kv, kg, g)
    modifies a.n`kv, a.n`local
    ensures a.n.Valid() && Represents(a.n.kv, kg, P.Grant(g, u, MethodsOf(roles)))
  {
    hide MethodsOf, RecordOf, PermsOf, IsMissed;
    a.AddRoles(u, roles, kg);
  }

  method RevokeRoles(a: AuthService, u: Word, roles: seq<Role>, kg: Name, ghost g: P.Slice)
    requires a.n.Valid() && Represents(a.n.kv, kg, g)
    modifies a.n`kv, a.n`local
    ensures a.n.Valid() && Represents(a.n.kv, kg, P.Revoke(g, u, MethodsOf(roles)))
  {
    hide MethodsOf, RecordOf, PermsOf, IsMissed;
    a.RevokeRoles(u, roles, kg);
  }

  method ReportFailedNode(n: NameService, node: Word, kg: Name, id: string, ghost g: P.Slice)
    requires n.Valid() && Represents(n.kv, kg, g)
    modifies n`kv, n`local
    ensures n.Valid() && Represents(n.kv, kg, g.(missed := g.missed + {P.Missed(node, id)}))
  {
    hide RecordOf, PermsOf, IsMissed;
    n.ReportFailedNode(node, kg, id);
  }

  /** A drain gives, of each keygroup, the ids that recovery asks for, and leaves what recovery leaves. */
  lemma DrainStep(kv: Kv, kv': Kv, node: Word, items: seq<(string, string)>, kg: Name, g: P.Slice,
          back: map<string, string>)
    requires Represents(kv, kg, g) && Drained(kv, kv', node, items)
    requires SameRecords(kv, kv') && SamePerms(kv, kv')
    requires forall m: Word, id | m != node :: IsMissed(kv', m, kg, id) == IsMissed(kv, m, kg, id)
    ensures forall i :: (kg, i) in items <==> i in P.MissedIds(g, node)
    ensures Represents(kv', kg, P.Restored(g, node, back))
  {
    hide RecordOf, PermsOf, IsMissed, Head;
    forall i ensures (kg, i) in items <==> i in P.MissedIds(g, node) {
      if i in P.MissedIds(g, node) {
        var m :| m in g.missed && m.node == node && Head(m.id) == i;
        assert IsMissed(kv, node, kg, m.id);
      }
      if (kg, i) in items {
        var id :| IsMissed(kv, node, kg, id) && Head(id) == i;
        assert P.Missed(node, id) in g.missed;
      }
    }
  }
}
