/** The authorization service of pkg/fred/auth.go over the name service client. */
module AuthServices {
  import opened Fields
  import opened Roles
  import opened NameKeys
  import opened NameView
  import opened NameServices

  class AuthService {
    const n: NameService

    constructor (n: NameService)
      ensures this.n == n
    {
      this.n := n;
    }

    method AddRoles(u: Word, roles: seq<Role>, kg: Name)
      requires n.Valid()
      modifies n`kv, n`local
      ensures n.Valid() && PermsOf(n.kv, u, kg) == PermsOf(old(n.kv), u, kg) + MethodsOf(roles)
      ensures OnlyPerms(old(n.kv), n.kv, u, kg)
    {
      hide PermsOf, OnlyPerms, NameService.Valid, Methods;
      SamePermsStay(n.kv, u, kg);
      assert MethodsOf([]) == {};
      hide MethodsOf;
      ghost var before := n.kv;
      for i := 0 to |roles|
        invariant n.Valid() && OnlyPerms(before, n.kv, u, kg)
        invariant PermsOf(n.kv, u, kg) == PermsOf(before, u, kg) + MethodsOf(roles[..i])
      {
        ghost var atRole := n.kv;
        var left := Methods(roles[i]);
        while left != {}
          invariant left <= Methods(roles[i])
          invariant n.Valid() && OnlyPerms(before, n.kv, u, kg)
          invariant PermsOf(n.kv, u, kg) == PermsOf(atRole, u, kg) + (Methods(roles[i]) - left)
          decreases left
        {
          var m :| m in left;
          MethodsAreWords(roles[i], m);
          ghost var at := n.kv;
          n.AddUserPermissions(u, m, kg);
          OnlyPermsStep(before, at, n.kv, u, kg);
          assert (Methods(roles[i]) - left) + {m} == Methods(roles[i]) - (left - {m});
          left := left - {m};
        }
        assert Methods(roles[i]) - {} == Methods(roles[i]);
        MethodsStep(roles, i);
      }
      assert roles[..|roles|] == roles;
    }

    method RevokeRoles(u: Word, roles: seq<Role>, kg: Name)
      requires n.Valid()
      modifies n`kv, n`local
      ensures n.Valid() && PermsOf(n.kv, u, kg) == PermsOf(old(n.kv), u, kg) - MethodsOf(roles)
      ensures OnlyPerms(old(n.kv), n.kv, u, kg)
    {
      hide PermsOf, OnlyPerms, NameService.Valid, Methods;
      SamePermsStay(n.kv, u, kg);
      assert MethodsOf([]) == {};
      hide MethodsOf;
      ghost var before := n.kv;
      for i := 0 to |roles|
        invariant n.Valid() && OnlyPerms(before, n.kv, u, kg)
        invariant PermsOf(n.kv, u, kg) == PermsOf(before, u, kg) - MethodsOf(roles[..i])
      {
        ghost var atRole := n.kv;
        var left := Methods(roles[i]);
        while left != {}
          invariant left <= Methods(roles[i])
          invariant n.Valid() && OnlyPerms(before, n.kv, u, kg)
          invariant PermsOf(n.kv, u, kg) == PermsOf(atRole, u, kg) - (Methods(roles[i]) - left)
          decreases left
        {
          var m :| m in left;
          MethodsAreWords(roles[i], m);
          ghost var at := n.kv;
          n.RevokeUserPermissions(u, m, kg);
          OnlyPermsStep(before, at, n.kv, u, kg);
          assert (Methods(roles[i]) - left) + {m} == Methods(roles[i]) - (left - {m});
          left := left - {m};
        }
        assert Methods(roles[i]) - {} == Methods(roles[i]);
        MethodsStep(roles, i);
      }
      assert roles[..|roles|] == roles;
    }

    method IsAllowed(u: Word, m: Method, kg: Name) returns (ok: bool)
      requires n.Valid()
      modifies n`local
      ensures n.Valid() && ok == (m in PermsOf(n.kv, u, kg))
    {
      var p := n.GetUserPermissions(u, kg);
      ok := m in p;
    }
  }

  lemma MethodsAreWords(role: Role, m: Method)
    requires m in Methods(role)
    ensures m != "" && NoSep(m)
  {
  }

  lemma MethodsStep(roles: seq<Role>, i: nat)
    requires i < |roles|
    ensures MethodsOf(roles[..i + 1]) == MethodsOf(roles[..i]) + Methods(roles[i])
  {
  }

  lemma SamePermsStay(kv: Kv, u: Word, kg: Name)
    ensures OnlyPerms(kv, kv, u, kg)
  {
  }

  lemma OnlyPermsStep(a: Kv, b: Kv, c: Kv, u: Word, kg: Name)
    requires OnlyPerms(a, b, u, kg) && OnlyPerms(b, c, u, kg)
    ensures OnlyPerms(a, c, u, kg)
  {
  }
}
