/** The role-to-method table and what granting and revoking a role does to a set of methods. */
module Roles {
  type Method = string
  type Role = string

  function Methods(role: Role): set<Method> {
    if role == "R" then {"Read"}
    else if role == "W" then {"Update", "Delete"}
    else if role == "C" then {"AddReplica", "GetReplica", "RemoveReplica"}
    else if role == "T" then {"GetTrigger", "AddTrigger", "RemoveTrigger"}
    else if role == "K" then {"DeleteKeygroup", "AddUser", "RemoveUser"}
    else {}
  }

  const ALL_ROLES: seq<Role> := ["R", "W", "C", "T", "K"]

  function MethodsOf(roles: seq<Role>): set<Method> {
    set r, m | r in roles && m in Methods(r) :: m
  }

  /** The role that a user needs for a method; nobody needs one to create a keygroup. */
  function RoleOf(m: Method): Role {
    if m == "Read" then "R"
    else if m == "Update" || m == "Delete" then "W"
    else if m == "AddReplica" || m == "GetReplica" || m == "RemoveReplica" then "C"
    else if m == "GetTrigger" || m == "AddTrigger" || m == "RemoveTrigger" then "T"
    else if m == "DeleteKeygroup" || m == "AddUser" || m == "RemoveUser" then "K"
    else ""
  }

  /** The table gives a method to the one role that is needed for it. */
  lemma RoleIsUnique(role: Role, m: Method)
    ensures m in Methods(role) <==> role != "" && role == RoleOf(m)
  {
  }

  /** Some of the roles give the method if and only if the needed one is among them. */
  lemma RolesGive(roles: seq<Role>, m: Method)
    ensures m in MethodsOf(roles) <==> RoleOf(m) != "" && RoleOf(m) in roles
  {
    hide Methods, RoleOf;
    forall r ensures m in Methods(r) <==> r != "" && r == RoleOf(m) { RoleIsUnique(r, m); }
    if RoleOf(m) != "" && RoleOf(m) in roles { assert m in Methods(RoleOf(m)); }
  }

  /** No method belongs to two roles. */
  lemma RolesAreDisjoint(a: Role, b: Role)
    ensures a != b ==> Methods(a) !! Methods(b)
  {
  }
}
