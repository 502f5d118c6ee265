/**
  Choosing the replica to recover from: GetNodeWithBiggerExpiry walks over a Go map, in
  an order nobody fixes, keeps the best expiry so far and stops early at MaxInt32.
 */
module Sources {
  import opened Numerals

  const MAX_INT32 := 0x7fff_ffff

  /** An expiry of 0 means that items never expire. */
  function Reading(expiry: int): int {
    if expiry == 0 then MAX_INT32 else expiry
  }

  ghost predicate Maximal(members: map<string, int>, node: string) {
    node in members && forall k | k in members :: Reading(members[k]) <= Reading(members[node])
  }

  /** The nodes the walk can end with, over all orders. */
  ghost predicate MayChoose(members: map<string, int>, choice: Option<string>) {
    match choice
    case None => forall k | k in members :: Reading(members[k]) <= 0
    case Some(m) => m in members && Reading(members[m]) > 0 && (Reading(members[m]) == MAX_INT32 || Maximal(members, m))
  }

  lemma {:induction false} SomeMaximal(members: map<string, int>) returns (m: string)
    requires members != map[]
    ensures Maximal(members, m)
    decreases members.Keys
  {
    m :| m in members;
    var rest := members - {m};
    assert rest.Keys == members.Keys - {m};
    assert forall k | k in members :: k == m || k in rest;
    if rest != map[] {
      var r := SomeMaximal(rest);
      assert forall k | k in rest :: rest[k] == members[k];
      if Reading(members[r]) > Reading(members[m]) { m := r; }
    }
  }

  lemma SomeChoice(members: map<string, int>) returns (choice: Option<string>)
    ensures MayChoose(members, choice)
  {
    if forall k | k in members :: Reading(members[k]) <= 0 {
      choice := None;
    } else {
      var m := SomeMaximal(members);
      choice := Some(m);
    }
  }

  method GetNodeWithBiggerExpiry(members: map<string, int>) returns (node: Option<string>)
    ensures MayChoose(members, node)
  {
    var currentBestExpiry := 0;
    node := None;
    var left := members;
    while left != map[]
      invariant forall k | k in left :: k in members && left[k] == members[k]
      invariant forall k | k in members && k !in left :: Reading(members[k]) <= currentBestExpiry
      invariant if node.None? then currentBestExpiry == 0
        else node.value in members && currentBestExpiry == Reading(members[node.value]) > 0
      decreases |left.Keys|
    {
      var k :| k in left;
      var exp := Reading(left[k]);
      assert (left - {k}).Keys == left.Keys - {k};
      left := left - {k};
      if exp > currentBestExpiry {
        currentBestExpiry := exp;
        node := Some(k);
        if exp == MAX_INT32 { break; }
      }
    }
  }

  /** The walk in one given order, from `best` on, whose reading is `reading`. */
  function Walk(members: map<string, int>, order: seq<string>, reading: int, best: Option<string>): Option<string>
    requires forall k | k in order :: k in members
  {
    if order == [] then best else
      var exp := Reading(members[order[0]]);
      if exp <= reading then Walk(members, order[1..], reading, best)
      else if exp == MAX_INT32 then Some(order[0])
      else Walk(members, order[1..], exp, Some(order[0]))
  }

  ghost predicate Enumerates<V>(order: seq<string>, members: map<string, V>) {
    (forall k :: k in order <==> k in members) && (forall i, j | 0 <= i < j < |order| :: order[i] != order[j])
  }

  lemma {:induction false} Enumeration<V>(items: map<string, V>) returns (order: seq<string>)
    ensures Enumerates(order, items)
    decreases items.Keys
  {
    order := [];
    if items != map[] {
      var id :| id in items;
      assert (items - {id}).Keys == items.Keys - {id};
      order := Enumeration(items - {id});
      order := order + [id];
    }
  }

  /** Every choice that MayChoose allows is made in some order: a chosen node comes first, and where no
      node can be chosen, every order chooses none. */
  lemma EveryChoiceIsMade(members: map<string, int>, choice: Option<string>) returns (order: seq<string>)
    requires MayChoose(members, choice)
    ensures Enumerates(order, members) && Walk(members, order, 0, None) == choice
  {
    match choice {
      case None =>
        order := Enumeration(members);
        WalkIsBest(members, order, 0, None);
        hide Walk;
      case Some(m) =>
        var rest := Enumeration(members - {m});
        order := [m] + rest;
        assert order[1..] == rest;
        assert forall k | k in rest :: k in members;
        if Reading(members[m]) != MAX_INT32 { WalkStays(members, rest, Reading(members[m]), m); }
    }
  }

  lemma {:induction false} WalkStays(members: map<string, int>, order: seq<string>, reading: int, m: string)
    requires forall k | k in order :: k in members && Reading(members[k]) <= reading
    ensures Walk(members, order, reading, Some(m)) == Some(m)
  {
    if order != [] { WalkStays(members, order[1..], reading, m); }
  }

  /** Whatever the order, the walk ends with a choice that MayChoose allows. */
  lemma {:induction false} WalkMayChoose(members: map<string, int>, order: seq<string>)
    requires Enumerates(order, members)
    ensures MayChoose(members, Walk(members, order, 0, None))
  {
    WalkIsBest(members, order, 0, None);
  }

  ghost predicate BestOf(members: map<string, int>, order: seq<string>, reading: int, best: int)
    requires forall k | k in order :: k in members
  {
    reading <= best && forall k | k in order :: Reading(members[k]) <= best
  }

  lemma {:induction false} WalkIsBest(members: map<string, int>, order: seq<string>, reading: int, best: Option<string>)
    requires forall k | k in order :: k in members
    requires if best.None? then reading == 0 else best.value in members && reading == Reading(members[best.value]) > 0
    ensures Walk(members, order, reading, best).None?
      ==> best.None? && forall k | k in order :: Reading(members[k]) <= 0
    ensures Walk(members, order, reading, best).Some? ==>
      var m := Walk(members, order, reading, best).value;
      && m in members && Reading(members[m]) > 0
      && (Reading(members[m]) == MAX_INT32 || BestOf(members, order, reading, Reading(members[m])))
  {
    if order != [] {
      var exp := Reading(members[order[0]]);
      if exp <= reading {
        WalkIsBest(members, order[1..], reading, best);
      } else if exp != MAX_INT32 {
        WalkIsBest(members, order[1..], exp, Some(order[0]));
      }
      assert forall k | k in order :: k == order[0] || k in order[1..];
    }
  }

  /** The members' expiries are such that the walk cannot go wrong. */
  ghost predicate Comparable(members: map<string, int>) {
    && (exists k | k in members :: Reading(members[k]) > 0)
    && ((forall k | k in members :: Reading(members[k]) <= MAX_INT32)
        || (forall k | k in members :: Reading(members[k]) != MAX_INT32))
  }

  /** Every possible choice is a member with maximal expiry if and only if some expiry is not
      negative, and not both an unlimited expiry and one above MaxInt32 occur. */
  lemma {:induction false} BestSourceExactly(members: map<string, int>)
    ensures Comparable(members) <==> forall r | MayChoose(members, r) :: r.Some? && Maximal(members, r.value)
  {
    if !Comparable(members) {
      if forall k | k in members :: Reading(members[k]) <= 0 {
        assert MayChoose(members, None);
      } else {
        var big :| big in members && Reading(members[big]) > MAX_INT32;
        var unlimited :| unlimited in members && Reading(members[unlimited]) == MAX_INT32;
        assert MayChoose(members, Some(unlimited)) && !Maximal(members, unlimited);
      }
    }
  }

  /** In the documented range of expiries the source is always one with maximal expiry. */
  lemma BestSource(members: map<string, int>, r: Option<string>)
    requires members != map[] && forall k | k in members :: 0 <= members[k] <= MAX_INT32
    requires MayChoose(members, r)
    ensures r.Some? && Maximal(members, r.value)
  {
  }

  /** With expiries from 0 to 2147483647, a member whose items never expire (expiry 0, or the largest one)
      is chosen if there is one, and otherwise one with the largest expiry. */
  lemma UnlimitedWins(members: map<string, int>, r: Option<string>)
    requires members != map[] && forall k | k in members :: 0 <= members[k] <= 2147483647
    requires MayChoose(members, r)
    ensures r.Some? && r.value in members
    ensures if exists k | k in members :: members[k] == 0 || members[k] == 2147483647
      then members[r.value] == 0 || members[r.value] == 2147483647
      else forall k | k in members :: members[k] <= members[r.value]
  {
    BestSource(members, r);
    if k :| k in members && (members[k] == 0 || members[k] == 2147483647) {
      assert Reading(members[k]) <= Reading(members[r.value]);
    } else {
      forall k | k in members ensures members[k] <= members[r.value] {
        assert Reading(members[k]) <= Reading(members[r.value]);
      }
    }
  }
}
