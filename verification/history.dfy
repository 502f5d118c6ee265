/**
  Membership over whole histories. However a keygroup was created, deleted, joined and
  left, its members are the nodes whose latest event is that they founded or joined it,
  each with the expiry it came with last.
 */
module Histories {
  import opened Fields
  import opened Records
  import opened NameKeys
  import opened NameView
  import opened NameCache
  import opened NameServices

  datatype Event =
    | Create(self: Word, mutable: bool, expiry: int)
    | Delete
    | Join(node: Word, expiry: int)
    | Exit(node: Word)

  /** One operation of the name service on a record; `known` are the nodes with an address. */
  function Happened(r: Record, e: Event, known: set<string>): Record {
    match e
    case Create(self, mutable, expiry) => if r.created then r else Founded(r, self, mutable, expiry)
    case Delete => Retired(r)
    case Join(n, expiry) => if r.created && n in known then WithMember(r, n, expiry) else r
    case Exit(n) => if r.created && n in known then WithoutMember(r, n) else r
  }

  function After(events: seq<Event>, known: set<string>): Record {
    if events == [] then NO_RECORD
    else Happened(After(events[..|events| - 1], known), events[|events| - 1], known)
  }

  /** Event `i` creates the keygroup and none after it deletes it. */
  ghost predicate LiveSince(events: seq<Event>, i: nat) {
    i < |events| && events[i].Create? && forall j: nat | i < j < |events| :: !events[j].Delete?
  }

  ghost predicate Live(events: seq<Event>) {
    exists i: nat :: LiveSince(events, i)
  }

  /** Event `i` makes `n` a member: it founds a keygroup that does not exist, or joins one that does. */
  ghost predicate Brings(events: seq<Event>, i: nat, n: Word, known: set<string>)
    requires i < |events|
  {
    match events[i]
    case Create(self, _, _) => self == n && !Live(events[..i])
    case Join(node, _) => node == n && n in known && Live(events[..i])
    case _ => false
  }

  /** Event `i` ends the membership of `n`: it leaves, or the keygroup is founded anew by another node. */
  ghost predicate Removes(events: seq<Event>, i: nat, n: Word, known: set<string>)
    requires i < |events|
  {
    match events[i]
    case Create(self, _, _) => self != n && !Live(events[..i])
    case Exit(node) => node == n && n in known && Live(events[..i])
    case _ => false
  }

  /** Event `i` is the latest that decides on `n`, and it made `n` a member. */
  ghost predicate LatestBrings(events: seq<Event>, i: nat, n: Word, known: set<string>) {
    i < |events| && Brings(events, i, n, known)
    && forall j: nat | i < j < |events| :: !Brings(events, j, n, known) && !Removes(events, j, n, known)
  }

  function ExpiryGiven(e: Event): int
    requires e.Create? || e.Join?
  {
    e.expiry
  }

  lemma LiveStep(events: seq<Event>)
    requires events != []
    ensures var last := events[|events| - 1];
      Live(events) <==> last.Create? || (!last.Delete? && Live(events[..|events| - 1]))
  {
    var last := |events| - 1;
    var before := events[..last];
    forall i: nat | i < last ensures LiveSince(events, i) <==> LiveSince(before, i) && !events[last].Delete? { }
    if events[last].Create? { assert LiveSince(events, last); }
  }

  lemma {:induction false} CreatedIsLive(events: seq<Event>, known: set<string>)
    ensures After(events, known).created == Live(events)
  {
    if events != [] {
      LiveStep(events);
      CreatedIsLive(events[..|events| - 1], known);
      hide Live;
    }
  }

  lemma PrefixDecides(events: seq<Event>, i: nat, n: Word, known: set<string>)
    requires i < |events| - 1
    ensures var before := events[..|events| - 1];
      && before[i] == events[i]
      && Brings(before, i, n, known) == Brings(events, i, n, known)
      && Removes(before, i, n, known) == Removes(events, i, n, known)
  {
    assert events[..|events| - 1][..i] == events[..i];
    hide Live;
  }

  lemma LatestInPrefix(events: seq<Event>, i: nat, n: Word, known: set<string>)
    requires i < |events| - 1
    ensures LatestBrings(events, i, n, known)
      <==> (LatestBrings(events[..|events| - 1], i, n, known)
            && !Brings(events, |events| - 1, n, known) && !Removes(events, |events| - 1, n, known))
  {
    var before := events[..|events| - 1];
    hide Brings, Removes;
    PrefixDecides(events, i, n, known);
    forall j: nat | i < j < |events| - 1
      ensures Brings(before, j, n, known) == Brings(events, j, n, known)
        && Removes(before, j, n, known) == Removes(events, j, n, known)
    {
      PrefixDecides(events, j, n, known);
    }
  }

  lemma MemberStep(events: seq<Event>, n: Word, known: set<string>)
    requires events != []
    ensures var last := |events| - 1;
      var r, r' := After(events[..last], known), After(events, known);
      && (n in r'.ok <==> Brings(events, last, n, known) || (n in r.ok && !Removes(events, last, n, known)))
      && (if Brings(events, last, n, known) then ExpiryOf(r', n) == ExpiryGiven(events[last])
          else n in r'.ok ==> ExpiryOf(r', n) == ExpiryOf(r, n))
  {
    CreatedIsLive(events[..|events| - 1], known);
    hide Live;
  }

  /** The members are the nodes that came and did not go since, with the expiries they came with. */
  lemma {:induction false} MembersAreLatest(events: seq<Event>, n: Word, known: set<string>)
    ensures n in After(events, known).ok <==> exists i: nat :: LatestBrings(events, i, n, known)
    ensures forall i: nat | LatestBrings(events, i, n, known) ::
      ExpiryOf(After(events, known), n) == ExpiryGiven(events[i])
  {
    if events != [] {
      var last := |events| - 1;
      var before := events[..last];
      MembersAreLatest(before, n, known);
      MemberStep(events, n, known);
      hide Brings, Removes, After, ExpiryOf;
      assert Brings(events, last, n, known) <==> LatestBrings(events, last, n, known);
      forall i: nat | i < last
        ensures LatestBrings(events, i, n, known)
          <==> (LatestBrings(before, i, n, known) && !Brings(events, last, n, known)
              && !Removes(events, last, n, known))
        ensures before[i] == events[i]
      {
        LatestInPrefix(events, i, n, known);
      }
      assert forall i: nat | LatestBrings(events, i, n, known) || LatestBrings(before, i, n, known) :: i <= last;
      hide LatestBrings;
      if n in After(before, known).ok {
        var i: nat :| LatestBrings(before, i, n, known);
        assert i < last;
      }
    }
  }

  /** Event `i` is the latest that founded the keygroup. */
  ghost predicate LatestFounds(events: seq<Event>, i: nat) {
    i < |events| && Founds(events, i) && forall j: nat | i < j < |events| :: !Founds(events, j)
  }

  ghost predicate Founds(events: seq<Event>, i: nat)
    requires i < |events|
  {
    events[i].Create? && !Live(events[..i])
  }

  lemma FoundsInPrefix(events: seq<Event>, i: nat)
    requires i < |events| - 1
    ensures Founds(events[..|events| - 1], i) == Founds(events, i)
  {
    assert events[..|events| - 1][..i] == events[..i];
  }

  lemma FoundingStep(events: seq<Event>, i: nat)
    requires i < |events| - 1
    ensures LatestFounds(events, i) <==> LatestFounds(events[..|events| - 1], i) && !Founds(events, |events| - 1)
  {
    hide Founds;
    forall j: nat | j < |events| - 1 ensures Founds(events[..|events| - 1], j) == Founds(events, j) {
      FoundsInPrefix(events, j);
    }
    var before := events[..|events| - 1];
    if LatestFounds(before, i) && !Founds(events, |events| - 1) {
      forall j: nat | i < j < |events| ensures !Founds(events, j) { assert j < |before| ==> !Founds(before, j); }
    }
    if LatestFounds(events, i) {
      assert !Founds(events, |events| - 1);
      forall j: nat | i < j < |before| ensures !Founds(before, j) { assert !Founds(events, j); }
    }
  }

  /** A keygroup is as mutable as the latest event that founded it said. */
  lemma {:induction false} MutabilityIsLatest(events: seq<Event>, known: set<string>)
    ensures forall i: nat | LatestFounds(events, i) :: After(events, known).mutable == events[i].mutable
    ensures (forall i: nat | i < |events| :: !Founds(events, i)) ==> !After(events, known).mutable
  {
    if events != [] {
      var last := |events| - 1;
      var before := events[..last];
      MutabilityIsLatest(before, known);
      CreatedIsLive(before, known);
      forall i: nat | i < last ensures LatestFounds(events, i) <==> LatestFounds(before, i) && !Founds(events, last) {
        FoundingStep(events, i);
      }
      forall i: nat | i < last ensures Founds(before, i) == Founds(events, i) && before[i] == events[i] {
        FoundsInPrefix(events, i);
      }
      hide Live, LatestFounds;
      FoundedNow(events, known);
      forall i: nat | LatestFounds(events, i) ensures After(events, known).mutable == events[i].mutable {
        IsPosition(events, i);
        if i < last { assert LatestFounds(before, i); }
      }
    }
  }

  lemma IsPosition(events: seq<Event>, i: nat)
    requires LatestFounds(events, i)
    ensures i < |events| && Founds(events, i)
    ensures i < |events| - 1 ==> !Founds(events, |events| - 1)
  {
  }

  lemma FoundedNow(events: seq<Event>, known: set<string>)
    requires events != []
    ensures var last := |events| - 1;
      After(events, known).mutable
        == if Founds(events, last) then events[last].mutable else After(events[..last], known).mutable
  {
    CreatedIsLive(events[..|events| - 1], known);
    hide Live;
  }

  // ---- the flat keys follow ----

  /** The node whose client carries the event out; only founding a keygroup depends on it. */
  function By(e: Event, otherwise: Word): Word {
    if e.Create? then e.self else otherwise
  }

  method PerformOne(s: NameService, kg: Name, e: Event, ghost known: set<string>)
    requires s.Valid() && (e.Create? ==> e.self == s.nodeID)
    requires forall n: Word :: HasAddress(s.kv, n) <==> n in known
    modifies s`kv, s`local
    ensures s.Valid() && RecordOf(s.kv, kg) == Happened(RecordOf(old(s.kv), kg), e, known)
    ensures OnlyAbout(old(s.kv), s.kv, kg) && forall n: Word :: HasAddress(s.kv, n) <==> n in known
  {
    hide RecordOf, WellFormed, CoherentBut;
    SameAsItself(s.kv, kg);
    match e {
      case Create(self, mutable, expiry) => { var _ := s.CreateKeygroup(kg, mutable, expiry); }
      case Delete => { s.DeleteKeygroup(kg); }
      case Join(n, expiry) => { var _ := s.JoinNodeIntoKeygroup(kg, n, expiry); }
      case Exit(n) => { var _ := s.ExitOtherNodeFromKeygroup(kg, n); }
    }
  }

  /** Whichever nodes carry a history out, one event after the other, the flat keys end with the
      record of that history. Each event goes through a client of its own with an empty cache. */
  method Perform(before: Kv, kg: Name, events: seq<Event>, cached: bool, otherwise: Word, ghost known: set<string>)
    returns (kv: Kv)
    requires WellFormed(before) && RecordOf(before, kg) == NO_RECORD
    requires forall n: Word :: HasAddress(before, n) <==> n in known
    ensures WellFormed(kv) && RecordOf(kv, kg) == After(events, known)
    ensures forall k: Name | k != kg :: RecordOf(kv, k) == RecordOf(before, k)
  {
    kv := before;
    hide RecordOf, HasAddress, WellFormed;
    for i := 0 to |events|
      invariant WellFormed(kv) && RecordOf(kv, kg) == After(events[..i], known)
      invariant forall k: Name | k != kg :: RecordOf(kv, k) == RecordOf(before, k)
      invariant forall n: Word :: HasAddress(kv, n) <==> n in known
    {
      assert events[..i + 1][..i] == events[..i];
      var client := new NameService(By(events[i], otherwise), cached, kv);
      PerformOne(client, kg, events[i], known);
      kv := client.kv;
    }
    assert events[..|events|] == events;
  }

  /** What one client reports through its own cache: every keygroup it founds, it founds as itself. */
  function AsSelf(e: Event, self: Word): Event {
    if e.Create? then e.(self := self) else e
  }

  function AllAsSelf(events: seq<Event>, self: Word): (own: seq<Event>)
    ensures |own| == |events| && forall i | 0 <= i < |events| :: own[i] == AsSelf(events[i], self)
  {
    seq(|events|, i requires 0 <= i < |events| => AsSelf(events[i], self))
  }

  /** A single client may keep its cache over the whole history. */
  method PerformThroughCache(s: NameService, kg: Name, events: seq<Event>, ghost known: set<string>)
    requires s.Valid() && RecordOf(s.kv, kg) == NO_RECORD
    requires forall n: Word :: HasAddress(s.kv, n) <==> n in known
    modifies s`kv, s`local
    ensures s.Valid() && RecordOf(s.kv, kg) == After(AllAsSelf(events, s.nodeID), known)
    ensures forall k: Name | k != kg :: RecordOf(s.kv, k) == RecordOf(old(s.kv), k)
  {
    ghost var own := AllAsSelf(events, s.nodeID);
    hide RecordOf, HasAddress, NameService.Valid;
    for i := 0 to |events|
      invariant s.Valid() && RecordOf(s.kv, kg) == After(own[..i], known)
      invariant forall k: Name | k != kg :: RecordOf(s.kv, k) == RecordOf(old(s.kv), k)
      invariant forall n: Word :: HasAddress(s.kv, n) <==> n in known
    {
      assert own[..i + 1][..i] == own[..i];
      PerformOne(s, kg, AsSelf(events[i], s.nodeID), known);
    }
    assert own[..|events|] == own;
  }

  lemma {:induction false} OnlyWordsAreMembers(events: seq<Event>, known: set<string>, n: string)
    requires n in After(events, known).ok
    ensures n != "" && NoSep(n)
  {
    if events != [] {
      var before := events[..|events| - 1];
      if n in After(before, known).ok { OnlyWordsAreMembers(before, known, n); }
    }
  }

  /** The members with their expiries, read off a history alone. */
  ghost predicate AreLatest(ids: map<string, int>, events: seq<Event>, known: set<string>) {
    && (forall n | n in ids :: n != "" && NoSep(n))
    && (forall n: Word :: n in ids <==> exists i: nat :: LatestBrings(events, i, n, known))
    && (forall n: Word, i: nat | LatestBrings(events, i, n, known) :: n in ids && ids[n] == ExpiryGiven(events[i]))
  }

  lemma RecordShowsLatest(r: Record, events: seq<Event>, known: set<string>)
    requires r == After(events, known)
    ensures AreLatest(Records.Members(r), events, known)
  {
    forall n | n in r.ok ensures n != "" && NoSep(n) { OnlyWordsAreMembers(events, known, n); }
    hide LatestBrings, After;
    forall n: Word
      ensures n in r.ok <==> exists i: nat :: LatestBrings(events, i, n, known)
      ensures forall i: nat | LatestBrings(events, i, n, known) :: ExpiryOf(r, n) == ExpiryGiven(events[i])
    {
      MembersAreLatest(events, n, known);
    }
  }

  /** The whole way: after any history, GetKeygroupMembers gives exactly the nodes whose latest event
      is that they founded or joined the keygroup, each with the expiry of that event. */
  method MembersAfter(before: Kv, kg: Name, events: seq<Event>, asking: Word, cached: bool, ghost known: set<string>)
    returns (ids: map<string, int>)
    requires WellFormed(before) && RecordOf(before, kg) == NO_RECORD
    requires forall n: Word :: HasAddress(before, n) <==> n in known
    ensures AreLatest(ids, events, known)
  {
    hide RecordOf, WellFormed, HasAddress, AreLatest;
    var kv := Perform(before, kg, events, cached, asking, known);
    var client := new NameService(asking, cached, kv);
    var ok;
    ids, ok := client.GetKeygroupMembers(kg, false);
    RecordShowsLatest(RecordOf(kv, kg), events, known);
  }

  /** The whole way for mutability: after any history that founded the keygroup, IsMutable gives the flag
      of the latest founding. */
  method MutableAfter(before: Kv, kg: Name, events: seq<Event>, asking: Word, cached: bool, ghost known: set<string>)
    returns (mutable: bool)
    requires WellFormed(before) && RecordOf(before, kg) == NO_RECORD
    requires forall n: Word :: HasAddress(before, n) <==> n in known
    ensures forall i: nat | LatestFounds(events, i) :: mutable == events[i].mutable
    ensures (forall i: nat | i < |events| :: !Founds(events, i)) ==> !mutable
  {
    hide RecordOf, WellFormed, HasAddress, LatestFounds, Founds;
    var kv := Perform(before, kg, events, cached, asking, known);
    var client := new NameService(asking, cached, kv);
    mutable := client.IsMutable(kg);
    MutabilityIsLatest(events, known);
  }
}
