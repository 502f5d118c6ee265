/**
  Inputs on which the code does not do what its callers may expect. The exact conditions
  are in `AddingReplicas.AddReplicaExactly`, `Divergence.RecoverExactly`,
  `Divergence.RecoverStaysRecordedExactly`, `TriggerLog.RequestReplaysExactly`,
  `TriggerLog.StartReplaysExactly`, `Sources.BestSourceExactly`, `NameServices.DrainIsExact`
  and `Watches.SettledExactly`.
 */
module Counterexamples {
  import opened Fields
  import opened Numerals
  import opened LocalStore
  import opened Records
  import opened Roles
  import opened Sources
  import opened Protocol
  import opened NameKeys
  import opened NameView
  import opened NameServices

  const ITEM: map<string, string> := map["x" := "1"]

  /** A copy without triggers that holds one item. */
  const FULL: Site := Site(Local(true, ITEM, map[], 0), map[])

  function Everybody(): Env {
    Env({"a", "b", "c"}, set p, q | p in {"a", "b", "c"} && q in {"a", "b", "c"} :: (p, q), {})
  }

  const OWNER: map<string, set<Method>> := map["u" := MethodsOf(ALL_ROLES)]

  lemma OwnerMay(m: Method)
    requires m in Methods("W") || m in Methods("C")
    ensures m in MethodsOf(ALL_ROLES)
  {
  }

  /** A third node added through a coordinator that is no member becomes a member without the items. */
  lemma OutsiderAddsEmptyReplica(ch: Choice)
    ensures var g := Slice(Record(true, true, {"a"}, map["a" := 0]), OWNER, {}, map["a" := FULL]);
      var r := HandleAddReplica(Everybody(), g, "b", "u", "c", 0, ch);
      && !r.ok && r.g.record.ok == {"a", "c"}
      && SiteOf(r.g, "a").store.items == ITEM && SiteOf(r.g, "c").store.items == map[]
  {
    OwnerMay("AddReplica");
  }

  /** A deletion that a member missed: after recovery it holds the item again, and nothing is reported. */
  lemma DeletedItemComesBack()
    ensures var g := Slice(Record(true, true, {"a", "b"}, map["a" := 0, "b" := 0]), OWNER, {},
      map["a" := FULL, "b" := FULL]);
      var alone := Everybody().(links := {});
      var h := HandleDelete(alone, g, "a", "u", "x").g;
      var r := Recover(Everybody(), h, "b", map["x" := Some("a")]);
      && MissedIds(h, "b") == {"x"} && r.missed == {}
      && SiteOf(r, "a").store.items == map[] && SiteOf(r, "b").store.items == ITEM
  {
    var g := Slice(Record(true, true, {"a", "b"}, map["a" := 0, "b" := 0]), OWNER, {}, map["a" := FULL, "b" := FULL]);
    var alone := Everybody().(links := {});
    OwnerMay("Delete");
    assert Alnum("x") && Head("x") == "x";
    var g1 := WithSite(g, "a", FULL.(store := FULL.store.(items := map[])));
    assert ITEM - {"x"} == map[];
    var h := HandleDelete(alone, g, "a", "u", "x").g;
    assert {"a", "b"} - {"a"} == {"b"};
    assert Relay(alone, g1, "a", {"b"}, Remove("x")).missed == {Missed("b", "x")};
    assert h.missed == {Missed("b", "x")};
    assert MissedIds(h, "b") == {"x"};
    assert SiteOf(h, "b") == FULL && SiteOf(h, "a").store.items == map[];
    assert Fetch(Everybody(), h, "b", Some("a"), "x") == None;
    assert Fetched(Everybody(), h, "b", map["x" := Some("a")]) == map[];
    assert ITEM + map[] == ITEM;
  }

  /** Member "b" has no item and is reported for "x", which "a" holds. */
  function Behind(b: Site): Slice {
    Slice(Record(true, true, {"a", "b"}, map["a" := 0, "b" := 0]), OWNER, {Missed("b", "x")},
        map["a" := FULL, "b" := b])
  }

  lemma MissedIsX(b: Site)
    ensures MissedIds(Behind(b), "b") == {"x"} && Alnum("x")
  {
    assert Alnum("x") && Head("x") == "x";
    assert Missed("b", "x") in Behind(b).missed;
  }

  /** A member that restarts while its source cannot be reached stays behind, and nobody reports it any more. */
  lemma ReportIsLost()
    ensures var g := Behind(Site(Local(true, map[], map[], 0), map[]));
      var r := Recover(Everybody().(links := {}), g, "b", map["x" := Some("a")]);
      && ValidSources(g, "b", map["x" := Some("a")])
      && r.missed == {} && SiteOf(r, "a").store.items == ITEM && SiteOf(r, "b").store.items == map[]
  {
    var g := Behind(Site(Local(true, map[], map[], 0), map[]));
    MissedIsX(g.sites["b"]);
    OnlySource(g);
    assert Fetched(Everybody().(links := {}), g, "b", map["x" := Some("a")]) == map[];
  }

  lemma OnlySource(g: Slice)
    requires g.record == Record(true, true, {"a", "b"}, map["a" := 0, "b" := 0])
    ensures MayChoose(Others(g.record, "b"), Some("a"))
  {
    assert "a" in Others(g.record, "b") && Reading(0) == MAX_INT32;
  }

  /** A restarted member gets the item it missed and does not tell its trigger, whose host answers. */
  lemma RecoveryIsSilent()
    ensures var g := Behind(Site(Local(true, map[], map["t" := "h"], 0), map["t" := Inbox(map[], [])]));
      var r := Recover(Everybody().(hosts := {"h"}), g, "b", map["x" := Some("a")]);
      && ValidSources(g, "b", map["x" := Some("a")])
      && SiteOf(r, "b").store.items == ITEM && SiteOf(r, "b").inboxes["t"] == Inbox(map[], [])
  {
    var g := Behind(Site(Local(true, map[], map["t" := "h"], 0), map["t" := Inbox(map[], [])]));
    MissedIsX(g.sites["b"]);
    OnlySource(g);
    assert Fetch(Everybody().(hosts := {"h"}), g, "b", Some("a"), "x") == Some("1");
    assert Fetched(Everybody().(hosts := {"h"}), g, "b", map["x" := Some("a")]) == ITEM;
    assert map[] + ITEM == ITEM;
  }

  /** A node that still stores a deleted keygroup deletes an item without telling its trigger. */
  lemma StaleReplicaIsSilent()
    ensures var s := Site(Local(true, ITEM, map["t" := "h"], 0), map["t" := Inbox(ITEM, [])]);
      var g := Slice(Record(false, true, {"a", "b"}, map[]), OWNER, {}, map["a" := s]);
      var r := HandleDelete(Everybody().(hosts := {"h"}), g, "a", "u", "x");
      && !r.ok && SiteOf(r.g, "a").store.items == map[] && SiteOf(r.g, "a").inboxes["t"].got == []
  {
    OwnerMay("Delete");
    assert Alnum("x");
    assert ITEM - {"x"} == map[];
  }

  /** An expiry above MaxInt32 loses against an unlimited one met first, although it is larger. */
  lemma UnlimitedBeatsLarger()
    ensures var members := map["a" := 0, "b" := MAX_INT32 + 1];
      Walk(members, ["a", "b"], 0, None) == Some("a") && !Maximal(members, "a")
  {
    var members := map["a" := 0, "b" := MAX_INT32 + 1];
    assert ["a", "b"][0] == "a";
    assert "b" in members && Reading(members["b"]) > Reading(members["a"]);
  }

  /** A reported id with a separator in it is not read back: an earlier piece of it is. */
  lemma SeparatorIsLost(kv: Kv, kv': Kv, n: Word, kg: Name, items: seq<(string, string)>)
    requires Drained(kv, kv', n, items) && IsMissed(kv, n, kg, "a|b")
    ensures (kg, "a") in items && (kg, "a|b") !in items
  {
  }
}
