/**
  Reading the flat key space as nested maps: for each keygroup its marker, items and
  triggers, and what setting or deleting one key does to that reading.
 */
module FlatView {
  import opened Fields
  import opened Keys

  /** Every key of the database is the key of a sound kind, with a value of its sort. */
  ghost predicate WellFormed(db: Db) {
    forall k | k in db :: WellFormedEntry(k, db[k])
  }

  ghost predicate WellFormedEntry(k: string, v: Value) {
    var kind := KindOf(k);
    kind.Some? && Sound(kind.value) && Encode(kind.value) == k && (kind.value.Counter? <==> v.Lease?)
  }

  /** The text under a key that is known to hold one. */
  function TextAt(db: Db, k: string): string
    requires k in db
  {
    if db[k].Text? then db[k].text else ""
  }

  ghost predicate IsItemOf(k: string, kg: string) {
    KindOf(k).Some? && KindOf(k).value.Item? && KindOf(k).value.kg == kg
  }

  ghost predicate IsTriggerOf(k: string, kg: string) {
    KindOf(k).Some? && KindOf(k).value.Trigger? && KindOf(k).value.kg == kg
  }

  ghost function ItemIds(db: Db, kg: string): set<string> {
    set k | k in db && IsItemOf(k, kg) :: KindOf(k).value.id
  }

  ghost function TriggerIds(db: Db, kg: string): set<string> {
    set k | k in db && IsTriggerOf(k, kg) && KindOf(k).value.tid != "" :: KindOf(k).value.tid
  }

  ghost function ItemsOf(db: Db, kg: string): map<string, string>
    requires WellFormed(db)
  {
    map id | id in ItemIds(db, kg) :: TextAt(db, ItemKey(kg, id))
  }

  ghost function TriggersOf(db: Db, kg: string): map<string, string>
    requires WellFormed(db)
  {
    map tid | tid in TriggerIds(db, kg) :: TextAt(db, TriggerKey(kg, tid))
  }

  /** The stored lease of a keygroup's counter, 0 if there is none yet. */
  function LeaseOf(db: Db, kg: string): nat {
    if CounterKey(kg) in db && db[CounterKey(kg)].Lease? then db[CounterKey(kg)].upTo else 0
  }

  lemma ItemIdsAre(db: Db, kg: string, id: string)
    requires WellFormed(db) && Alnum(kg)
    ensures id in ItemIds(db, kg) <==> Alnum(id) && ItemKey(kg, id) in db
    ensures id in ItemIds(db, kg) ==> IsItemOf(ItemKey(kg, id), kg)
  {
    if Alnum(id) { KindOfEncode(Item(kg, id)); }
  }

  lemma TriggerIdsAre(db: Db, kg: string, tid: string)
    requires WellFormed(db) && Alnum(kg)
    ensures tid in TriggerIds(db, kg) <==> tid != "" && NoSep(tid) && TriggerKey(kg, tid) in db
  {
    if NoSep(tid) { KindOfEncode(Trigger(kg, tid)); }
  }

  predicate Fits(kind: Kind, v: Value) {
    Sound(kind) && (kind.Counter? <==> v.Lease?)
  }

  lemma SetKeepsForm(db: Db, kind: Kind, v: Value)
    requires WellFormed(db) && Fits(kind, v)
    ensures WellFormed(db[Encode(kind) := v])
  {
    KindOfEncode(kind);
  }

  lemma {:induction false} SetItemAt(db: Db, kind: Kind, v: Value, g: string, id: string)
    requires WellFormed(db) && Fits(kind, v) && Alnum(g)
    ensures WellFormed(db[Encode(kind) := v])
    ensures id in ItemIds(db[Encode(kind) := v], g) <==> id in ItemIds(db, g) || kind == Item(g, id)
    ensures kind == Item(g, id) ==> TextAt(db[Encode(kind) := v], ItemKey(g, id)) == v.text
    ensures id in ItemIds(db, g) && kind != Item(g, id) ==>
      TextAt(db[Encode(kind) := v], ItemKey(g, id)) == TextAt(db, ItemKey(g, id))
  {
    SetKeepsForm(db, kind, v);
    hide ItemIds, KindOf, Split, WellFormedEntry;
    ItemIdsAre(db, g, id);
    ItemIdsAre(db[Encode(kind) := v], g, id);
    if Alnum(id) { KeysAreDistinct(kind, Item(g, id)); }
  }

  lemma {:induction false} SetItems(db: Db, kind: Kind, v: Value, g: string)
    requires WellFormed(db) && Fits(kind, v) && Alnum(g)
    ensures WellFormed(db[Encode(kind) := v])
    ensures ItemsOf(db[Encode(kind) := v], g)
      == if kind.Item? && kind.kg == g then ItemsOf(db, g)[kind.id := v.text] else ItemsOf(db, g)
  {
    hide ItemIds, KindOf, Split, WellFormedEntry, WellFormed, Encode, TextAt, ItemKey;
    forall id { SetItemAt(db, kind, v, g, id); }
    SetItemAt(db, kind, v, g, "");
  }

  lemma {:induction false} SetTriggerAt(db: Db, kind: Kind, v: Value, g: string, tid: string)
    requires WellFormed(db) && Fits(kind, v) && Alnum(g)
    ensures WellFormed(db[Encode(kind) := v]) && "" !in TriggerIds(db, g)
    ensures tid in TriggerIds(db[Encode(kind) := v], g)
      <==> tid in TriggerIds(db, g) || (kind == Trigger(g, tid) && tid != "")
    ensures kind == Trigger(g, tid) ==> TextAt(db[Encode(kind) := v], TriggerKey(g, tid)) == v.text
    ensures tid in TriggerIds(db, g) && kind != Trigger(g, tid) ==>
      TextAt(db[Encode(kind) := v], TriggerKey(g, tid)) == TextAt(db, TriggerKey(g, tid))
  {
    SetKeepsForm(db, kind, v);
    TriggerIdsAre(db, g, "");
    hide TriggerIds, KindOf, Split, WellFormedEntry;
    TriggerIdsAre(db, g, tid);
    TriggerIdsAre(db[Encode(kind) := v], g, tid);
    if NoSep(tid) { KeysAreDistinct(kind, Trigger(g, tid)); }
  }

  lemma {:induction false} SetTriggers(db: Db, kind: Kind, v: Value, g: string)
    requires WellFormed(db) && Fits(kind, v) && Alnum(g)
    ensures WellFormed(db[Encode(kind) := v])
    ensures TriggersOf(db[Encode(kind) := v], g)
      == if kind.Trigger? && kind.kg == g && kind.tid != ""
          then TriggersOf(db, g)[kind.tid := v.text] else TriggersOf(db, g)
  {
    hide TriggerIds, KindOf, Split, WellFormedEntry, WellFormed, Encode, TextAt, TriggerKey;
    forall tid { SetTriggerAt(db, kind, v, g, tid); }
    SetTriggerAt(db, kind, v, g, "");
  }

  lemma {:induction false} RemoveItemAt(db: Db, gone: set<string>, g: string, id: string)
    requires WellFormed(db) && Alnum(g)
    ensures WellFormed(db - gone)
    ensures id in ItemIds(db - gone, g) <==> id in ItemIds(db, g) && ItemKey(g, id) !in gone
    ensures id in ItemIds(db - gone, g) ==> TextAt(db - gone, ItemKey(g, id)) == TextAt(db, ItemKey(g, id))
  {
  }

  lemma {:induction false} RemoveTriggerAt(db: Db, gone: set<string>, g: string, tid: string)
    requires WellFormed(db) && Alnum(g)
    ensures WellFormed(db - gone)
    ensures tid in TriggerIds(db - gone, g) <==> tid in TriggerIds(db, g) && TriggerKey(g, tid) !in gone
    ensures tid in TriggerIds(db - gone, g) ==> TextAt(db - gone, TriggerKey(g, tid)) == TextAt(db, TriggerKey(g, tid))
  {
  }

  /** All the flat database holds for one keygroup. */
  datatype Stored = Stored(present: bool, items: map<string, string>, triggers: map<string, string>, lease: nat)

  ghost function StoredOf(db: Db, g: string): Stored
    requires WellFormed(db)
  {
    Stored(MarkerKey(g) in db, ItemsOf(db, g), TriggersOf(db, g), LeaseOf(db, g))
  }

  /** Writing one key is writing one place of one keygroup's record. */
  lemma {:induction false} SetStored(db: Db, kind: Kind, v: Value, g: string)
    requires WellFormed(db) && Fits(kind, v) && Alnum(g)
    ensures WellFormed(db[Encode(kind) := v])
    ensures var before, after := StoredOf(db, g), StoredOf(db[Encode(kind) := v], g);
      after == if kind.kg != g then before else match kind
        case Item(_, id) => before.(items := before.items[id := v.text])
        case Marker(_) => before.(present := true)
        case Trigger(_, tid) => if tid == "" then before else before.(triggers := before.triggers[tid := v.text])
        case Counter(_) => before.(lease := v.upTo)
  {
    SetItems(db, kind, v, g);
    SetTriggers(db, kind, v, g);
    KeysAreDistinct(kind, Marker(g));
    KeysAreDistinct(kind, Counter(g));
    hide ItemsOf, TriggersOf, WellFormed, KindOf, ItemKey, TriggerKey;
  }

  lemma {:induction false} IdsAreSound(db: Db, g: string)
    requires WellFormed(db) && Alnum(g)
    ensures forall id | id in ItemIds(db, g) :: Alnum(id)
    ensures forall tid | tid in TriggerIds(db, g) :: NoSep(tid) && tid != ""
  {
  }

  /** The keys of one keygroup among `gone`, as ids and trigger ids. */
  ghost predicate Among(gone: set<string>, g: string, ids: set<string>, tids: set<string>) {
    && (forall id | Alnum(id) :: ItemKey(g, id) in gone <==> id in ids)
    && (forall tid | NoSep(tid) :: TriggerKey(g, tid) in gone <==> tid in tids)
    && CounterKey(g) !in gone
  }

  lemma {:induction false} RemoveStored(db: Db, gone: set<string>, g: string, ids: set<string>, tids: set<string>)
    requires WellFormed(db) && Alnum(g) && Among(gone, g, ids, tids)
    ensures WellFormed(db - gone)
    ensures var before := StoredOf(db, g);
      StoredOf(db - gone, g)
          == Stored(before.present && MarkerKey(g) !in gone, before.items - ids, before.triggers - tids, before.lease)
  {
    hide KindOf, Split, WellFormedEntry, WellFormed, TextAt, ItemKey, TriggerKey, ItemIds, TriggerIds, Alnum, NoSep;
    IdsAreSound(db, g);
    forall id { RemoveItemAt(db, gone, g, id); }
    forall tid { RemoveTriggerAt(db, gone, g, tid); }
    RemoveItemAt(db, gone, g, "");
    assert ItemsOf(db - gone, g) == ItemsOf(db, g) - ids;
    assert TriggersOf(db - gone, g) == TriggersOf(db, g) - tids;
  }

  /** Deleting one key empties one place of one keygroup's record. */
  lemma {:induction false} DropStored(db: Db, kind: Kind, g: string)
    requires WellFormed(db) && Sound(kind) && !kind.Counter? && Alnum(g)
    ensures WellFormed(db - {Encode(kind)})
    ensures var before, after := StoredOf(db, g), StoredOf(db - {Encode(kind)}, g);
      after == if kind.kg != g then before else match kind
        case Item(_, id) => before.(items := before.items - {id})
        case Marker(_) => before.(present := false)
        case Trigger(_, tid) => before.(triggers := before.triggers - {tid})
        case Counter(_) => before
  {
    hide KindOf, Split, WellFormedEntry, WellFormed, TextAt, ItemIds, TriggerIds, Alnum, NoSep, ItemsOf, TriggersOf;
    var ids := if kind.Item? && kind.kg == g then {kind.id} else {};
    var tids := if kind.Trigger? && kind.kg == g then {kind.tid} else {};
    KeysAreDistinct(kind, Marker(g));
    KeysAreDistinct(kind, Counter(g));
    assert Among({Encode(kind)}, g, ids, tids) by {
      forall id | Alnum(id) ensures ItemKey(g, id) in {Encode(kind)} <==> id in ids {
        KeysAreDistinct(kind, Item(g, id));
      }
      forall tid | NoSep(tid) ensures TriggerKey(g, tid) in {Encode(kind)} <==> tid in tids {
        KeysAreDistinct(kind, Trigger(g, tid));
      }
    }
    hide Among, Encode;
    RemoveStored(db, {Encode(kind)}, g, ids, tids);
  }

  /** The keys a scan of one prefix meets. */
  function Under(db: Db, prefix: string): set<string> {
    set k | k in db && prefix <= k
  }

  /** Deleting every key under a keygroup's item prefix empties its items, and nothing else. */
  lemma {:induction false} WipeItems(db: Db, kg: string, g: string)
    requires WellFormed(db) && Alnum(kg) && Alnum(g)
    ensures WellFormed(db - Under(db, ItemPrefix(kg)))
    ensures StoredOf(db - Under(db, ItemPrefix(kg)), g)
      == if g == kg then StoredOf(db, g).(items := map[]) else StoredOf(db, g)
  {
    hide KindOf, Split, WellFormedEntry, WellFormed, TextAt, ItemIds, TriggerIds, Alnum, NoSep, ItemPrefix;
    var gone := Under(db, ItemPrefix(kg));
    var ids := if g == kg then ItemIds(db, g) else {};
    ItemPrefixIsExact(kg, Marker(g));
    ItemPrefixIsExact(kg, Counter(g));
    assert Among(gone, g, ids, {}) by {
      forall id | Alnum(id) ensures ItemKey(g, id) in gone <==> id in ids {
        ItemPrefixIsExact(kg, Item(g, id));
        ItemIdsAre(db, g, id);
      }
      forall tid | NoSep(tid) ensures TriggerKey(g, tid) !in gone { ItemPrefixIsExact(kg, Trigger(g, tid)); }
    }
    hide Among, ItemKey, TriggerKey, Under, MarkerKey;
    RemoveStored(db, gone, g, ids, {});
  }

  /** Deleting every key under a keygroup's trigger prefix empties its triggers, and nothing else. */
  lemma {:induction false} WipeTriggers(db: Db, kg: string, g: string)
    requires WellFormed(db) && Alnum(kg) && Alnum(g)
    ensures WellFormed(db - Under(db, TriggerPrefix(kg)))
    ensures StoredOf(db - Under(db, TriggerPrefix(kg)), g)
      == if g == kg then StoredOf(db, g).(triggers := map[]) else StoredOf(db, g)
  {
    hide KindOf, Split, WellFormedEntry, WellFormed, TextAt, ItemIds, TriggerIds, Alnum, NoSep, TriggerPrefix;
    var gone := Under(db, TriggerPrefix(kg));
    var tids := if g == kg
        then set tid | NoSep(tid) && tid in TriggerIds(db, g) + {""} && TriggerKey(g, tid) in db else {};
    TriggerPrefixIsExact(kg, Marker(g));
    TriggerPrefixIsExact(kg, Counter(g));
    assert Among(gone, g, {}, tids) by {
      forall id | Alnum(id) ensures ItemKey(g, id) !in gone { TriggerPrefixIsExact(kg, Item(g, id)); }
      forall tid | NoSep(tid) ensures TriggerKey(g, tid) in gone <==> tid in tids {
        TriggerPrefixIsExact(kg, Trigger(g, tid));
        TriggerIdsAre(db, g, tid);
      }
    }
    forall tid | tid in TriggerIds(db, g) ensures g == kg ==> tid in tids { TriggerIdsAre(db, g, tid); }
    hide Among, ItemKey, TriggerKey, Under, MarkerKey;
    RemoveStored(db, gone, g, {}, tids);
  }
}
