/**
  The local store of pkg/badgerdb on one flat, byte-ordered key space. Each method is
  proved to act on the nested reading `View` of one keygroup as `LocalStore` says, and
  to leave the reading of every other keygroup alone.
 */
module Badger {
  import opened Fields
  import opened Order
  import opened Numerals
  import opened LocalStore
  import opened Keys
  import opened FlatView

  /** A counter held in memory: numbers below `leased` may be handed out without the database. */
  datatype Sequence = Sequence(next: nat, leased: nat)

  const BANDWIDTH := 100

  class Storage {
    var db: Db
    var seqs: map<string, Sequence>

    ghost predicate Valid()
      reads this
    {
      && WellFormed(db)
      && forall g | g in seqs ::
          Alnum(g) && CounterKey(g) in db && LeaseOf(db, g) == seqs[g].leased && seqs[g].next <= seqs[g].leased
    }

    /** What is stored of a keygroup. */
    ghost function View(g: string): Local
      requires Valid()
      reads this
    {
      var s := StoredOf(db, g);
      Local(s.present, s.items, s.triggers, if g in seqs then seqs[g].next else s.lease)
    }

    lemma ViewIs(g: string)
      requires Valid()
      ensures WellFormed(db) && View(g).items == ItemsOf(db, g) && View(g).triggers == TriggersOf(db, g)
    {
    }

    /** What a keygroup stores, read off the flat keys. */
    lemma ViewReads(kg: Name, id: string, tid: string)
      requires Valid() && NoSep(tid)
      ensures View(kg).present <==> "|fred|keygroup|" + kg in db
      ensures id in View(kg).items <==> kg + "|" + id in db
      ensures id in View(kg).items ==> db[kg + "|" + id] == Text(View(kg).items[id])
      ensures tid in View(kg).triggers <==> tid != "" && "|fred|triggers|" + kg + "|" + tid in db
      ensures tid in View(kg).triggers ==> db["|fred|triggers|" + kg + "|" + tid] == Text(View(kg).triggers[tid])
    {
      KeysRead(kg, id);
      KeysRead(kg, tid);
      ItemIdsAre(db, kg, id);
      TriggerIdsAre(db, kg, tid);
      if ItemKey(kg, id) in db {
        ItemKeyIsItem(db, kg, id);
        ItemIsText(db, Item(kg, id));
      }
      if TriggerKey(kg, tid) in db { ItemIsText(db, Trigger(kg, tid)); }
    }

    constructor ()
      ensures Valid()
      ensures forall g | Alnum(g) :: View(g) == ABSENT
    {
      db := map[];
      seqs := map[];
    }

    method Read(kg: string, id: string) returns (r: Option<string>)
      requires Valid() && Alnum(kg)
      ensures r == if id in View(kg).items then Some(View(kg).items[id]) else None
    {
      var key := ItemKey(kg, id);
      ItemIdsAre(db, kg, id);
      if key in db {
        ItemKeyIsItem(db, kg, id);
        r := Some(TextAt(db, key));
      } else {
        r := None;
      }
    }

    method Exists(kg: string, id: string) returns (r: bool)
      requires Valid()
      ensures Alnum(kg) ==> (r <==> id in View(kg).items)
    {
      r := ItemKey(kg, id) in db;
      if Alnum(kg) {
        ItemIdsAre(db, kg, id);
        if r { ItemKeyIsItem(db, kg, id); }
      }
    }

    method ExistsKeygroup(kg: string) returns (r: bool)
      requires Valid()
      ensures r == View(kg).present
    {
      r := MarkerKey(kg) in db;
    }

    /** At most `count` items in ascending order of their ids, starting at `id`. */
    method ReadSome(kg: string, id: string, count: nat) returns (items: map<string, string>)
      requires Valid() && Alnum(kg)
      ensures items == Smallest(View(kg).items, id, count)
    {
      hide Sorted, Seek, Leq, Split, Head, KindOf, WellFormedEntry, WellFormed, ItemIds, ItemsOf, TriggersOf, GetKey,
          TextAt;
      var prefix := ItemPrefix(kg);
      var keys := Sorted(db.Keys);
      var i := Seek(keys, ItemKey(kg, id));
      ghost var lo := i;
      ghost var ids := ItemWindow(db, kg, id);
      items := map[];
      var n := 0;
      while i < |keys| && prefix <= keys[i] && n < count
        invariant n == i - lo <= |ids| && n <= count
        invariant items == Picked(ItemsOf(db, kg), ids[..n])
        decreases |keys| - i
      {
        assert n < |ids|;
        PickedSnoc(ItemsOf(db, kg), ids, n);
        var key := GetKey(keys[i]).1;
        items := items[key := TextAt(db, keys[i])];
        i, n := i + 1, n + 1;
      }
      SmallestIs(ItemsOf(db, kg), id, ids, count);
    }

    method ReadAll(kg: string) returns (items: map<string, string>)
      requires Valid() && Alnum(kg)
      ensures items == View(kg).items
    {
      hide *;
      ViewIs(kg);
      var prefix := ItemPrefix(kg);
      var keys := Sorted(db.Keys);
      var i := Seek(keys, prefix);
      ghost var lo := i;
      ghost var ids := AllItems(db, kg);
      items := map[];
      MeetsStep(db, kg, keys, lo, ids, i);
      while i < |keys| && prefix <= keys[i]
        invariant lo <= i && i - lo <= |ids| && (i < |keys| && prefix <= keys[i] <==> i - lo < |ids|)
        invariant items == Picked(ItemsOf(db, kg), ids[..i - lo])
        decreases |keys| - i
      {
        MeetsStep(db, kg, keys, lo, ids, i);
        PickedSnoc(ItemsOf(db, kg), ids, i - lo);
        var key := GetKey(keys[i]).1;
        items := items[key := TextAt(db, keys[i])];
        i := i + 1;
        MeetsStep(db, kg, keys, lo, ids, i);
      }
      assert ids[..|ids|] == ids;
    }

    method IDs(kg: string) returns (items: seq<string>)
      requires Valid() && Alnum(kg)
      ensures items == Sorted(View(kg).items.Keys)
    {
      hide Sorted, Seek, Leq, Split, Head, KindOf, WellFormedEntry, WellFormed, ItemIds, ItemsOf, TriggersOf, GetKey,
          TextAt;
      var prefix := ItemPrefix(kg);
      var keys := Sorted(db.Keys);
      var i := Seek(keys, prefix);
      ghost var lo := i;
      assert prefix == ItemKey(kg, "");
      ghost var ids := ItemWindow(db, kg, "");
      AllAreFromEmpty(ItemsOf(db, kg));
      items := [];
      while i < |keys| && prefix <= keys[i]
        invariant i - lo <= |ids|
        invariant items == ids[..i - lo]
        decreases |keys| - i
      {
        items := items + [GetKey(keys[i]).1];
        i := i + 1;
      }
      assert ids[..|ids|] == ids;
    }

    /** Stores how far the keygroup's numbers are reserved. */
    method PutLease(kg: string, upTo: nat)
      requires WellFormed(db) && Alnum(kg)
      modifies this`db
      ensures WellFormed(db) && CounterKey(kg) in db && LeaseOf(db, kg) == upTo
      ensures forall g | Alnum(g) ::
        StoredOf(db, g) == StoredOf(old(db), g).(lease := if g == kg then upTo else LeaseOf(old(db), g))
      ensures forall g | Alnum(g) && g != kg ::
        LeaseOf(db, g) == LeaseOf(old(db), g) && (CounterKey(g) in db <==> CounterKey(g) in old(db))
    {
      hide ItemsOf, TriggersOf, WellFormed, KindOf;
      forall g | Alnum(g) { SetStored(db, Counter(kg), Lease(upTo), g); }
      forall g | Alnum(g) { KeysAreDistinct(Counter(kg), Counter(g)); }
      SetStored(db, Counter(kg), Lease(upTo), kg);
      db := db[CounterKey(kg) := Lease(upTo)];
    }

    /** Badger's lease: reserve the next BANDWIDTH numbers after those reserved before. */
    method GetSequence(kg: string) returns (s: Sequence)
      requires WellFormed(db) && Alnum(kg)
      modifies this`db
      ensures WellFormed(db) && CounterKey(kg) in db
      ensures s == Sequence(LeaseOf(old(db), kg), LeaseOf(db, kg)) && s.leased == s.next + 100
      ensures forall g | Alnum(g) ::
        StoredOf(db, g) == StoredOf(old(db), g).(lease := if g == kg then s.leased else LeaseOf(old(db), g))
      ensures forall g | Alnum(g) && g != kg ::
        LeaseOf(db, g) == LeaseOf(old(db), g) && (CounterKey(g) in db <==> CounterKey(g) in old(db))
    {
      var next := LeaseOf(db, kg);
      PutLease(kg, next + BANDWIDTH);
      s := Sequence(next, next + BANDWIDTH);
    }

    /** Takes a new lease; if one was held, the rest of it is lost. */
    method TakeSequence(kg: string)
      requires Valid() && Alnum(kg)
      modifies this
      ensures Valid() && seqs.Keys == old(seqs).Keys + {kg}
      ensures View(kg) == old(View(kg)).(next := View(kg).next)
      ensures if kg in old(seqs) then View(kg).next >= old(View(kg)).next else View(kg).next == old(View(kg)).next
      ensures forall g | Alnum(g) && g != kg :: View(g) == old(View(g))
    {
      hide ItemsOf, TriggersOf, WellFormed, KindOf, CounterKey, LeaseOf, MarkerKey, Alnum;
      var s := GetSequence(kg);
      seqs := seqs[kg := s];
    }

    method IncrementSequence(kg: string) returns (n: nat)
      requires Valid() && Alnum(kg)
      modifies this
      ensures Valid()
      ensures n == old(View(kg)).next && View(kg) == old(View(kg)).(next := n + 1)
      ensures seqs.Keys == old(seqs).Keys + {kg}
      ensures forall g | Alnum(g) && g != kg :: View(g) == old(View(g))
    {
      hide ItemsOf, TriggersOf, WellFormed, KindOf, CounterKey, LeaseOf, MarkerKey;
      if kg !in seqs || seqs[kg].next >= seqs[kg].leased {
        var s := GetSequence(kg);
        seqs := seqs[kg := s];
      }
      n := seqs[kg].next;
      seqs := seqs[kg := seqs[kg].(next := n + 1)];
    }

    /** An update, or with `append` the replay of an append made at another node. */
    method Update(kg: string, id: string, val: string, append: bool) returns (ok: bool)
      requires Valid() && Alnum(kg) && Alnum(id)
      modifies this
      ensures Valid() && seqs.Keys <= old(seqs).Keys + {kg}
      ensures ok <==> Acceptable(Copy(!append, id, val))
      ensures View(kg) == if ok then Apply(old(View(kg)), Copy(!append, id, val)) else old(View(kg))
      ensures forall g | Alnum(g) && g != kg :: View(g) == old(View(g))
    {
      hide StoredOf, WellFormed, KindOf;
      if append {
        if Atoi(id).None? { return false; }
        AlnumIsUnsigned(id);
        var key := Atoi(id).value;
        var n := IncrementSequence(kg);
        while n < key
          invariant Valid() && seqs.Keys == old(seqs).Keys + {kg}
          invariant old(View(kg)).next <= n && (n <= key || n == old(View(kg)).next)
          invariant View(kg) == old(View(kg)).(next := n + 1)
          invariant forall g | Alnum(g) && g != kg :: View(g) == old(View(g))
        {
          n := IncrementSequence(kg);
        }
      }
      Set(Item(kg, id), Text(val));
      ok := true;
    }

    /** One write transaction on one key that is not a counter's. */
    method Set(kind: Kind, v: Value)
      requires Valid() && Fits(kind, v) && !kind.Counter?
      modifies this`db
      ensures Valid() && db == old(db)[Encode(kind) := v]
      ensures var before := old(View(kind.kg));
        View(kind.kg) == match kind
          case Item(_, id) => before.(items := before.items[id := v.text])
          case Marker(_) => before.(present := true)
          case Trigger(_, tid) => if tid == "" then before else before.(triggers := before.triggers[tid := v.text])
          case Counter(_) => before
      ensures forall g | Alnum(g) && g != kind.kg :: View(g) == old(View(g))
    {
      hide ItemsOf, TriggersOf, WellFormed, KindOf, Encode;
      forall g | Alnum(g) { SetStored(db, kind, v, g); }
      SetStored(db, kind, v, kind.kg);
      db := db[Encode(kind) := v];
    }

    method Unset(kind: Kind)
      requires Valid() && Sound(kind) && !kind.Counter?
      modifies this`db
      ensures Valid() && db == old(db) - {Encode(kind)}
      ensures var before := old(View(kind.kg));
        View(kind.kg) == match kind
          case Item(_, id) => before.(items := before.items - {id})
          case Marker(_) => before.(present := false)
          case Trigger(_, tid) => before.(triggers := before.triggers - {tid})
          case Counter(_) => before
      ensures forall g | Alnum(g) && g != kind.kg :: View(g) == old(View(g))
    {
      hide ItemsOf, TriggersOf, WellFormed, KindOf;
      forall g | Alnum(g) ensures CounterKey(g) != Encode(kind) { KeysAreDistinct(kind, Counter(g)); }
      hide Encode, Sound, CounterKey, MarkerKey, Alnum;
      forall g | Alnum(g) { DropStored(db, kind, g); }
      db := db - {Encode(kind)};
    }

    lemma NoSuchItem(kg: string, id: string)
      requires Valid() && Alnum(kg) && !Alnum(id)
      ensures db - {ItemKey(kg, id)} == db && View(kg).items - {id} == View(kg).items
    {
      ItemIdsAre(db, kg, id);
      if ItemKey(kg, id) in db { ItemKeyIsItem(db, kg, id); }
    }

    method Delete(kg: string, id: string)
      requires Valid() && Alnum(kg)
      modifies this`db
      ensures Valid() && View(kg) == old(View(kg)).(items := old(View(kg)).items - {id})
      ensures forall g | Alnum(g) && g != kg :: View(g) == old(View(g))
    {
      if Alnum(id) {
        Unset(Item(kg, id));
      } else {
        // Nothing is stored under such an id, and removing an absent key changes nothing.
        NoSuchItem(kg, id);
        db := db - {ItemKey(kg, id)};
      }
    }

    /** Stores `val` under the number the keygroup's counter hands out, and returns that id. */
    method Append(kg: string, val: string) returns (id: string)
      requires Valid() && Alnum(kg)
      modifies this
      ensures Valid() && seqs.Keys == old(seqs).Keys + {kg}
      ensures id == Format(old(View(kg)).next)
      ensures View(kg) == AppendNew(old(View(kg)), val)
      ensures forall g | Alnum(g) && g != kg :: View(g) == old(View(g))
    {
      hide Storage.View, Storage.Valid, KindOf, WellFormed, Format, Encode;
      var n := IncrementSequence(kg);
      id := Format(n);
      FormatIsAlnum(n);
      Set(Item(kg, id), Text(val));
    }

    /** The marker, and a counter that goes on from what was reserved before. */
    method CreateKeygroup(kg: string)
      requires Valid() && Alnum(kg)
      modifies this
      ensures Valid() && seqs.Keys == old(seqs).Keys + {kg}
      ensures View(kg) == Opened(old(View(kg))).(next := View(kg).next)
      ensures if kg in old(seqs) then View(kg).next >= old(View(kg)).next else View(kg).next == old(View(kg)).next
      ensures forall g | Alnum(g) && g != kg :: View(g) == old(View(g))
    {
      hide Storage.View, Storage.Valid, KindOf, WellFormed;
      Set(Marker(kg), Text(kg));
      TakeSequence(kg);
    }

    method AddKeygroupTrigger(kg: string, tid: string, host: string)
      requires Valid() && Alnum(kg) && NoSep(tid)
      modifies this`db
      ensures Valid()
      ensures View(kg)
        == if tid == "" then old(View(kg)) else old(View(kg)).(triggers := old(View(kg)).triggers[tid := host])
      ensures forall g | Alnum(g) && g != kg :: View(g) == old(View(g))
    {
      Set(Trigger(kg, tid), Text(host));
    }

    method DeleteKeygroupTrigger(kg: string, tid: string)
      requires Valid() && Alnum(kg) && NoSep(tid)
      modifies this`db
      ensures Valid() && View(kg) == old(View(kg)).(triggers := old(View(kg)).triggers - {tid})
      ensures forall g | Alnum(g) && g != kg :: View(g) == old(View(g))
    {
      Unset(Trigger(kg, tid));
    }

    /** The registered triggers with their hosts; an empty trigger id is skipped. */
    method GetKeygroupTrigger(kg: string) returns (items: map<string, string>)
      requires Valid() && Alnum(kg)
      ensures items == View(kg).triggers
    {
      hide *;
      ViewIs(kg);
      var prefix := TriggerPrefix(kg);
      var keys := Sorted(db.Keys);
      var i := Seek(keys, prefix);
      ghost var lo := i;
      ghost var tids := AllTriggers(db, kg);
      ghost var all := TriggersOf(db, kg);
      items := map[];
      TriggersStep(db, kg, keys, lo, tids, i);
      while i < |keys| && prefix <= keys[i]
        invariant lo <= i && i - lo <= |tids| && (i < |keys| && prefix <= keys[i] <==> i - lo < |tids|)
        invariant items == Picked(all, tids[..i - lo])
        decreases |keys| - i
      {
        TriggersStep(db, kg, keys, lo, tids, i);
        var key := GetTriggerConfigKey(keys[i]).1;
        if key != "" {
          PickedSnoc(all, tids, i - lo);
          items := items[key := TextAt(db, keys[i])];
        } else {
          PickedSkip(all, tids, i - lo);
        }
        i := i + 1;
        TriggersStep(db, kg, keys, lo, tids, i);
      }
      assert tids[..|tids|] == tids;
    }

    /** The keys an iterator meets under `prefix`. */
    method KeysUnder(prefix: string) returns (met: seq<string>)
      ensures forall k :: k in met <==> k in Under(db, prefix)
    {
      hide Sorted, Seek, Leq;
      var keys := Sorted(db.Keys);
      var i := Seek(keys, prefix);
      ghost var lo := i;
      ghost var hi := WindowExists(keys, prefix, lo);
      met := [];
      while i < |keys| && prefix <= keys[i]
        invariant lo <= i <= hi
        invariant met == keys[lo..i]
        decreases |keys| - i
      {
        met := met + [keys[i]];
        i := i + 1;
      }
      WindowIsUnder(db.Keys, prefix, hi);
    }

    /** A write batch of deletions. */
    method DeleteBatch(gone: seq<string>)
      modifies this`db
      ensures db == old(db) - (set k | k in gone)
    {
      var i := 0;
      while i < |gone|
        invariant 0 <= i <= |gone|
        invariant db == old(db) - (set k | k in gone[..i])
      {
        db := db - {gone[i]};
        i := i + 1;
      }
      assert gone[..i] == gone;
    }

    /** Removes the marker, every item and every trigger, and gives the unused part of the lease back. */
    method DeleteKeygroup(kg: string)
      requires Valid() && Alnum(kg)
      modifies this
      ensures Valid() && View(kg) == Dropped(old(View(kg))) && seqs == old(seqs) - {kg}
      ensures forall g | Alnum(g) && g != kg :: View(g) == old(View(g))
    {
      hide View, Valid, Alnum, ItemPrefix, TriggerPrefix;
      Unset(Marker(kg));
      PrefixesDiffer(kg);
      WipeUnder(kg, ItemPrefix(kg));
      WipeUnder(kg, TriggerPrefix(kg));
      if kg in seqs {
        Release(kg);
      }
    }

    /** Gives the numbers that were reserved and not handed out back to the database. */
    method Release(kg: string)
      requires Valid() && kg in seqs
      modifies this
      ensures Valid() && seqs == old(seqs) - {kg}
      ensures forall g | Alnum(g) :: View(g) == old(View(g))
    {
      hide ItemsOf, TriggersOf, WellFormed, KindOf, CounterKey, LeaseOf, MarkerKey;
      var released := seqs[kg];
      if LeaseOf(db, kg) == released.leased {
        PutLease(kg, released.next);
      }
      seqs := seqs - {kg};
    }

    /** Deletes every key under a keygroup's item prefix or trigger prefix. */
    method WipeUnder(kg: string, prefix: string)
      requires Valid() && Alnum(kg) && (prefix == ItemPrefix(kg) || prefix == TriggerPrefix(kg))
      modifies this`db
      ensures Valid()
      ensures View(kg)
        == if prefix == ItemPrefix(kg) then old(View(kg)).(items := map[]) else old(View(kg)).(triggers := map[])
      ensures forall g | Alnum(g) && g != kg :: View(g) == old(View(g))
    {
      hide ItemsOf, TriggersOf, WellFormed, KindOf;
      var met := KeysUnder(prefix);
      assert (set k | k in met) == Under(db, prefix);
      forall g | Alnum(g) ensures CounterKey(g) !in Under(db, prefix) {
        ItemPrefixIsExact(kg, Counter(g));
        TriggerPrefixIsExact(kg, Counter(g));
      }
      PrefixesDiffer(kg);
      hide CounterKey, MarkerKey, Alnum, Under, ItemPrefix, TriggerPrefix;
      if prefix == ItemPrefix(kg) {
        forall g | Alnum(g) { WipeItems(db, kg, g); }
        WipeItems(db, kg, kg);
      } else {
        forall g | Alnum(g) { WipeTriggers(db, kg, g); }
        WipeTriggers(db, kg, kg);
      }
      DeleteBatch(met);
    }
  }

  lemma PrefixesDiffer(kg: string)
    requires Alnum(kg)
    ensures ItemPrefix(kg) != TriggerPrefix(kg)
  {
  }

  lemma {:induction false} WindowIsUnder(all: set<string>, p: string, hi: nat)
    requires Window(Sorted(all), p, Seek(Sorted(all), p), hi)
    ensures forall k :: k in Sorted(all)[Seek(Sorted(all), p)..hi] <==> k in all && p <= k
  {
    var keys := Sorted(all);
    var lo := Seek(keys, p);
    SortedIsSorted(all);
    hide Sorted, Seek, Leq, Suffixes;
    assert p + "" == p;
    forall k ensures k in keys[lo..hi] <==> k in all && p <= k {
      if k in keys[lo..hi] {
        var j :| lo <= j < hi && keys[j] == k;
        assert Starts(p, keys[j]);
      }
      if k in all && p <= k {
        var j :| 0 <= j < |keys| && keys[j] == k;
        assert k == p + k[|p|..];
        EmptyIsLeast(k[|p|..]);
        AboveIsMet(keys, p, "", lo, hi, j, k[|p|..]);
        assert keys[lo..hi][j - lo] == k;
      }
    }
  }

  lemma EmptyIsLeast(s: string)
    ensures Leq("", s)
  {
  }

  ghost predicate MeetsTrigger(db: Db, kg: string, key: string, tid: string)
    requires WellFormed(db)
  {
    && key in db && GetTriggerConfigKey(key).1 == tid
    && (tid in TriggersOf(db, kg) <==> tid != "")
    && (tid != "" ==> TriggersOf(db, kg)[tid] == TextAt(db, key))
  }

  ghost predicate MeetsTriggers(db: Db, kg: string, keys: seq<string>, lo: nat, tids: seq<string>)
    requires WellFormed(db)
  {
    && Window(keys, TriggerPrefix(kg), lo, lo + |tids|)
    && forall j | lo <= j < lo + |tids| :: MeetsTrigger(db, kg, keys[j], tids[j - lo])
  }

  lemma AllTriggers(db: Db, kg: string) returns (tids: seq<string>)
    requires WellFormed(db) && Alnum(kg)
    ensures MeetsTriggers(db, kg, Sorted(db.Keys), Seek(Sorted(db.Keys), TriggerPrefix(kg)), tids)
    ensures Picked(TriggersOf(db, kg), tids) == TriggersOf(db, kg) && Picked(TriggersOf(db, kg), tids[..0]) == map[]
  {
    hide Sorted, Seek, WellFormed, TriggersOf, TriggerPrefix, MeetsTriggers;
    tids := TriggerWindow(db, kg);
  }

  lemma TriggersStep(db: Db, kg: string, keys: seq<string>, lo: nat, tids: seq<string>, i: nat)
    requires WellFormed(db) && MeetsTriggers(db, kg, keys, lo, tids) && lo <= i <= lo + |tids|
    ensures i < |keys| && TriggerPrefix(kg) <= keys[i] <==> i - lo < |tids|
    ensures i - lo < |tids| ==>
      var key, tid := keys[i], tids[i - lo];
      && key in db && GetTriggerConfigKey(key).1 == tid
      && (tid in TriggersOf(db, kg) <==> tid != "")
      && (tid != "" ==> TriggersOf(db, kg)[tid] == TextAt(db, key))
  {
    hide WellFormed, TriggersOf, TextAt, GetTriggerConfigKey, TriggerPrefix;
    if i - lo < |tids| { assert MeetsTrigger(db, kg, keys[i], tids[i - lo]); }
  }

  /** The trigger ids an iterator over a keygroup's triggers meets. */
  lemma {:induction false} TriggerWindow(db: Db, kg: string) returns (tids: seq<string>)
    requires WellFormed(db) && Alnum(kg)
    ensures var keys := Sorted(db.Keys); var lo := Seek(keys, TriggerPrefix(kg));
      MeetsTriggers(db, kg, keys, lo, tids)
    ensures Picked(TriggersOf(db, kg), tids) == TriggersOf(db, kg)
  {
    hide Sorted, Seek, Leq, Split, Head, KindOf, WellFormedEntry, WellFormed, TriggerIds, Suffixes, TriggersOf,
        TriggerPrefix, TriggerKey, MeetsTrigger;
    var p := TriggerPrefix(kg);
    var keys := Sorted(db.Keys);
    var lo := Seek(keys, p);
    var hi := WindowExists(keys, p, lo);
    tids := After(p, keys, lo, hi);
    assert p + "" == p;
    WindowIsExact(db.Keys, p, "", hi);
    forall j | lo <= j < hi ensures MeetsTrigger(db, kg, keys[j], tids[j - lo]) {
      assert tids[j - lo] in tids;
      TriggerAt(db, kg, tids[j - lo]);
      PrefixPlus(kg, tids[j - lo]);
    }
    forall tid | tid in TriggersOf(db, kg) ensures tid in tids { TriggerKeyOf(db, kg, tid); }
  }

  lemma PrefixPlus(kg: string, tid: string)
    ensures TriggerPrefix(kg) + tid == TriggerKey(kg, tid)
  {
  }

  lemma TriggerKeyOf(db: Db, kg: string, tid: string)
    requires WellFormed(db) && Alnum(kg) && tid in TriggersOf(db, kg)
    ensures tid in Suffixes(db.Keys, TriggerPrefix(kg), "")
  {
  }

  lemma {:induction false} TriggerAt(db: Db, kg: string, tid: string)
    requires WellFormed(db) && Alnum(kg) && tid in Suffixes(db.Keys, TriggerPrefix(kg), "")
    ensures MeetsTrigger(db, kg, TriggerKey(kg, tid), tid)
  {
    SuffixesAre(db.Keys, TriggerPrefix(kg), "", tid);
    PrefixPlus(kg, tid);
    var k := TriggerKey(kg, tid);
    assert WellFormedEntry(k, db[k]);
    var kind := KindOf(k).value;
    TriggerPrefixIsExact(kg, kind);
    PrefixPlus(kg, kind.tid);
    SuffixInjective(TriggerPrefix(kg), tid, kind.tid);
    KindOfEncode(kind);
    TriggerIdsAre(db, kg, tid);
  }

  lemma ItemIsText(db: Db, kind: Kind)
    requires WellFormed(db) && Sound(kind) && Encode(kind) in db && (kind.Item? || kind.Trigger?)
    ensures db[Encode(kind)].Text?
  {
    KindOfEncode(kind);
    assert WellFormedEntry(Encode(kind), db[Encode(kind)]);
  }

  /** The ids that are not below `from`. */
  function FromOn(items: map<string, string>, from: string): set<string> {
    set k | k in items && Leq(from, k)
  }

  /** The items with the `count` smallest ids that are not below `id`. */
  function Smallest(items: map<string, string>, id: string, count: nat): map<string, string> {
    var ids := Sorted(FromOn(items, id));
    Picked(items, if count < |ids| then ids[..count] else ids)
  }

  lemma SmallestIs(items: map<string, string>, id: string, ids: seq<string>, count: nat)
    requires ids == Sorted(FromOn(items, id))
    ensures Smallest(items, id, count) == Picked(items, ids[..if count < |ids| then count else |ids|])
  {
  }

  lemma AllAreFromEmpty(items: map<string, string>)
    ensures FromOn(items, "") == items.Keys
    ensures Picked(items, Sorted(items.Keys)) == items
  {
  }

  lemma PickedSnoc(items: map<string, string>, ids: seq<string>, n: nat)
    requires n < |ids| && ids[n] in items
    ensures Picked(items, ids[..n + 1]) == Picked(items, ids[..n])[ids[n] := items[ids[n]]]
  {
  }

  lemma PickedSkip(items: map<string, string>, ids: seq<string>, n: nat)
    requires n < |ids| && ids[n] !in items
    ensures Picked(items, ids[..n + 1]) == Picked(items, ids[..n])
  {
    assert ids[..n + 1] == ids[..n] + [ids[n]];
  }

  /** From position `lo` on, the iterator meets the keys of the items `ids`, and then leaves the keygroup. */
  ghost predicate Meets(db: Db, kg: string, keys: seq<string>, lo: nat, ids: seq<string>)
    requires WellFormed(db)
  {
    && Window(keys, ItemPrefix(kg), lo, lo + |ids|)
    && forall j | lo <= j < lo + |ids| :: MeetsAt(db, kg, keys[j], ids[j - lo])
  }

  ghost predicate MeetsAt(db: Db, kg: string, key: string, id: string)
    requires WellFormed(db)
  {
    key in db && GetKey(key).1 == id && id in ItemsOf(db, kg) && ItemsOf(db, kg)[id] == TextAt(db, key)
  }

  lemma AllItems(db: Db, kg: string) returns (ids: seq<string>)
    requires WellFormed(db) && Alnum(kg)
    ensures Meets(db, kg, Sorted(db.Keys), Seek(Sorted(db.Keys), ItemPrefix(kg)), ids)
    ensures Picked(ItemsOf(db, kg), ids) == ItemsOf(db, kg) && Picked(ItemsOf(db, kg), ids[..0]) == map[]
  {
    assert ItemPrefix(kg) == ItemKey(kg, "");
    hide Sorted, Seek, Leq, WellFormed, ItemsOf, ItemPrefix, ItemKey, Meets;
    ids := ItemWindow(db, kg, "");
    AllAreFromEmpty(ItemsOf(db, kg));
  }

  lemma MeetsStep(db: Db, kg: string, keys: seq<string>, lo: nat, ids: seq<string>, i: nat)
    requires WellFormed(db) && Meets(db, kg, keys, lo, ids) && lo <= i <= lo + |ids|
    ensures i < |keys| && ItemPrefix(kg) <= keys[i] <==> i - lo < |ids|
    ensures i - lo < |ids| ==>
      var key, id := keys[i], ids[i - lo];
      key in db && GetKey(key).1 == id && id in ItemsOf(db, kg) && ItemsOf(db, kg)[id] == TextAt(db, key)
  {
    hide WellFormed, ItemsOf, TextAt, GetKey, ItemPrefix;
    if i - lo < |ids| { assert MeetsAt(db, kg, keys[i], ids[i - lo]); }
  }

  /** The ids an iterator over a keygroup's items meets, one per key, in ascending order. */
  lemma {:induction false} ItemWindow(db: Db, kg: string, from: string) returns (ids: seq<string>)
    requires WellFormed(db) && Alnum(kg)
    ensures ids == Sorted(FromOn(ItemsOf(db, kg), from))
    ensures Meets(db, kg, Sorted(db.Keys), Seek(Sorted(db.Keys), ItemKey(kg, from)), ids)
  {
    hide Sorted, Seek, Leq, Split, Head, KindOf, WellFormed, Suffixes, ItemsOf, ItemPrefix, ItemKey, MeetsAt, FromOn;
    var p := ItemPrefix(kg);
    var keys := Sorted(db.Keys);
    ItemPlus(kg, from);
    var lo := Seek(keys, ItemKey(kg, from));
    var hi := WindowExists(keys, p, lo);
    ids := After(p, keys, lo, hi);
    WindowIsExact(db.Keys, p, from, hi);
    ItemSuffixes(db, kg, from);
    forall j | lo <= j < hi ensures MeetsAt(db, kg, keys[j], ids[j - lo]) {
      MetItem(db, kg, from, ids, j - lo);
      ItemPlus(kg, ids[j - lo]);
      ItemAt(db, kg, ids[j - lo]);
    }
  }

  lemma ItemPlus(kg: string, id: string)
    ensures ItemPrefix(kg) + id == ItemKey(kg, id)
  {
  }

  lemma MetItem(db: Db, kg: string, from: string, ids: seq<string>, n: nat)
    requires WellFormed(db) && ids == Sorted(FromOn(ItemsOf(db, kg), from)) && n < |ids|
    ensures ids[n] in ItemsOf(db, kg)
  {
    assert ids[n] in ids;
    hide Sorted, WellFormed, ItemsOf, Leq;
  }

  lemma ItemAt(db: Db, kg: string, id: string)
    requires WellFormed(db) && Alnum(kg) && id in ItemsOf(db, kg)
    ensures MeetsAt(db, kg, ItemKey(kg, id), id)
  {
    ItemIdsAre(db, kg, id);
    KindOfEncode(Item(kg, id));
  }

  lemma {:induction false} ItemSuffixes(db: Db, kg: string, from: string)
    requires WellFormed(db) && Alnum(kg)
    ensures Suffixes(db.Keys, ItemPrefix(kg), from) == FromOn(ItemsOf(db, kg), from)
  {
    forall x ensures x in Suffixes(db.Keys, ItemPrefix(kg), from) <==> x in ItemIds(db, kg) && Leq(from, x) {
      SuffixesAre(db.Keys, ItemPrefix(kg), from, x);
      assert ItemPrefix(kg) + x == ItemKey(kg, x);
      ItemIdsAre(db, kg, x);
      if ItemKey(kg, x) in db { ItemKeyIsItem(db, kg, x); }
    }
  }

  lemma {:induction false} ItemKeyIsItem(db: Db, kg: string, x: string)
    requires WellFormed(db) && Alnum(kg) && ItemKey(kg, x) in db
    ensures Alnum(x)
  {
    var k := ItemKey(kg, x);
    assert WellFormedEntry(k, db[k]);
    var kind := KindOf(k).value;
    ItemPrefixIsExact(kg, kind);
    assert ItemPrefix(kg) <= k;
    SuffixInjective(ItemPrefix(kg), x, kind.id);
  }
}
