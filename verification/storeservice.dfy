/**
  The validated, existence-guarded store operations of pkg/fred/storeservice.go over the
  flat store. What a guard refuses changes nothing.
 */
module StoreServices {
  import opened Fields
  import opened Order
  import opened Numerals
  import opened LocalStore
  import opened Keys
  import opened FlatView
  import opened Badger

  datatype Item = Item(keygroup: string, id: string, val: string)

  /** The items of a map, each listed once, in some order. */
  ghost predicate Lists(items: seq<Item>, kg: string, m: map<string, string>) {
    && |items| == |m|
    && (forall i | i in items :: i.keygroup == kg && i.id in m && m[i.id] == i.val)
    && (forall id | id in m :: Item.Item(kg, id, m[id]) in items)
  }

  method ItemsOfMap(kg: string, m: map<string, string>) returns (items: seq<Item>)
    ensures Lists(items, kg, m)
  {
    items := [];
    var left := m;
    while left != map[]
      invariant left.Keys <= m.Keys && forall id | id in left :: left[id] == m[id]
      invariant |items| + |left| == |m|
      invariant forall i | i in items :: i.keygroup == kg && i.id in m && m[i.id] == i.val
      invariant forall id | id in m && id !in left :: Item.Item(kg, id, m[id]) in items
      decreases |left|
    {
      var id :| id in left;
      items := items + [Item.Item(kg, id, left[id])];
      assert |left - {id}| == |left| - 1 by { OneLess(left, id); }
      left := left - {id};
    }
  }

  lemma OneLess(m: map<string, string>, id: string)
    requires id in m
    ensures |m - {id}| == |m| - 1
  {
  }

  lemma {:induction false} MarkerIsNamed(db: Db, kg: string)
    requires WellFormed(db)
    ensures MarkerKey(kg) in db ==> Alnum(kg)
  {
    if MarkerKey(kg) in db {
      var k := MarkerKey(kg);
      assert WellFormedEntry(k, db[k]);
      var kind := KindOf(k).value;
      MarkerFields(kg);
      KindOfEncode(kind);
      hide Split, Join, Alnum, Encode, MarkerKey;
      FourFields(Split(k), Split(kg));
      JoinSplit(kg);
      assert Split(kg) == [kind.kg];
      assert Join([kind.kg]) == kind.kg by { OneField(kind.kg); }
    }
  }

  lemma OneField(s: string)
    ensures Join([s]) == s
  {
  }

  lemma FourFields(f: seq<string>, g: seq<string>)
    requires f == ["", "fred", "keygroup"] + g && g != []
    ensures |f| == 3 + |g| && f[1] == "fred" && f[2] == "keygroup" && f[3] == g[0]
    ensures "triggers" != "keygroup" && "rolling" != "keygroup"
    ensures |g| == 1 ==> g == [f[3]]
  {
  }

  /** Whatever the name is, a marker key splits into the three fixed fields and those of the name. */
  lemma MarkerFields(kg: string)
    ensures Split(MarkerKey(kg)) == ["", "fred", "keygroup"] + Split(kg)
  {
    var f := ["", "fred", "keygroup"];
    var g := Split(kg);
    Joined3("", "fred", "keygroup");
    JoinSplit(kg);
    hide Split, Join, NoSep;
    JoinAppend(f, g);
    assert Join(f + g) == MarkerKey(kg);
    PlainAppend(f, g);
    SplitJoin(f + g);
  }

  lemma PlainAppend(f: seq<string>, g: seq<string>)
    requires f == ["", "fred", "keygroup"] && Plain(g)
    ensures Plain(f + g)
  {
  }

  class StoreService {
    const store: Storage

    /** A counter is held in memory only while its keygroup is stored. */
    ghost predicate Valid()
      reads this, store
    {
      store.Valid() && forall g | g in store.seqs :: Alnum(g) && store.View(g).present
    }

    constructor (store: Storage)
      requires store.Valid() && store.seqs == map[]
      ensures Valid() && this.store == store
    {
      this.store := store;
    }

    method Scan(kg: string, id: string, count: nat) returns (r: Option<seq<Item>>)
      requires Valid()
      ensures r.Some? <==> Alnum(kg) && Alnum(id) && store.View(kg).present && id in store.View(kg).items
      ensures r.Some? ==> Lists(r.value, kg, Smallest(store.View(kg).items, id, count))
    {
      if !Alnum(kg) || !Alnum(id) { return None; }
      var here := store.ExistsKeygroup(kg);
      if !here { return None; }
      var found := store.Exists(kg, id);
      if !found { return None; }
      var data := store.ReadSome(kg, id, count);
      var items := ItemsOfMap(kg, data);
      r := Some(items);
    }

    method ReadAll(kg: string) returns (r: Option<seq<Item>>)
      requires Valid()
      ensures r.Some? <==> Alnum(kg) && store.View(kg).present
      ensures r.Some? ==> Lists(r.value, kg, store.View(kg).items)
    {
      if !Alnum(kg) { return None; }
      var here := store.ExistsKeygroup(kg);
      if !here { return None; }
      var data := store.ReadAll(kg);
      var items := ItemsOfMap(kg, data);
      r := Some(items);
    }

    /** With `append`, a relayed append; otherwise an update. */
    method Update(i: Item, append: bool) returns (ok: bool)
      requires Valid()
      modifies store
      ensures Valid()
      ensures ok <==> Alnum(i.keygroup) && old(store.View(i.keygroup)).present && Acceptable(Copy(!append, i.id, i.val))
      ensures Alnum(i.keygroup)
        ==> store.View(i.keygroup) == Write(old(store.View(i.keygroup)), Copy(!append, i.id, i.val))
      ensures forall g | Alnum(g) && g != i.keygroup :: store.View(g) == old(store.View(g))
    {
      hide Storage.View, Storage.Valid, Alnum, AppendKey, CatchUp;
      if !Alnum(i.keygroup) || !Alnum(i.id) { return false; }
      var here := store.ExistsKeygroup(i.keygroup);
      if !here { return false; }
      ok := store.Update(i.keygroup, i.id, i.val, append);
    }

    method Delete(kg: string, id: string) returns (ok: bool)
      requires Valid()
      modifies store
      ensures Valid()
      ensures ok <==> Alnum(kg) && Alnum(id) && old(store.View(kg)).present
      ensures Alnum(kg) ==> store.View(kg) == Write(old(store.View(kg)), Remove(id))
      ensures forall g | Alnum(g) && g != kg :: store.View(g) == old(store.View(g))
    {
      hide Storage.View, Storage.Valid, Alnum;
      if !Alnum(kg) || !Alnum(id) { return false; }
      var here := store.ExistsKeygroup(kg);
      if !here { return false; }
      store.Delete(kg, id);
      ok := true;
    }

    lemma PresentIsNamed(kg: string)
      requires Valid()
      ensures store.View(kg).present ==> Alnum(kg)
    {
      MarkerIsNamed(store.db, kg);
    }

    method Append(i: Item) returns (r: Option<Item>)
      requires Valid()
      modifies store
      ensures Valid()
      ensures var before := old(store.View(i.keygroup));
        if before.present
        then r == Some(i.(id := Format(before.next))) && store.View(i.keygroup) == AppendNew(before, i.val)
        else r == None && store.View(i.keygroup) == before
      ensures forall g | Alnum(g) && g != i.keygroup :: store.View(g) == old(store.View(g))
    {
      hide Storage.View, Storage.Valid, Alnum, Format;
      PresentIsNamed(i.keygroup);
      var here := store.ExistsKeygroup(i.keygroup);
      if !here { return None; }
      var id := store.Append(i.keygroup, i.val);
      r := Some(i.(id := id));
    }

    method CreateKeygroup(kg: string) returns (ok: bool)
      requires Valid()
      modifies store
      ensures Valid()
      ensures ok <==> Alnum(kg) && !old(store.View(kg)).present
      ensures store.View(kg) == if ok then Opened(old(store.View(kg))) else old(store.View(kg))
      ensures forall g | Alnum(g) && g != kg :: store.View(g) == old(store.View(g))
    {
      hide Storage.View, Storage.Valid, Alnum;
      if !Alnum(kg) { return false; }
      var here := store.ExistsKeygroup(kg);
      if here { return false; }
      store.CreateKeygroup(kg);
      ok := true;
    }

    method DeleteKeygroup(kg: string) returns (ok: bool)
      requires Valid()
      modifies store
      ensures Valid()
      ensures ok <==> Alnum(kg) && old(store.View(kg)).present
      ensures store.View(kg) == if ok then Dropped(old(store.View(kg))) else old(store.View(kg))
      ensures forall g | Alnum(g) && g != kg :: store.View(g) == old(store.View(g))
    {
      hide Storage.View, Storage.Valid, Alnum;
      if !Alnum(kg) { return false; }
      var here := store.ExistsKeygroup(kg);
      if !here { return false; }
      store.DeleteKeygroup(kg);
      ok := true;
    }
  }

  /** A scan from an existing id returns that id and the smallest ids after it, as many as were
      asked for or as there are, and skips none. */
  lemma ScanIsRange(items: map<string, string>, id: string, count: nat)
    requires id in items && count >= 1
    ensures var r := Smallest(items, id, count); var available := FromOn(items, id);
      && id in r && |r| == (if count < |available| then count else |available|)
      && (forall k | k in r :: k in available && r[k] == items[k])
      && (forall k, l | k in r && l in available && l !in r :: Less(k, l))
  {
    var available := FromOn(items, id);
    var ids := Sorted(available);
    SortedIsSorted(available);
    var n := if count < |ids| then count else |ids|;
    SmallestIs(items, id, ids, count);
    FirstIsLeast(items, id, ids);
    hide Sorted, Leq, Smallest;
    PrefixOfSorted(items, ids, n);
    assert ids[..n][0] == id;
  }

  lemma PrefixOfSorted(items: map<string, string>, ids: seq<string>, n: nat)
    requires StrictlySorted(ids) && n <= |ids| && forall k | k in ids :: k in items
    ensures var r := Picked(items, ids[..n]);
      && |r| == n
      && (forall k | k in ids[..n] :: k in r)
      && (forall k | k in r :: k in ids && r[k] == items[k])
      && (forall k, l | k in r && l in ids && l !in r :: Less(k, l))
  {
    hide Leq;
    var taken := ids[..n];
    assert forall k | k in taken :: k in ids;
    PickedSize(items, taken);
    assert forall t | 0 <= t < n :: taken[t] == ids[t];
    forall k, l | k in taken && l in ids && l !in taken ensures Less(k, l) {
      var i :| 0 <= i < n && ids[i] == k;
      var j :| 0 <= j < |ids| && ids[j] == l;
    }
  }

  lemma FirstIsLeast(items: map<string, string>, id: string, ids: seq<string>)
    requires id in items && ids == Sorted(FromOn(items, id)) && StrictlySorted(ids)
    ensures ids != [] && ids[0] == id
  {
    Reflexive(id);
    assert id in FromOn(items, id);
    var j :| 0 <= j < |ids| && ids[j] == id;
    assert ids[0] in ids;
    if j > 0 {
      assert Less(ids[0], ids[j]);
      Antisymmetric(id, ids[0]);
    }
  }

  lemma {:induction false} PickedSize(items: map<string, string>, ids: seq<string>)
    requires StrictlySorted(ids) && forall id | id in ids :: id in items
    ensures |Picked(items, ids)| == |ids|
    decreases |ids|
  {
    if ids != [] {
      var n := |ids| - 1;
      assert ids == ids[..n] + [ids[n]];
      assert forall j | 0 <= j < n :: ids[..n][j] == ids[j] && ids[..n][j] != ids[n];
      PickedSize(items, ids[..n]);
      hide StrictlySorted, Leq;
      PickedOneMore(items, ids[..n], ids[n]);
    }
  }

  lemma PickedOneMore(items: map<string, string>, ids: seq<string>, id: string)
    requires id in items && id !in ids && forall i | i in ids :: i in items
    ensures |Picked(items, ids + [id])| == |Picked(items, ids)| + 1
  {
    assert Picked(items, ids + [id]).Keys == Picked(items, ids).Keys + {id};
    SizeIsKeys(Picked(items, ids + [id]));
    SizeIsKeys(Picked(items, ids));
  }

  lemma SizeIsKeys(m: map<string, string>)
    ensures |m| == |m.Keys|
  {
  }
}
