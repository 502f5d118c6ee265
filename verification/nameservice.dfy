/**
  The name service client of pkg/etcdnase: reads through a local cache, writes that drop
  what they make wrong, and the operations on keygroups, permissions and missed updates.
  Each operation is proved to do to the records of `NameView` what `Records` says, and to
  keep every cached answer equal to a direct read.
 */
module NameServices {
  import opened Fields
  import opened Numerals
  import opened Records
  import opened Sources
  import opened NameKeys
  import opened NameView
  import opened NameCache

  class NameService {
    const nodeID: Word
    const cached: bool
    var kv: Kv
    var local: Cache

    ghost predicate Valid()
      reads this
    {
      WellFormed(kv) && CoherentBut(kv, local, {}) && (!cached ==> local == map[])
    }

    constructor (nodeID: Word, cached: bool, kv: Kv)
      requires WellFormed(kv)
      ensures Valid() && this.nodeID == nodeID && this.cached == cached && this.kv == kv && local == map[]
    {
      this.nodeID, this.cached, this.kv, this.local := nodeID, cached, kv, map[];
    }

    // ---- reads and writes through the cache ----

    /** The cache may drop an entry whenever it likes. */
    method Evict(key: string)
      requires Valid()
      modifies this`local
      ensures Valid() && local == old(local) - {key}
    {
      local := local - {key};
    }

    /** Reads every key under a prefix; setting the cache may be dropped. */
    method GetPrefix(prefix: string) returns (m: Kv)
      requires Valid() && (MemberList(prefix) || PermissionList(prefix) || ReportList(prefix))
      modifies this`local
      ensures Valid()
      ensures MemberList(prefix) || PermissionList(prefix) ==> m == Under(kv, prefix)
      ensures m == Under(kv, prefix) || (prefix in old(local) && old(local)[prefix] == Listed(m))
      ensures prefix !in old(local) ==> m == Under(kv, prefix)
      ensures ReportList(prefix) ==> forall k | k in m :: IsReport(prefix, k)
    {
      if prefix in local {
        assert Fits(kv, prefix, local[prefix]);
        CachedKinds(kv, prefix, local[prefix]);
        return local[prefix].entries;
      }
      m := Under(kv, prefix);
      ReportsAreListed(kv, prefix);
      if cached {
        if * { local := local[prefix := Listed(m)]; }
      }
    }

    method GetExact(key: string) returns (v: string)
      requires Valid() && ReadAlone(key)
      modifies this`local
      ensures Valid() && v == ValueAt(kv, key)
    {
      if key in local {
        assert Fits(kv, key, local[key]);
        CachedKinds(kv, key, local[key]);
        return local[key].text;
      }
      v := ValueAt(kv, key);
      if cached {
        if * { local := local[key := Exact(v)]; }
      }
    }

    /** Drops the prefixes and the key from the cache. */
    method Invalidate(key: string, prefixes: seq<string>)
      modifies this`local
      ensures local == old(local) - (set p | p in prefixes) - {key} || (!cached && local == old(local))
    {
      if cached {
        ghost var before := local;
        for i := 0 to |prefixes|
          invariant local == before - set p | p in prefixes[..i]
        {
          local := local - {prefixes[i]};
        }
        assert prefixes[..|prefixes|] == prefixes;
        local := local - {key};
      }
    }

    method Put(e: Entry, value: string, prefixes: seq<string>)
      requires WellFormed(kv) && (!cached ==> local == map[]) && (e.Expiry? ==> Atoi(value).Some?)
      requires CoherentBut(kv, local, Dropped(e)) && Dropped(e) <= (set p | p in prefixes) + {Key(e)}
      modifies this`kv, this`local
      ensures Valid() && kv == old(kv)[Key(e) := value]
    {
      PutKeepsForm(kv, e, value);
      hide Key, NameCache.Dropped, WellFormed;
      DroppingSuffices(kv, kv[Key(e) := value], local, NameCache.Dropped(e), e);
      Invalidate(Key(e), prefixes);
      kv := kv[Key(e) := value];
    }

    method Delete(key: string, ghost e: Entry, prefixes: seq<string>)
      requires Valid() && key == Key(e) && Dropped(e) <= (set p | p in prefixes) + {key}
      modifies this`kv, this`local
      ensures Valid() && kv == old(kv) - {key}
    {
      LessKeepsForm(kv, kv - {key});
      hide Key, NameCache.Dropped, WellFormed;
      DroppingSuffices(kv, kv - {key}, local, {}, e);
      Invalidate(key, prefixes);
      kv := kv - {key};
    }

    // ---- keygroups ----

    method ExistsKeygroup(kg: Name) returns (exists_: bool)
      requires Valid()
      modifies this`local
      ensures Valid() && exists_ == RecordOf(kv, kg).created
    {
      assert ReadAlone(Key(Status(kg)));
      var status := GetExact(StatusKey(kg));
      exists_ := status == "created";
    }

    method IsMutable(kg: Name) returns (mutable: bool)
      requires Valid()
      modifies this`local
      ensures Valid() && mutable == RecordOf(kv, kg).mutable
    {
      assert ReadAlone(Key(Mutable(kg)));
      var text := GetExact(MutableKey(kg));
      mutable := text == "true";
    }

    /** A stored expiry is always a numeral, so reading it does not fail. */
    method GetKeygroupExpiry(kg: Name, id: Word) returns (expiry: Option<int>)
      requires Valid()
      modifies this`local
      ensures Valid() && expiry == Some(ExpiryOf(RecordOf(kv, kg), id))
    {
      assert ReadAlone(Key(Expiry(kg, id)));
      var text := GetExact(ExpiryPrefix(kg) + id);
      ExpiryIsStored(kv, kg, id);
      expiry := if text == "" then Some(0) else Atoi(text);
    }

    method GetExpiry(kg: Name) returns (expiry: Option<int>)
      requires Valid()
      modifies this`local
      ensures Valid() && expiry == Some(ExpiryOf(RecordOf(kv, kg), nodeID))
    {
      expiry := GetKeygroupExpiry(kg, nodeID);
    }

    method AddKgNodeEntry(kg: Name, n: Word, status: string)
      requires WellFormed(kv) && (!cached ==> local == map[]) && CoherentBut(kv, local, {NodePrefix(kg)})
      modifies this`kv, this`local
      ensures Valid() && kv == old(kv)[NodePrefix(kg) + n := status]
    {
      var prefix := NodePrefix(kg);
      Put(NodeStatus(kg, n), status, [prefix]);
    }

    method AddKgStatusEntry(kg: Name, status: string)
      requires Valid()
      modifies this`kv, this`local
      ensures Valid() && kv == old(kv)[StatusKey(kg) := status]
    {
      Put(Status(kg), status, []);
    }

    method AddKgMutableEntry(kg: Name, mutable: bool)
      requires Valid()
      modifies this`kv, this`local
      ensures Valid() && kv == old(kv)[MutableKey(kg) := if mutable then "true" else "false"]
    {
      var data := if mutable then "true" else "false";
      Put(Mutable(kg), data, []);
    }

    method AddKgExpiryEntry(kg: Name, id: Word, expiry: int)
      requires Valid()
      modifies this`kv, this`local
      ensures Valid() && kv == old(kv)[ExpiryPrefix(kg) + id := Itoa(expiry)]
    {
      AtoiOfItoa(expiry);
      Put(Expiry(kg, id), Itoa(expiry), [ExpiryPrefix(kg)]);
    }

    method CreateKeygroup(kg: Name, mutable: bool, expiry: int) returns (ok: bool)
      requires Valid()
      modifies this`kv, this`local
      ensures Valid() && ok == !RecordOf(old(kv), kg).created
      ensures RecordOf(kv, kg)
        == if ok then Founded(RecordOf(old(kv), kg), nodeID, mutable, expiry) else RecordOf(old(kv), kg)
      ensures ok ==> RecordOf(kv, kg).created && RecordOf(kv, kg).mutable == mutable
      ensures ok ==> RecordOf(kv, kg).ok == {nodeID} && ExpiryOf(RecordOf(kv, kg), nodeID) == expiry
      ensures OnlyAbout(old(kv), kv, kg)
    {
      hide RecordOf, OnlyAbout, SameBut, NodePrefix, ExpiryPrefix, StatusKey, MutableKey, KeygroupPrefix, Without, Itoa;
      ghost var kv0 := kv;
      SameAsItself(kv, kg);
      var exists_ := ExistsKeygroup(kg);
      if exists_ { return false; }
      PutMutable(kv, kg, if mutable then "true" else "false");
      AddKgMutableEntry(kg, mutable);
      SameButStep(kv0, old(kv), kv, kg);
      ghost var kv1 := kv;
      PutExpiry(kv, kg, nodeID, expiry);
      AddKgExpiryEntry(kg, nodeID, expiry);
      SameButStep(kv0, kv1, kv, kg);
      ghost var kv2 := kv;
      PutStatus(kv, kg, "created");
      AddKgStatusEntry(kg, "created");
      SameButStep(kv0, kv2, kv, kg);
      ghost var kv3 := kv;
      ClearNodes(kv, kg);
      ClearingDisturbs(kv, local, kg);
      WithoutKeepsForm(kv, NodePrefix(kg));
      kv := Without(kv, NodePrefix(kg));
      SameButStep(kv0, kv3, kv, kg);
      ghost var kv4 := kv;
      PutNode(kv, kg, nodeID, "ok");
      AddKgNodeEntry(kg, nodeID, "ok");
      SameButStep(kv0, kv4, kv, kg);
      ChangesOnlyAbout(kv0, kv, kg);
      ok := true;
    }

    method DeleteKeygroup(kg: Name)
      requires Valid()
      modifies this`kv, this`local
      ensures Valid() && RecordOf(kv, kg) == Retired(RecordOf(old(kv), kg)) && OnlyAbout(old(kv), kv, kg)
    {
      hide RecordOf, OnlyAbout;
      PutStatus(kv, kg, "deleted");
      AddKgStatusEntry(kg, "deleted");
      ChangesOnlyAbout(old(kv), kv, kg);
    }

    method GetNodeAddress(n: Word) returns (addr: Option<string>)
      requires Valid()
      modifies this`local
      ensures Valid() && addr == if HasAddress(kv, n) then Some(ValueAt(kv, AddressKey(n))) else None
    {
      assert ReadAlone(Key(Address(n)));
      var resp := GetExact(AddressKey(n));
      addr := if resp == "" then None else Some(resp);
    }

    method JoinNodeIntoKeygroup(kg: Name, n: Word, expiry: int) returns (ok: bool)
      requires Valid()
      modifies this`kv, this`local
      ensures Valid() && ok == (RecordOf(old(kv), kg).created && HasAddress(old(kv), n))
      ensures RecordOf(kv, kg) == if ok then WithMember(RecordOf(old(kv), kg), n, expiry) else RecordOf(old(kv), kg)
      ensures OnlyAbout(old(kv), kv, kg)
    {
      hide RecordOf, OnlyAbout, SameBut, NodePrefix, ExpiryPrefix, KeygroupPrefix, Itoa;
      ghost var kv0 := kv;
      SameAsItself(kv, kg);
      var exists_ := ExistsKeygroup(kg);
      if !exists_ { return false; }
      var addr := GetNodeAddress(n);
      if addr.None? { return false; }
      PutExpiry(kv, kg, n, expiry);
      AddKgExpiryEntry(kg, n, expiry);
      ghost var kv1 := kv;
      PutNode(kv, kg, n, "ok");
      AddKgNodeEntry(kg, n, "ok");
      SameButStep(kv0, kv1, kv, kg);
      ChangesOnlyAbout(kv0, kv, kg);
      ok := true;
    }

    method ExitOtherNodeFromKeygroup(kg: Name, n: Word) returns (ok: bool)
      requires Valid()
      modifies this`kv, this`local
      ensures Valid() && ok == (RecordOf(old(kv), kg).created && HasAddress(old(kv), n))
      ensures RecordOf(kv, kg) == if ok then WithoutMember(RecordOf(old(kv), kg), n) else RecordOf(old(kv), kg)
      ensures OnlyAbout(old(kv), kv, kg)
    {
      hide RecordOf, OnlyAbout, SameBut;
      SameAsItself(kv, kg);
      var exists_ := ExistsKeygroup(kg);
      if !exists_ { return false; }
      var addr := GetNodeAddress(n);
      if addr.None? { return false; }
      PutNode(kv, kg, n, "removed");
      AddKgNodeEntry(kg, n, "removed");
      ChangesOnlyAbout(old(kv), kv, kg);
      ok := true;
    }

    /** The members with their expiries, with or without the asking node; it does not fail. */
    method GetKeygroupMembers(kg: Name, excludeSelf: bool) returns (ids: map<string, int>, ok: bool)
      requires Valid()
      modifies this`local
      ensures Valid() && ok
      ensures ids == if excludeSelf then Others(RecordOf(kv, kg), nodeID) else Records.Members(RecordOf(kv, kg))
    {
      var nodes := GetPrefix(NodePrefix(kg));
      assert MemberList(NodePrefix(kg)) && nodes == Under(kv, NodePrefix(kg));
      ids, ok := map[], true;
      var left := nodes.Keys;
      ghost var r := RecordOf(kv, kg);
      NodesAreListed(kv, kg);
      hide *;
      NothingCollected(r, kg, nodes, excludeSelf, nodeID);
      while left != {}
        invariant Valid() && ok && left <= nodes.Keys
        invariant Collected(r, kg, nodes, left, excludeSelf, nodeID, ids)
        decreases left
      {
        var k :| k in left;
        CollectedStep(r, kg, nodes, left, excludeSelf, nodeID, ids, k);
        if nodes[k] == "ok" {
          if !(excludeSelf && nodeID == LastField(k)) {
            var id := LastField(k);
            var expiry := GetKeygroupExpiry(kg, id);
            ids := ids[id := expiry.value];
          }
        }
        left := left - {k};
      }
      AllCollected(r, kg, nodes, excludeSelf, nodeID, ids);
    }

    /** The node to recover an item from and its address, or no node and no address. */
    method GetNodeWithBiggerExpiry(kg: Name) returns (node: Option<string>, addr: string)
      requires Valid()
      modifies this`local
      ensures Valid() && MayChoose(Others(RecordOf(kv, kg), nodeID), node)
      ensures node.Some? ==> node.value != "" && NoSep(node.value) && addr == ValueAt(kv, AddressKey(node.value))
      ensures node.None? ==> addr == ""
    {
      var nodes, ok := GetKeygroupMembers(kg, true);
      if nodes == map[] { return None, ""; }
      node := Sources.GetNodeWithBiggerExpiry(nodes);
      if node.None? { return None, ""; }
      MembersAreWords(kv, kg, node.value);
      hide NameService.Valid, RecordOf, MayChoose, AddressKey, Others;
      var found := GetNodeAddress(node.value);
      addr := if found.Some? then found.value else "";
    }

    // ---- permissions ----

    method AddUserPermissions(u: Word, m: Word, kg: Name)
      requires Valid()
      modifies this`kv, this`local
      ensures Valid() && PermsOf(kv, u, kg) == PermsOf(old(kv), u, kg) + {m} && OnlyPerms(old(kv), kv, u, kg)
    {
      var prefix := UserPrefix(u, kg);
      PutPermission(kv, u, kg, m);
      hide PermsOf, OnlyPerms;
      Put(Permission(u, kg, m), "ok", [prefix]);
      ChangesOnlyPerms(old(kv), kv, u, kg);
    }

    method RevokeUserPermissions(u: Word, m: Word, kg: Name)
      requires Valid()
      modifies this`kv, this`local
      ensures Valid() && PermsOf(kv, u, kg) == PermsOf(old(kv), u, kg) - {m} && OnlyPerms(old(kv), kv, u, kg)
    {
      var prefix := UserPrefix(u, kg);
      DropPermission(kv, u, kg, m);
      hide PermsOf, OnlyPerms;
      Delete(prefix + m, Permission(u, kg, m), [prefix]);
      ChangesOnlyPerms(old(kv), kv, u, kg);
    }

    method GetUserPermissions(u: Word, kg: Name) returns (permissions: set<string>)
      requires Valid()
      modifies this`local
      ensures Valid() && permissions == PermsOf(kv, u, kg)
    {
      var res := GetPrefix(UserPrefix(u, kg));
      assert PermissionList(UserPrefix(u, kg)) && res == Under(kv, UserPrefix(u, kg));
      permissions := {};
      var left := res.Keys;
      MethodsAreListed(kv, u, kg);
      hide *;
      while left != {}
        invariant Valid() && left <= res.Keys && Gathered(u, kg, res, left, permissions)
        decreases left
      {
        var k :| k in left;
        GatheredStep(u, kg, res, left, permissions, k);
        permissions := permissions + {Split(k)[5]};
        left := left - {k};
      }
      AllGathered(kv, u, kg, permissions);
    }

    // ---- nodes and what they missed ----

    method RegisterSelf(host: string, externalHost: string)
      requires Valid()
      modifies this`kv, this`local
      ensures Valid() && ValueAt(kv, "node|" + nodeID + "|address") == host
      ensures ValueAt(kv, "node|" + nodeID + "|extaddress") == externalHost
      ensures forall n: Word | n != nodeID :: ValueAt(kv, AddressKey(n)) == ValueAt(old(kv), AddressKey(n))
      ensures SameRecords(old(kv), kv) && SamePerms(old(kv), kv) && SameMissed(old(kv), kv)
    {
      Put(Address(nodeID), host, []);
      Put(ExtAddress(nodeID), externalHost, []);
      hide *;
      AddressWrites(old(kv), nodeID, host, externalHost);
    }

    method ReportFailedNode(n: Word, kg: Name, id: string)
      requires Valid()
      modifies this`kv, this`local
      ensures Valid()
      ensures forall m: Word, k: Name, i ::
        IsMissed(kv, m, k, i) <==> IsMissed(old(kv), m, k, i) || (m == n && k == kg && i == id)
      ensures SameRecords(old(kv), kv) && SamePerms(old(kv), kv) && SameAddresses(old(kv), kv)
    {
      var prefix := FailedKgPrefix(n, kg);
      Put(Failed(n, kg, id), "1", [prefix]);
      forall m: Word, k: Name, i { KeysAreDistinct(Failed(m, k, i), Failed(n, kg, id)); }
      FailedPrefixIsExact(n, Failed(n, kg, id));
      hide Key, FailedPrefix;
      assert Starts(FailedPrefix(n), Key(Failed(n, kg, id)));
      FailedWrites(old(kv), kv, n);
    }

    /** Takes what is listed as missed by a node. The list is `seen`: exactly the node's reports, unless
        the cache has an older one. */
    method RequestNodeStatus(n: Word) returns (items: seq<(string, string)>, ghost seen: Kv)
      requires Valid()
      modifies this`kv, this`local
      ensures Valid()
      ensures FailedPrefix(n) !in old(local) ==> Drained(old(kv), kv, n, items)
      ensures seen == Under(old(kv), FailedPrefix(n))
        || (FailedPrefix(n) in old(local) && old(local)[FailedPrefix(n)] == Listed(seen))
      ensures kv == old(kv) - seen.Keys
      ensures forall kg: Name, i :: (kg, i) in items <==> exists id :: Key(Failed(n, kg, id)) in seen && Head(id) == i
      ensures SameRecords(old(kv), kv) && SamePerms(old(kv), kv) && SameAddresses(old(kv), kv)
      ensures forall m: Word, kg: Name, id | m != n :: IsMissed(kv, m, kg, id) == IsMissed(old(kv), m, kg, id)
    {
      ghost var kv0 := kv;
      var resp := GetPrefix(FailedPrefix(n));
      seen := resp;
      forall k | k in resp ensures OfReport(n, k) { ReportOf(n, k); }
      items := TakeReports(n, resp);
      hide *;
      ItemsAreReports(n, resp, items);
      OnlyReportsGone(kv0, kv, n, resp.Keys);
      if seen == Under(kv0, FailedPrefix(n)) { TakingAllDrains(kv0, kv, n, seen, items); }
      FailedWrites(kv0, kv, n);
    }

    /** The loop of RequestNodeStatus: reads each listed key and deletes it. */
    method TakeReports(n: Word, resp: Kv) returns (items: seq<(string, string)>)
      requires Valid() && forall k | k in resp :: OfReport(n, k)
      modifies this`kv, this`local
      ensures Valid() && kv == old(kv) - resp.Keys && ReadSoFar(resp, {}, items)
    {
      items := [];
      var left := resp.Keys;
      ghost var kv0 := kv;
      assert kv == kv0 - {};
      NothingRead(resp);
      hide *;
      while left != {}
        invariant Valid() && left <= resp.Keys && kv == kv0 - (resp.Keys - left)
        invariant ReadSoFar(resp, left, items)
        decreases left
      {
        var k :| k in left;
        ghost var kg, id := WhichReport(n, k);
        ReadStep(resp, left, items, k);
        var split := Split(k);
        items := items + [(split[3], split[4])];
        Delete(k, Failed(n, kg, id), []);
        left := left - {k};
        assert kv == kv0 - (resp.Keys - left);
      }
      assert resp.Keys - left == resp.Keys;
    }
  }

  // ---- facts about keys that the loops use ----

  lemma ReportsAreListed(kv: Kv, prefix: string)
    requires WellFormed(kv)
    ensures ReportList(prefix) ==> forall k | k in Under(kv, prefix) :: IsReport(prefix, k)
  {
    if n: Word :| prefix == FailedPrefix(n) {
      forall k | k in Under(kv, prefix) ensures IsReport(prefix, k) {
        var e: Entry :| k == Key(e);
        FailedPrefixIsExact(n, e);
        assert k == Key(Failed(n, e.kg, e.id));
      }
    }
  }

  lemma WithoutKeepsForm(kv: Kv, prefix: string)
    requires WellFormed(kv)
    ensures WellFormed(Without(kv, prefix))
  {
  }

  lemma ExpiryIsStored(kv: Kv, kg: Name, n: Word)
    requires WellFormed(kv)
    ensures var text := ValueAt(kv, ExpiryPrefix(kg) + n);
      (if text == "" then Some(0) else Atoi(text)) == Some(ExpiryOf(RecordOf(kv, kg), n))
  {
    assert Key(Expiry(kg, n)) == ExpiryPrefix(kg) + n;
    hide Key, ExpiryPrefix, Rests;
    RestsMean(kv, ExpiryPrefix(kg), Any, n);
  }

  lemma SameAsItself(kv: Kv, kg: Name)
    ensures SameBut(kv, kv, KeygroupPrefix(kg)) && OnlyAbout(kv, kv, kg)
  {
  }

  lemma SameButStep(a: Kv, b: Kv, c: Kv, kg: Name)
    requires SameBut(a, b, KeygroupPrefix(kg)) && SameBut(b, c, KeygroupPrefix(kg))
    ensures SameBut(a, c, KeygroupPrefix(kg))
  {
  }

  lemma SameRest(prefix: string, a: string, b: string)
    ensures prefix + a == prefix + b <==> a == b
  {
    assert (prefix + a)[|prefix|..] == a && (prefix + b)[|prefix|..] == b;
  }

  /** getNodeNameFromKgNodeString gives back the node a key is about. */
  ghost predicate OfNode(kg: Name, k: string) {
    LastField(k) != "" && NoSep(LastField(k)) && k == NodePrefix(kg) + LastField(k)
  }

  lemma ListedNode(kv: Kv, kg: Name, k: string)
    requires WellFormed(kv) && k in Under(kv, NodePrefix(kg))
    ensures OfNode(kg, k)
  {
    var e: Entry :| k == Key(e);
    NodePrefixIsExact(kg, e);
    DecodedFields(e);
    hide LastField;
  }

  lemma ListedIsOk(kv: Kv, kg: Name, n: string)
    ensures n in RecordOf(kv, kg).ok
      <==> NodePrefix(kg) + n in Under(kv, NodePrefix(kg)) && Under(kv, NodePrefix(kg))[NodePrefix(kg) + n] == "ok"
  {
    RestsMean(kv, NodePrefix(kg), IsOk, n);
  }

  /** The listed nodes are the keygroup's, and the record says which of them are members. */
  ghost predicate Lists(r: Record, kg: Name, nodes: Kv) {
    && (forall k | k in nodes :: OfNode(kg, k))
    && (forall n :: n in r.ok <==> NodePrefix(kg) + n in nodes && nodes[NodePrefix(kg) + n] == "ok")
  }

  lemma NodesAreListed(kv: Kv, kg: Name)
    requires WellFormed(kv)
    ensures Lists(RecordOf(kv, kg), kg, Under(kv, NodePrefix(kg)))
  {
    hide RecordOf, NodePrefix, WellFormed, Under;
    forall n { ListedIsOk(kv, kg, n); }
    forall k | k in Under(kv, NodePrefix(kg)) { ListedNode(kv, kg, k); }
  }

  /** What the loop over the listed nodes has gathered when those in `left` are still to come. */
  ghost predicate Collected(r: Record, kg: Name, nodes: Kv, left: set<string>, exclude: bool, self: Word,
          ids: map<string, int>) {
    && Lists(r, kg, nodes)
    && forall n :: (n in ids <==> n in r.ok && NodePrefix(kg) + n !in left && !(exclude && n == self))
                && (n in ids ==> ids[n] == ExpiryOf(r, n))
  }

  lemma NothingCollected(r: Record, kg: Name, nodes: Kv, exclude: bool, self: Word)
    requires Lists(r, kg, nodes)
    ensures Collected(r, kg, nodes, nodes.Keys, exclude, self, map[])
  {
  }

  lemma CollectedStep(r: Record, kg: Name, nodes: Kv, left: set<string>, exclude: bool, self: Word,
          ids: map<string, int>, k: string)
    requires Collected(r, kg, nodes, left, exclude, self, ids) && k in left && k in nodes
    ensures LastField(k) != "" && NoSep(LastField(k))
    ensures Collected(r, kg, nodes, left - {k}, exclude, self,
      if nodes[k] == "ok" && !(exclude && self == LastField(k))
          then ids[LastField(k) := ExpiryOf(r, LastField(k))] else ids)
  {
    assert OfNode(kg, k);
    hide LastField, NodePrefix;
    forall n ensures NodePrefix(kg) + n == k <==> n == LastField(k) { SameRest(NodePrefix(kg), n, LastField(k)); }
  }

  lemma AllCollected(r: Record, kg: Name, nodes: Kv, exclude: bool, self: Word, ids: map<string, int>)
    requires Collected(r, kg, nodes, {}, exclude, self, ids)
    ensures ids == if exclude then Others(r, self) else Records.Members(r)
  {
  }

  lemma AddressWrites(kv: Kv, self: Word, host: string, externalHost: string)
    ensures var kv' := kv[Key(Address(self)) := host][Key(ExtAddress(self)) := externalHost];
      && ValueAt(kv', "node|" + self + "|address") == host
          && ValueAt(kv', "node|" + self + "|extaddress") == externalHost
      && (forall n: Word | n != self :: ValueAt(kv', AddressKey(n)) == ValueAt(kv, AddressKey(n)))
      && SameRecords(kv, kv') && SamePerms(kv, kv') && SameMissed(kv, kv')
  {
    var kv' := kv[Key(Address(self)) := host][Key(ExtAddress(self)) := externalHost];
    assert Starts("node|", AddressKey(self)) && Starts("node|", ExtAddressKey(self));
    KeysRead("k", self, self, self, "");
    assert forall n: Word :: Key(Address(n)) == AddressKey(n);
    hide Key, AddressKey, ExtAddressKey, SameRecords, SamePerms, SameMissed, Starts;
    forall n: Word ensures ValueAt(kv', Key(Address(n))) == if n == self then host else ValueAt(kv, Key(Address(n))) {
      KeysAreDistinct(Address(n), Address(self));
      KeysAreDistinct(Address(n), ExtAddress(self));
    }
    SameByLetter(kv, kv', "node|");
  }

  lemma MembersAreWords(kv: Kv, kg: Name, n: string)
    requires WellFormed(kv)
    ensures n in RecordOf(kv, kg).ok ==> n != "" && NoSep(n)
  {
    hide NodePrefix, LastField, WellFormed, RecordOf, Under;
    ListedIsOk(kv, kg, n);
    if n in RecordOf(kv, kg).ok {
      ListedNode(kv, kg, NodePrefix(kg) + n);
      SameRest(NodePrefix(kg), n, LastField(NodePrefix(kg) + n));
    }
  }

  ghost predicate OfMethod(u: Word, kg: Name, k: string) {
    |Split(k)| == 6 && k == UserPrefix(u, kg) + Split(k)[5]
  }

  lemma ListedMethod(kv: Kv, u: Word, kg: Name, k: string)
    requires WellFormed(kv) && k in Under(kv, UserPrefix(u, kg))
    ensures OfMethod(u, kg, k)
  {
    var e: Entry :| k == Key(e);
    UserPrefixIsExact(u, kg, e);
    DecodedFields(e);
    hide Split;
  }

  /** What the loop over a user's keys has gathered when those in `left` are still to come. */
  ghost predicate Gathered(u: Word, kg: Name, res: Kv, left: set<string>, permissions: set<string>) {
    && (forall k | k in res :: OfMethod(u, kg, k))
    && forall m :: m in permissions <==> UserPrefix(u, kg) + m in res && UserPrefix(u, kg) + m !in left
  }

  lemma MethodsAreListed(kv: Kv, u: Word, kg: Name)
    requires WellFormed(kv)
    ensures var res := Under(kv, UserPrefix(u, kg)); Gathered(u, kg, res, res.Keys, {})
  {
    hide WellFormed, UserPrefix, OfMethod, Under;
    forall k | k in Under(kv, UserPrefix(u, kg)) ensures OfMethod(u, kg, k) { ListedMethod(kv, u, kg, k); }
  }

  lemma GatheredStep(u: Word, kg: Name, res: Kv, left: set<string>, permissions: set<string>, k: string)
    requires Gathered(u, kg, res, left, permissions) && k in left && k in res
    ensures |Split(k)| == 6 && Gathered(u, kg, res, left - {k}, permissions + {Split(k)[5]})
  {
    assert OfMethod(u, kg, k);
    hide Split, UserPrefix;
    forall m ensures UserPrefix(u, kg) + m == k <==> m == Split(k)[5] { SameRest(UserPrefix(u, kg), m, Split(k)[5]); }
  }

  lemma AllGathered(kv: Kv, u: Word, kg: Name, permissions: set<string>)
    requires Gathered(u, kg, Under(kv, UserPrefix(u, kg)), {}, permissions)
    ensures permissions == PermsOf(kv, u, kg)
  {
    forall m ensures m in PermsOf(kv, u, kg) <==> m in permissions {
      RestsMean(kv, UserPrefix(u, kg), Any, m);
    }
  }

  ghost predicate OfReport(n: Word, k: string) {
    exists kg: Name, id :: k == Key(Failed(n, kg, id))
  }

  lemma ReportOf(n: Word, k: string)
    requires IsReport(FailedPrefix(n), k)
    ensures OfReport(n, k)
  {
    var m: Word, kg: Name, id :| FailedPrefix(n) == FailedPrefix(m) && k == Key(Failed(m, kg, id));
    FailedPrefixIsExact(n, Failed(m, kg, id));
  }

  lemma WhichReport(n: Word, k: string) returns (kg: Name, id: string)
    requires OfReport(n, k)
    ensures k == Key(Failed(n, kg, id)) && Dropped(Failed(n, kg, id)) == {k} && |Split(k)| >= 5
  {
    kg, id :| k == Key(Failed(n, kg, id));
    DecodedFields(Failed(n, kg, id));
  }

  ghost predicate ReadSoFar(resp: Kv, left: set<string>, items: seq<(string, string)>) {
    forall p :: p in items
        <==> exists k :: k in resp && k !in left && |Split(k)| >= 5 && p == (Split(k)[3], Split(k)[4])
  }

  lemma NothingRead(resp: Kv)
    ensures ReadSoFar(resp, resp.Keys, [])
  {
  }

  lemma ReadStep(resp: Kv, left: set<string>, items: seq<(string, string)>, k: string)
    requires ReadSoFar(resp, left, items) && k in left && k in resp && |Split(k)| >= 5
    ensures ReadSoFar(resp, left - {k}, items + [(Split(k)[3], Split(k)[4])])
  {
  }

  lemma ItemsAreReports(n: Word, resp: Kv, items: seq<(string, string)>)
    requires forall k | k in resp :: OfReport(n, k)
    requires ReadSoFar(resp, {}, items)
    ensures forall kg: Name, i :: (kg, i) in items <==> exists id :: Key(Failed(n, kg, id)) in resp && Head(id) == i
  {
    hide Split, Key;
    forall kg: Name, i ensures (kg, i) in items <==> exists id :: Key(Failed(n, kg, id)) in resp && Head(id) == i {
      if (kg, i) in items {
        var k :| k in resp && |Split(k)| >= 5 && (kg, i) == (Split(k)[3], Split(k)[4]);
        var g: Name, id :| k == Key(Failed(n, g, id));
        DecodedFields(Failed(n, g, id));
      }
      if id :| Key(Failed(n, kg, id)) in resp && Head(id) == i {
        DecodedFields(Failed(n, kg, id));
      }
    }
  }

  lemma OnlyReportsGone(kv: Kv, kv': Kv, n: Word, keys: set<string>)
    requires kv' == kv - keys && forall k | k in keys :: OfReport(n, k)
    ensures SameBut(kv, kv', FailedPrefix(n))
  {
  }

  // ---- draining ----

  /** The node's reports are read and gone; of an id only the text before its first separator is read. */
  ghost predicate Drained(kv: Kv, kv': Kv, n: Word, items: seq<(string, string)>) {
    && (forall kg: Name, id :: !IsMissed(kv', n, kg, id))
    && (forall kg: Name, i :: (kg, i) in items <==> exists id :: IsMissed(kv, n, kg, id) && Head(id) == i)
  }

  lemma TakingAllDrains(kv: Kv, kv': Kv, n: Word, seen: Kv, items: seq<(string, string)>)
    requires seen == Under(kv, FailedPrefix(n)) && kv' == kv - seen.Keys
    requires forall kg: Name, i :: (kg, i) in items <==> exists id :: Key(Failed(n, kg, id)) in seen && Head(id) == i
    ensures Drained(kv, kv', n, items)
  {
    hide Key, FailedPrefix, Head;
    forall kg: Name, id ensures IsMissed(kv, n, kg, id) <==> Key(Failed(n, kg, id)) in seen {
      FailedPrefixIsExact(n, Failed(n, kg, id));
    }
  }

  /** The drain gives back exactly what was reported if and only if no reported id has a separator in it. */
  lemma DrainIsExact(kv: Kv, kv': Kv, n: Word, items: seq<(string, string)>)
    requires Drained(kv, kv', n, items)
    ensures (forall kg: Name, id :: (kg, id) in items <==> IsMissed(kv, n, kg, id))
      <==> (forall kg: Name, id | IsMissed(kv, n, kg, id) :: NoSep(id))
  {
    hide IsMissed;
    if forall kg: Name, id :: (kg, id) in items <==> IsMissed(kv, n, kg, id) {
      forall kg: Name, id | IsMissed(kv, n, kg, id) ensures NoSep(id) {
        assert (kg, id) in items;
        var x :| IsMissed(kv, n, kg, x) && Head(x) == id;
      }
    }
  }
}
