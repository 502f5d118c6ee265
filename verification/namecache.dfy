/**
  When a locally cached answer of the name service is still right. One cache holds texts
  under exact keys and maps under prefixes; the lemmas say which cached entries a write
  can make wrong, so that dropping those is enough while nobody else writes.
 */
module NameCache {
  import opened Fields
  import opened NameKeys
  import opened NameView

  datatype Cached = Exact(text: string) | Listed(entries: Kv)

  type Cache = map<string, Cached>

  /** The keys that are read one by one. */
  ghost predicate ReadAlone(key: string) {
    exists e: Entry :: key == Key(e) && (e.Status? || e.Mutable? || e.Expiry? || e.Address?)
  }

  ghost predicate MemberList(prefix: string) {
    exists kg: Name :: prefix == NodePrefix(kg)
  }

  ghost predicate PermissionList(prefix: string) {
    exists u: Word, kg: Name :: prefix == UserPrefix(u, kg)
  }

  ghost predicate ReportList(prefix: string) {
    exists n: Word :: prefix == FailedPrefix(n)
  }

  ghost predicate IsReport(prefix: string, key: string) {
    exists n: Word, kg: Name, id :: prefix == FailedPrefix(n) && key == Key(Failed(n, kg, id))
  }

  /** A cached report of missed updates is only known to list reports: writing one does not drop it. */
  ghost predicate Fits(kv: Kv, key: string, c: Cached) {
    match c
    case Exact(text) => ReadAlone(key) && text == ValueAt(kv, key)
    case Listed(entries) =>
      || ((MemberList(key) || PermissionList(key)) && entries == Under(kv, key))
      || (ReportList(key) && forall k | k in entries :: IsReport(key, k))
  }

  /** Every cached entry, but those under the given keys, is what a direct read gives. */
  ghost predicate CoherentBut(kv: Kv, local: Cache, but: set<string>) {
    forall k | k in local && k !in but :: Fits(kv, k, local[k])
  }

  /** What has to be dropped when an entry is written: its key, and the prefix whose list it is in. */
  function Dropped(e: Entry): set<string> {
    match e
    case NodeStatus(kg, _) => {Key(e), NodePrefix(kg)}
    case Permission(u, kg, _) => {Key(e), UserPrefix(u, kg)}
    case _ => {Key(e)}
  }

  lemma TextKeysAreNoPrefixes(key: string)
    requires ReadAlone(key)
    ensures !MemberList(key) && !PermissionList(key) && !ReportList(key)
  {
    var e: Entry :| key == Key(e) && (e.Status? || e.Mutable? || e.Expiry? || e.Address?);
    ExactKeysEndInText(e);
  }

  lemma ListsApart(n: Word, kg: Name, u: Word, k: Name)
    ensures FailedPrefix(n) != NodePrefix(kg) && FailedPrefix(n) != UserPrefix(u, k)
  {
    assert FailedPrefix(n)[0] == 'f' && NodePrefix(kg)[0] == 'k' && UserPrefix(u, k)[0] == 'u';
  }

  /** The type assertions of the cache reads hold: texts are cached under exact keys, maps under prefixes. */
  lemma CachedKinds(kv: Kv, key: string, c: Cached)
    requires Fits(kv, key, c)
    ensures ReadAlone(key) ==> c.Exact?
    ensures MemberList(key) || PermissionList(key) ==> c.Listed? && c.entries == Under(kv, key)
    ensures ReportList(key) ==> c.Listed? && forall k | k in c.entries :: IsReport(key, k)
  {
    if ReadAlone(key) { TextKeysAreNoPrefixes(key); }
    if ReportList(key) && (MemberList(key) || PermissionList(key)) {
      var n: Word :| key == FailedPrefix(n);
      if MemberList(key) {
        var kg: Name :| key == NodePrefix(kg);
        ListsApart(n, kg, n, kg);
      } else {
        var u: Word, kg: Name :| key == UserPrefix(u, kg);
        ListsApart(n, kg, u, kg);
      }
    }
  }

  /** The other direction of invalidation: a cached entry that is not dropped does not list the key. */
  lemma UndroppedIsUntouched(e: Entry, key: string)
    requires MemberList(key) || PermissionList(key)
    requires key !in Dropped(e)
    ensures !Starts(key, Key(e))
  {
    hide Key, NodePrefix, UserPrefix;
    if MemberList(key) {
      var kg: Name :| key == NodePrefix(kg);
      NodePrefixIsExact(kg, e);
    } else {
      var u: Word, kg: Name :| key == UserPrefix(u, kg);
      UserPrefixIsExact(u, kg, e);
    }
  }

  lemma SameList(kv: Kv, kv': Kv, prefix: string)
    requires SameUnder(kv, kv', prefix)
    ensures Under(kv, prefix) == Under(kv', prefix)
  {
    forall k | k in kv || k in kv' ensures k in Under(kv, prefix) <==> k in Under(kv', prefix) {
      if prefix <= k { assert Starts(prefix, k) && SameAt(kv, kv', k); }
    }
    forall k | k in Under(kv, prefix) ensures Under(kv, prefix)[k] == Under(kv', prefix)[k] {
      assert Starts(prefix, k) && SameAt(kv, kv', k);
    }
  }

  ghost predicate OneKey(kv: Kv, kv': Kv, key: string) {
    forall k :: k == key || SameAt(kv, kv', k)
  }

  /** Dropping the written key and the prefix it is listed under is enough. */
  lemma DroppingSuffices(kv: Kv, kv': Kv, local: Cache, but: set<string>, e: Entry)
    requires CoherentBut(kv, local, but) && OneKey(kv, kv', Key(e))
    ensures CoherentBut(kv', local, but + Dropped(e))
  {
    forall k | k in local && k !in but && k !in Dropped(e) ensures Fits(kv', k, local[k]) {
      assert Fits(kv, k, local[k]);
      assert k != Key(e) && SameAt(kv, kv', k);
      hide Key, Dropped;
      if local[k].Listed? && (MemberList(k) || PermissionList(k)) {
        CachedKinds(kv, k, local[k]);
        UndroppedIsUntouched(e, k);
        assert SameUnder(kv, kv', k);
        SameList(kv, kv', k);
      }
    }
  }

  /** Deleting all node entries of a keygroup makes nothing wrong but the list of them. */
  lemma ClearingDisturbs(kv: Kv, local: Cache, kg: Name)
    requires CoherentBut(kv, local, {})
    ensures CoherentBut(Without(kv, NodePrefix(kg)), local, {NodePrefix(kg)})
  {
    var kv' := Without(kv, NodePrefix(kg));
    forall k | k in local && k != NodePrefix(kg) ensures Fits(kv', k, local[k]) {
      assert Fits(kv, k, local[k]);
      if local[k].Exact? {
        var e: Entry :| k == Key(e) && (e.Status? || e.Mutable? || e.Expiry? || e.Address?);
        NodePrefixIsExact(kg, e);
      } else if MemberList(k) || PermissionList(k) {
        CachedKinds(kv, k, local[k]);
        OtherListsKept(kv, kg, k);
      }
    }
  }

  lemma OtherListsKept(kv: Kv, kg: Name, key: string)
    requires (MemberList(key) || PermissionList(key)) && key != NodePrefix(kg)
    ensures Under(Without(kv, NodePrefix(kg)), key) == Under(kv, key)
  {
    if MemberList(key) {
      var k: Name :| key == NodePrefix(k);
      forall x | x in kv && key <= x && NodePrefix(kg) <= x ensures false { KeygroupsApart(k, kg, x); }
    } else {
      var u: Word, k: Name :| key == UserPrefix(u, k);
      assert UserPrefix(u, k)[0] == 'u' && NodePrefix(kg)[0] == 'k';
    }
  }
}
