/**
  What the flat keys of the name service say about a keygroup, a user or a node, and how
  writing a key changes what they say.
 */
module NameView {
  import opened Fields
  import opened Numerals
  import opened Records
  import opened NameKeys

  type Kv = map<string, string>

  /** A missing key reads as the empty text. */
  function ValueAt(kv: Kv, key: string): string {
    if key in kv then kv[key] else ""
  }

  function Under(kv: Kv, prefix: string): Kv {
    map k | k in kv && prefix <= k :: kv[k]
  }

  function Without(kv: Kv, prefix: string): Kv {
    map k | k in kv && !(prefix <= k) :: kv[k]
  }

  /** Every key was made by one of the key formats, and expiries are numerals. */
  ghost predicate WellFormed(kv: Kv) {
    && (forall k | k in kv :: exists e: Entry :: k == Key(e))
    && (forall kg: Name, n: Word | Key(Expiry(kg, n)) in kv :: Atoi(kv[Key(Expiry(kg, n))]).Some?)
  }

  /** The rests of the keys under a prefix whose values are accepted. */
  function Rests(kv: Kv, prefix: string, accepted: string -> bool): set<string> {
    set k | k in kv && prefix <= k && accepted(kv[k]) :: k[|prefix|..]
  }

  predicate IsOk(status: string) {
    status == "ok"
  }

  predicate Any(status: string) {
    true
  }

  lemma RestsMean(kv: Kv, prefix: string, accepted: string -> bool, rest: string)
    ensures rest in Rests(kv, prefix, accepted) <==> prefix + rest in kv && accepted(kv[prefix + rest])
  {
    if prefix + rest in kv && accepted(kv[prefix + rest]) {
      assert (prefix + rest)[|prefix|..] == rest;
    }
    if rest in Rests(kv, prefix, accepted) {
      var k :| k in kv && prefix <= k && accepted(kv[k]) && k[|prefix|..] == rest;
      assert k == prefix + rest;
    }
  }

  /** An expiry that is not stored reads as 0. */
  function ReadExpiry(text: string): int {
    match Atoi(text)
    case None => 0
    case Some(i) => i
  }

  function Expiries(kv: Kv, kg: Name): map<string, int> {
    map n | n in Rests(kv, ExpiryPrefix(kg), Any) :: ReadExpiry(ValueAt(kv, ExpiryPrefix(kg) + n))
  }

  /** The record that the flat keys hold of a keygroup. */
  function RecordOf(kv: Kv, kg: Name): Record {
    Record(ValueAt(kv, StatusKey(kg)) == "created", ValueAt(kv, MutableKey(kg)) == "true",
      Rests(kv, NodePrefix(kg), IsOk), Expiries(kv, kg))
  }

  function PermsOf(kv: Kv, u: Word, kg: Name): set<string> {
    Rests(kv, UserPrefix(u, kg), Any)
  }

  predicate IsMissed(kv: Kv, n: Word, kg: Name, id: string) {
    Key(Failed(n, kg, id)) in kv
  }

  predicate HasAddress(kv: Kv, n: Word) {
    ValueAt(kv, AddressKey(n)) != ""
  }

  /** The keys and the texts that every reading of the flat space comes down to. */
  lemma ReadingsAre(kv: Kv, kg: Name, n: Word, u: Word, m: Word, id: string)
    ensures RecordOf(kv, kg).created <==> ("kg|" + kg + "|status" in kv && kv["kg|" + kg + "|status"] == "created")
    ensures RecordOf(kv, kg).mutable <==> ("kg|" + kg + "|mutable" in kv && kv["kg|" + kg + "|mutable"] == "true")
    ensures n in RecordOf(kv, kg).ok <==> ("kg|" + kg + "|node|" + n in kv && kv["kg|" + kg + "|node|" + n] == "ok")
    ensures n in RecordOf(kv, kg).expiry <==> "kg|" + kg + "|expiry|node|" + n in kv
    ensures m in PermsOf(kv, u, kg) <==> "user|" + u + "|kg|" + kg + "|method|" + m in kv
    ensures IsMissed(kv, n, kg, id) <==> "failnode|" + n + "|kg|" + kg + "|" + id in kv
    ensures HasAddress(kv, n) <==> ("node|" + n + "|address" in kv && kv["node|" + n + "|address"] != "")
  {
    KeysRead(kg, n, u, m, id);
    hide NodePrefix, ExpiryPrefix, UserPrefix, StatusKey, MutableKey, AddressKey, Key, Rests;
    RestsMean(kv, NodePrefix(kg), IsOk, n);
    RestsMean(kv, ExpiryPrefix(kg), Any, n);
    RestsMean(kv, UserPrefix(u, kg), Any, m);
  }

  /** The printed forms of the keys. */
  lemma KeysRead(kg: Name, n: Word, u: Word, m: Word, id: string)
    ensures StatusKey(kg) == "kg|" + kg + "|status" && MutableKey(kg) == "kg|" + kg + "|mutable"
    ensures NodePrefix(kg) + n == "kg|" + kg + "|node|" + n && ExpiryPrefix(kg) + n == "kg|" + kg + "|expiry|node|" + n
    ensures UserPrefix(u, kg) + m == "user|" + u + "|kg|" + kg + "|method|" + m
    ensures Key(Failed(n, kg, id)) == "failnode|" + n + "|kg|" + kg + "|" + id
    ensures AddressKey(n) == "node|" + n + "|address" && ExtAddressKey(n) == "node|" + n + "|extaddress"
  {
    assert NodePrefix(kg) == "kg|" + kg + "|node|";
    assert ExpiryPrefix(kg) == "kg|" + kg + "|expiry|node|";
    assert UserPrefix(u, kg) == "user|" + u + "|kg|" + kg + "|method|";
    assert FailedPrefix(n) == "failnode|" + n + "|";
    assert FailedKgPrefix(n, kg) == "failnode|" + n + "|kg|" + kg + "|";
  }

  // ---- frames ----

  predicate SameAt(kv: Kv, kv': Kv, k: string) {
    (k in kv <==> k in kv') && (k in kv ==> kv[k] == kv'[k])
  }

  /** Both agree on every key that is not under the prefix. */
  ghost predicate SameBut(kv: Kv, kv': Kv, prefix: string) {
    forall k :: Starts(prefix, k) || SameAt(kv, kv', k)
  }

  /** Both agree on every key under the prefix. */
  ghost predicate SameUnder(kv: Kv, kv': Kv, prefix: string) {
    forall k | Starts(prefix, k) :: SameAt(kv, kv', k)
  }

  lemma SameRests(kv: Kv, kv': Kv, prefix: string, accepted: string -> bool)
    requires SameUnder(kv, kv', prefix)
    ensures Rests(kv, prefix, accepted) == Rests(kv', prefix, accepted)
  {
    forall rest ensures rest in Rests(kv, prefix, accepted) <==> rest in Rests(kv', prefix, accepted) {
      RestsMean(kv, prefix, accepted, rest);
      RestsMean(kv', prefix, accepted, rest);
      assert Starts(prefix, prefix + rest);
    }
  }

  lemma SameExpiries(kv: Kv, kv': Kv, kg: Name)
    requires SameUnder(kv, kv', ExpiryPrefix(kg))
    ensures Expiries(kv, kg) == Expiries(kv', kg)
  {
    hide ExpiryPrefix, Rests;
    SameRests(kv, kv', ExpiryPrefix(kg), Any);
    forall n ensures ValueAt(kv, ExpiryPrefix(kg) + n) == ValueAt(kv', ExpiryPrefix(kg) + n) {
      assert Starts(ExpiryPrefix(kg), ExpiryPrefix(kg) + n);
    }
  }

  /** Keys under the prefix of one keygroup are not under the prefix of another. */
  lemma KeygroupsApart(a: Name, b: Name, k: string)
    requires KeygroupPrefix(a) <= k && KeygroupPrefix(b) <= k
    ensures a == b
  {
    AlnumIsPlain(a);
    AlnumIsPlain(b);
    var x, y := k[|KeygroupPrefix(a)|..], k[|KeygroupPrefix(b)|..];
    assert k == KeygroupPrefix(a) + x == KeygroupPrefix(b) + y;
    assert k[3..] == a + SEP + x && k[3..] == b + SEP + y;
    HeadOf(a, x);
    HeadOf(b, y);
  }

  lemma KeysOfKeygroup(kg: Name, k: string)
    ensures Starts(NodePrefix(kg), k) || Starts(ExpiryPrefix(kg), k) ==> Starts(KeygroupPrefix(kg), k)
    ensures Starts(KeygroupPrefix(kg), StatusKey(kg)) && Starts(KeygroupPrefix(kg), MutableKey(kg))
    ensures !(Starts(NodePrefix(kg), k) && Starts(ExpiryPrefix(kg), k))
  {
    var at := |KeygroupPrefix(kg)|;
    assert ExpiryPrefix(kg)[at] == 'e' && NodePrefix(kg)[at] == 'n';
  }

  lemma SameRecord(kv: Kv, kv': Kv, kg: Name)
    requires SameUnder(kv, kv', KeygroupPrefix(kg))
    ensures RecordOf(kv, kg) == RecordOf(kv', kg)
  {
    forall k { KeysOfKeygroup(kg, k); }
    hide KeygroupPrefix, NodePrefix, ExpiryPrefix, StatusKey, MutableKey, Starts, Rests, Expiries;
    SameRests(kv, kv', NodePrefix(kg), IsOk);
    SameExpiries(kv, kv', kg);
    assert SameAt(kv, kv', StatusKey(kg)) && SameAt(kv, kv', MutableKey(kg));
  }

  lemma RecordsApart(kv: Kv, kv': Kv, kg: Name, k: Name)
    requires SameBut(kv, kv', KeygroupPrefix(kg)) && k != kg
    ensures RecordOf(kv, k) == RecordOf(kv', k)
  {
    hide KeygroupPrefix, RecordOf;
    forall key | Starts(KeygroupPrefix(k), key) ensures !Starts(KeygroupPrefix(kg), key) {
      if Starts(KeygroupPrefix(kg), key) { KeygroupsApart(kg, k, key); }
    }
    SameRecord(kv, kv', k);
  }

  ghost predicate SamePerms(kv: Kv, kv': Kv) {
    forall u: Word, k: Name :: PermsOf(kv', u, k) == PermsOf(kv, u, k)
  }

  ghost predicate SameMissed(kv: Kv, kv': Kv) {
    forall n: Word, k: Name, id :: IsMissed(kv', n, k, id) == IsMissed(kv, n, k, id)
  }

  ghost predicate SameAddresses(kv: Kv, kv': Kv) {
    forall n: Word :: ValueAt(kv', AddressKey(n)) == ValueAt(kv, AddressKey(n))
  }

  ghost predicate SameRecords(kv: Kv, kv': Kv) {
    forall k: Name :: RecordOf(kv', k) == RecordOf(kv, k)
  }

  /** The first letter of a key already tells what it is about. */
  lemma SameByLetter(kv: Kv, kv': Kv, prefix: string)
    requires prefix != "" && SameBut(kv, kv', prefix)
    ensures prefix[0] != 'k' ==> SameRecords(kv, kv')
    ensures prefix[0] != 'u' ==> SamePerms(kv, kv')
    ensures prefix[0] != 'f' ==> SameMissed(kv, kv')
    ensures prefix[0] != 'n' ==> SameAddresses(kv, kv')
  {
    if prefix[0] != 'k' {
      forall k: Name ensures RecordOf(kv', k) == RecordOf(kv, k) {
        assert KeygroupPrefix(k)[0] == 'k';
        hide RecordOf;
        SameRecord(kv, kv', k);
      }
    }
    if prefix[0] != 'u' {
      forall u: Word, k: Name ensures PermsOf(kv', u, k) == PermsOf(kv, u, k) {
        assert UserPrefix(u, k)[0] == 'u';
        SameRests(kv, kv', UserPrefix(u, k), Any);
      }
    }
    if prefix[0] != 'f' {
      forall n: Word, k: Name, id ensures IsMissed(kv', n, k, id) == IsMissed(kv, n, k, id) {
        assert Key(Failed(n, k, id))[0] == 'f' && SameAt(kv, kv', Key(Failed(n, k, id)));
      }
    }
    if prefix[0] != 'n' {
      forall n: Word ensures ValueAt(kv', AddressKey(n)) == ValueAt(kv, AddressKey(n)) {
        assert AddressKey(n)[0] == 'n' && SameAt(kv, kv', AddressKey(n));
      }
    }
  }

  /** What is not about keygroup `kg` stays as it was. */
  ghost predicate OnlyAbout(kv: Kv, kv': Kv, kg: Name) {
    && (forall k: Name | k != kg :: RecordOf(kv', k) == RecordOf(kv, k))
    && SamePerms(kv, kv') && SameMissed(kv, kv') && SameAddresses(kv, kv')
  }

  lemma ChangesOnlyAbout(kv: Kv, kv': Kv, kg: Name)
    requires SameBut(kv, kv', KeygroupPrefix(kg))
    ensures OnlyAbout(kv, kv', kg)
  {
    assert KeygroupPrefix(kg)[0] == 'k';
    hide RecordOf, SameBut, SamePerms, SameMissed, SameAddresses;
    SameByLetter(kv, kv', KeygroupPrefix(kg));
    forall k: Name | k != kg ensures RecordOf(kv', k) == RecordOf(kv, k) { RecordsApart(kv, kv', kg, k); }
  }

  /** What is not about user `u` on keygroup `kg` stays as it was. */
  ghost predicate OnlyPerms(kv: Kv, kv': Kv, u: Word, kg: Name) {
    && (forall v: Word, k: Name | v != u || k != kg :: PermsOf(kv', v, k) == PermsOf(kv, v, k))
    && SameRecords(kv, kv') && SameMissed(kv, kv') && SameAddresses(kv, kv')
  }

  lemma UsersApart(u: Word, a: Name, v: Word, b: Name, k: string)
    requires UserPrefix(u, a) <= k && UserPrefix(v, b) <= k
    ensures u == v && a == b
  {
    hide Split, UserPrefix;
    var x := Rest(k, UserPrefix(u, a));
    var y := Rest(k, UserPrefix(v, b));
    UserFields(u, a, x);
    UserFields(v, b, y);
  }

  lemma UserFields(u: Word, kg: Name, rest: string)
    ensures var f := Split(UserPrefix(u, kg) + rest); |f| > 3 && f[1] == u && f[3] == kg
  {
    AlnumIsPlain(kg);
    Joined5("user", u, "kg", kg, "method");
    hide Split, Join;
    SplitPrefixed(["user", u, "kg", kg, "method"], rest);
  }

  lemma ChangesOnlyPerms(kv: Kv, kv': Kv, u: Word, kg: Name)
    requires SameBut(kv, kv', UserPrefix(u, kg))
    ensures OnlyPerms(kv, kv', u, kg)
  {
    assert UserPrefix(u, kg)[0] == 'u';
    hide SameRecords, SameMissed, SameAddresses;
    SameByLetter(kv, kv', UserPrefix(u, kg));
    hide UserPrefix;
    forall v: Word, k: Name | v != u || k != kg ensures PermsOf(kv', v, k) == PermsOf(kv, v, k) {
      forall key | Starts(UserPrefix(v, k), key) ensures SameAt(kv, kv', key) {
        if Starts(UserPrefix(u, kg), key) { UsersApart(u, kg, v, k, key); }
      }
      SameRests(kv, kv', UserPrefix(v, k), Any);
    }
  }

  // ---- single writes ----

  lemma PutStatus(kv: Kv, kg: Name, status: string)
    ensures RecordOf(kv[StatusKey(kg) := status], kg) == RecordOf(kv, kg).(created := status == "created")
    ensures SameBut(kv, kv[StatusKey(kg) := status], KeygroupPrefix(kg))
  {
    NodePrefixIsExact(kg, Status(kg));
    ExpiryPrefixIsExact(kg, Status(kg));
    KeysAreDistinct(Status(kg), Mutable(kg));
    WriteElsewhere(kv, kg, StatusKey(kg), status);
    hide Rests, Expiries, SameBut;
  }

  lemma PutMutable(kv: Kv, kg: Name, text: string)
    ensures RecordOf(kv[MutableKey(kg) := text], kg) == RecordOf(kv, kg).(mutable := text == "true")
    ensures SameBut(kv, kv[MutableKey(kg) := text], KeygroupPrefix(kg))
  {
    NodePrefixIsExact(kg, Mutable(kg));
    ExpiryPrefixIsExact(kg, Mutable(kg));
    KeysAreDistinct(Status(kg), Mutable(kg));
    WriteElsewhere(kv, kg, MutableKey(kg), text);
    hide Rests, Expiries, SameBut;
  }

  lemma WriteElsewhere(kv: Kv, kg: Name, key: string, text: string)
    ensures !Starts(NodePrefix(kg), key)
      ==> Rests(kv[key := text], NodePrefix(kg), IsOk) == Rests(kv, NodePrefix(kg), IsOk)
    ensures !Starts(ExpiryPrefix(kg), key) ==> Expiries(kv[key := text], kg) == Expiries(kv, kg)
    ensures Starts(KeygroupPrefix(kg), key) ==> SameBut(kv, kv[key := text], KeygroupPrefix(kg))
  {
  }

  lemma PutRest(kv: Kv, prefix: string, accepted: string -> bool, rest: string, text: string)
    ensures Rests(kv[prefix + rest := text], prefix, accepted)
      == if accepted(text) then Rests(kv, prefix, accepted) + {rest} else Rests(kv, prefix, accepted) - {rest}
  {
    var before, after := Rests(kv, prefix, accepted), Rests(kv[prefix + rest := text], prefix, accepted);
    forall m ensures m in after <==> (if m == rest then accepted(text) else m in before) {
      RestsMean(kv[prefix + rest := text], prefix, accepted, m);
      RestsMean(kv, prefix, accepted, m);
      assert (prefix + m)[|prefix|..] == m && (prefix + rest)[|prefix|..] == rest;
    }
    assert after == if accepted(text) then before + {rest} else before - {rest};
  }

  lemma PutExpiry(kv: Kv, kg: Name, n: Word, expiry: int)
    ensures RecordOf(kv[ExpiryPrefix(kg) + n := Itoa(expiry)], kg)
      == RecordOf(kv, kg).(expiry := RecordOf(kv, kg).expiry[n := expiry])
    ensures SameBut(kv, kv[ExpiryPrefix(kg) + n := Itoa(expiry)], KeygroupPrefix(kg))
  {
    var key := ExpiryPrefix(kg) + n;
    assert key == Key(Expiry(kg, n));
    NodePrefixIsExact(kg, Expiry(kg, n));
    KeysAreDistinct(Expiry(kg, n), Mutable(kg));
    KeysAreDistinct(Expiry(kg, n), Status(kg));
    KeysOfKeygroup(kg, key);
    WriteElsewhere(kv, kg, key, Itoa(expiry));
    PutExpiries(kv, kg, n, expiry);
    hide Itoa, Rests, Expiries, SameBut;
  }

  lemma PutExpiries(kv: Kv, kg: Name, n: Word, expiry: int)
    ensures Expiries(kv[ExpiryPrefix(kg) + n := Itoa(expiry)], kg) == Expiries(kv, kg)[n := expiry]
  {
    AtoiOfItoa(expiry);
    PutRest(kv, ExpiryPrefix(kg), Any, n, Itoa(expiry));
    hide Itoa, Atoi, ExpiryPrefix, Rests;
    forall m | m != n ensures ExpiryPrefix(kg) + m != ExpiryPrefix(kg) + n {
      assert (ExpiryPrefix(kg) + m)[|ExpiryPrefix(kg)|..] == m && (ExpiryPrefix(kg) + n)[|ExpiryPrefix(kg)|..] == n;
    }
  }

  lemma PutNode(kv: Kv, kg: Name, n: Word, status: string)
    ensures RecordOf(kv[NodePrefix(kg) + n := status], kg)
      == RecordOf(kv, kg).(ok := if status == "ok" then RecordOf(kv, kg).ok + {n} else RecordOf(kv, kg).ok - {n})
    ensures SameBut(kv, kv[NodePrefix(kg) + n := status], KeygroupPrefix(kg))
  {
    var key := NodePrefix(kg) + n;
    assert key == Key(NodeStatus(kg, n));
    ExpiryPrefixIsExact(kg, NodeStatus(kg, n));
    KeysAreDistinct(NodeStatus(kg, n), Mutable(kg));
    KeysAreDistinct(NodeStatus(kg, n), Status(kg));
    KeysOfKeygroup(kg, key);
    WriteElsewhere(kv, kg, key, status);
    PutRest(kv, NodePrefix(kg), IsOk, n, status);
    hide Rests, Expiries, SameBut;
  }

  lemma ClearNodes(kv: Kv, kg: Name)
    ensures RecordOf(Without(kv, NodePrefix(kg)), kg) == RecordOf(kv, kg).(ok := {})
    ensures SameBut(kv, Without(kv, NodePrefix(kg)), KeygroupPrefix(kg))
  {
    var kv' := Without(kv, NodePrefix(kg));
    NodePrefixIsExact(kg, Status(kg));
    NodePrefixIsExact(kg, Mutable(kg));
    forall k { KeysOfKeygroup(kg, k); }
    assert Rests(kv', NodePrefix(kg), IsOk) == {};
    hide NodePrefix, ExpiryPrefix, KeygroupPrefix, Rests, Expiries;
    assert SameUnder(kv, kv', ExpiryPrefix(kg));
    SameExpiries(kv, kv', kg);
  }

  lemma PutPermission(kv: Kv, u: Word, kg: Name, m: Word)
    ensures PermsOf(kv[UserPrefix(u, kg) + m := "ok"], u, kg) == PermsOf(kv, u, kg) + {m}
    ensures SameBut(kv, kv[UserPrefix(u, kg) + m := "ok"], UserPrefix(u, kg))
  {
    PutRest(kv, UserPrefix(u, kg), Any, m, "ok");
    assert Starts(UserPrefix(u, kg), UserPrefix(u, kg) + m);
    hide Rests, Starts, UserPrefix;
  }

  lemma DropPermission(kv: Kv, u: Word, kg: Name, m: Word)
    ensures PermsOf(kv - {UserPrefix(u, kg) + m}, u, kg) == PermsOf(kv, u, kg) - {m}
    ensures SameBut(kv, kv - {UserPrefix(u, kg) + m}, UserPrefix(u, kg))
  {
    var kv' := kv - {UserPrefix(u, kg) + m};
    assert Starts(UserPrefix(u, kg), UserPrefix(u, kg) + m);
    hide UserPrefix, Starts;
    forall x ensures x in PermsOf(kv', u, kg) <==> x != m && x in PermsOf(kv, u, kg) {
      RestsMean(kv', UserPrefix(u, kg), Any, x);
      RestsMean(kv, UserPrefix(u, kg), Any, x);
      assert (UserPrefix(u, kg) + x)[|UserPrefix(u, kg)|..] == x && (UserPrefix(u, kg) + m)[|UserPrefix(u, kg)|..] == m;
    }
  }

  lemma FailedWrites(kv: Kv, kv': Kv, n: Word)
    requires SameBut(kv, kv', FailedPrefix(n))
    ensures SameRecords(kv, kv') && SamePerms(kv, kv') && SameAddresses(kv, kv')
    ensures forall m: Word, kg: Name, id | m != n :: IsMissed(kv', m, kg, id) == IsMissed(kv, m, kg, id)
  {
    assert FailedPrefix(n)[0] == 'f';
    SameByLetter(kv, kv', FailedPrefix(n));
    hide SameRecords, SamePerms, SameAddresses, FailedPrefix, Key;
    forall m: Word, kg: Name, id | m != n ensures IsMissed(kv', m, kg, id) == IsMissed(kv, m, kg, id) {
      FailedPrefixIsExact(n, Failed(m, kg, id));
      assert SameAt(kv, kv', Key(Failed(m, kg, id)));
    }
  }

  // ---- well-formedness ----

  lemma PutKeepsForm(kv: Kv, e: Entry, text: string)
    requires WellFormed(kv) && (e.Expiry? ==> Atoi(text).Some?)
    ensures WellFormed(kv[Key(e) := text])
  {
    hide Key, Atoi;
    forall kg: Name, n: Word | Key(Expiry(kg, n)) in kv[Key(e) := text]
        ensures Atoi(kv[Key(e) := text][Key(Expiry(kg, n))]).Some? {
      KeysAreDistinct(Expiry(kg, n), e);
    }
  }

  lemma LessKeepsForm(kv: Kv, kv': Kv)
    requires WellFormed(kv) && kv'.Keys <= kv.Keys && forall k | k in kv' :: kv'[k] == kv[k]
    ensures WellFormed(kv')
  {
  }
}
