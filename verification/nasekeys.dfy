/**
  The flat keys of the name service. One etcd space holds members, status, mutability,
  expiries, addresses, permissions and missed updates of all keygroups; keys alone tell
  them apart. A missed id is any text, even one with separators in it.
 */
module NameKeys {
  import opened Fields

  /** Node ids, user names and method names are non-empty and contain no separator. */
  type Word = s: string | s != "" && NoSep(s) witness "w"

  datatype Entry =
    | NodeStatus(kg: Name, node: Word)
    | Status(kg: Name)
    | Mutable(kg: Name)
    | Expiry(kg: Name, node: Word)
    | Address(node: Word)
    | ExtAddress(node: Word)
    | Permission(user: Word, kg: Name, m: Word)
    | Failed(node: Word, kg: Name, id: string)

  function KeygroupPrefix(kg: Name): string {
    "kg" + SEP + kg + SEP
  }

  function NodePrefix(kg: Name): string {
    KeygroupPrefix(kg) + "node" + SEP
  }

  function StatusKey(kg: Name): string {
    KeygroupPrefix(kg) + "status"
  }

  function MutableKey(kg: Name): string {
    KeygroupPrefix(kg) + "mutable"
  }

  function ExpiryPrefix(kg: Name): string {
    KeygroupPrefix(kg) + "expiry" + SEP + "node" + SEP
  }

  function AddressKey(n: Word): string {
    "node" + SEP + n + SEP + "address"
  }

  function ExtAddressKey(n: Word): string {
    "node" + SEP + n + SEP + "extaddress"
  }

  function UserPrefix(u: Word, kg: Name): string {
    "user" + SEP + u + SEP + "kg" + SEP + kg + SEP + "method" + SEP
  }

  function FailedPrefix(n: Word): string {
    "failnode" + SEP + n + SEP
  }

  function FailedKgPrefix(n: Word, kg: Name): string {
    FailedPrefix(n) + "kg" + SEP + kg + SEP
  }

  function Key(e: Entry): string {
    match e
    case NodeStatus(kg, n) => NodePrefix(kg) + n
    case Status(kg) => StatusKey(kg)
    case Mutable(kg) => MutableKey(kg)
    case Expiry(kg, n) => ExpiryPrefix(kg) + n
    case Address(n) => AddressKey(n)
    case ExtAddress(n) => ExtAddressKey(n)
    case Permission(u, kg, m) => UserPrefix(u, kg) + m
    case Failed(n, kg, id) => FailedKgPrefix(n, kg) + id
  }

  function FieldsOf(e: Entry): (f: seq<string>)
    ensures f != []
  {
    match e
    case NodeStatus(kg, n) => ["kg", kg, "node", n]
    case Status(kg) => ["kg", kg, "status"]
    case Mutable(kg) => ["kg", kg, "mutable"]
    case Expiry(kg, n) => ["kg", kg, "expiry", "node", n]
    case Address(n) => ["node", n, "address"]
    case ExtAddress(n) => ["node", n, "extaddress"]
    case Permission(u, kg, m) => ["user", u, "kg", kg, "method", m]
    case Failed(n, kg, id) => ["failnode", n, "kg", kg] + Split(id)
  }

  lemma FieldsArePlain(e: Entry)
    ensures Plain(FieldsOf(e))
  {
    if e.Failed? { JoinSplit(e.id); }
    hide Split, Alnum;
    match e
    case Address(n) =>
    case ExtAddress(n) =>
    case _ => AlnumIsPlain(e.kg);
  }

  /** The printf formats are joins of the entry's fields. */
  lemma KeyIsJoin(e: Entry)
    ensures Key(e) == Join(FieldsOf(e))
  {
    hide Join, Split;
    match e
    case NodeStatus(kg, n) => Joined4("kg", kg, "node", n);
    case Status(kg) => Joined3("kg", kg, "status");
    case Mutable(kg) => Joined3("kg", kg, "mutable");
    case Expiry(kg, n) => Joined5("kg", kg, "expiry", "node", n);
    case Address(n) => Joined3("node", n, "address");
    case ExtAddress(n) => Joined3("node", n, "extaddress");
    case Permission(u, kg, m) => Joined6("user", u, "kg", kg, "method", m);
    case Failed(n, kg, id) =>
      JoinAppend(["failnode", n, "kg", kg], Split(id));
      Joined4("failnode", n, "kg", kg);
      JoinSplit(id);
  }

  lemma SplitKey(e: Entry)
    ensures Split(Key(e)) == FieldsOf(e)
  {
    KeyIsJoin(e);
    FieldsArePlain(e);
    hide Key, FieldsOf, Join, Split;
    SplitJoin(FieldsOf(e));
  }

  lemma FieldsAreDistinct(a: Entry, b: Entry)
    requires FieldsOf(a) == FieldsOf(b)
    ensures a == b
  {
    var f, g := FieldsOf(a), FieldsOf(b);
    assert f[0] == g[0] && |f| == |g|;
    assert "kg"[0] == 'k' && "node"[0] == 'n' && "user"[0] == 'u' && "failnode"[0] == 'f';
    if a.Failed? {
      JoinSplit(a.id);
      hide Split, Join;
      assert b.Failed?;
      assert f[4..] == Split(a.id) && g[4..] == Split(b.id);
      JoinSplit(b.id);
      assert f[1] == g[1] && f[3] == g[3];
    } else {
      hide Split;
      assert f[1] == g[1];
      assert f[2] == g[2];
      assert "status"[0] == 's' && "mutable"[0] == 'm' && "address"[0] == 'a' && "extaddress"[0] == 'e';
      if |f| == 4 { assert f[3] == g[3]; }
      if |f| == 5 { assert f[4] == g[4]; }
      if |f| == 6 { assert f[3] == g[3] && f[5] == g[5]; }
    }
  }

  /** No two entries share a key. */
  lemma KeysAreDistinct(a: Entry, b: Entry)
    ensures Key(a) == Key(b) <==> a == b
  {
    hide Split, Key, FieldsOf;
    SplitKey(a);
    SplitKey(b);
    if FieldsOf(a) == FieldsOf(b) { FieldsAreDistinct(a, b); }
  }

  lemma PrefixOfFields(f: seq<string>, e: Entry)
    requires f != [] && Plain(f)
    ensures Prefix(f) <= Key(e) <==> |f| < |FieldsOf(e)| && f <= FieldsOf(e)
  {
    KeyIsJoin(e);
    FieldsArePlain(e);
    hide FieldsOf, Key, Join, Prefix;
    PrefixSplit(f, FieldsOf(e));
  }

  /** Reading a keygroup's nodes meets that keygroup's node entries and nothing else. */
  lemma NodePrefixIsExact(kg: Name, e: Entry)
    ensures NodePrefix(kg) <= Key(e) <==> e.NodeStatus? && e.kg == kg
  {
    AlnumIsPlain(kg);
    Joined3("kg", kg, "node");
    PrefixOfFields(["kg", kg, "node"], e);
    hide Key, Split, Join;
    var f := FieldsOf(e);
    if |f| > 3 {
      assert "kg"[0] == 'k' && "failnode"[0] == 'f' && "user"[0] == 'u' && "expiry"[0] == 'e';
      assert ["kg", kg, "node"] <= f <==> f[0] == "kg" && f[1] == kg && f[2] == "node";
    }
  }

  lemma ExpiryPrefixIsExact(kg: Name, e: Entry)
    ensures ExpiryPrefix(kg) <= Key(e) <==> e.Expiry? && e.kg == kg
  {
    AlnumIsPlain(kg);
    Joined4("kg", kg, "expiry", "node");
    PrefixOfFields(["kg", kg, "expiry", "node"], e);
    hide Key, Split, Join;
    var f := FieldsOf(e);
    if |f| > 4 {
      assert "kg"[0] == 'k' && "failnode"[0] == 'f' && "user"[0] == 'u' && "expiry"[0] == 'e';
      assert ["kg", kg, "expiry", "node"] <= f <==> f[0] == "kg" && f[1] == kg && f[2] == "expiry" && f[3] == "node";
    }
  }

  /** Everything about a keygroup, and nothing about another, lies under its prefix. */
  lemma KeygroupPrefixIsExact(kg: Name, e: Entry)
    ensures KeygroupPrefix(kg) <= Key(e) <==> (e.NodeStatus? || e.Status? || e.Mutable? || e.Expiry?) && e.kg == kg
  {
    AlnumIsPlain(kg);
    Joined2("kg", kg);
    PrefixOfFields(["kg", kg], e);
    hide Key, Split, Join;
    var f := FieldsOf(e);
    assert "kg"[0] == 'k' && "failnode"[0] == 'f' && "user"[0] == 'u' && "node"[0] == 'n';
    assert ["kg", kg] <= f <==> f[0] == "kg" && f[1] == kg;
  }

  /** Reading a user's permissions on a keygroup meets those permissions and nothing else. */
  lemma UserPrefixIsExact(u: Word, kg: Name, e: Entry)
    ensures UserPrefix(u, kg) <= Key(e) <==> e.Permission? && e.user == u && e.kg == kg
  {
    AlnumIsPlain(kg);
    Joined5("user", u, "kg", kg, "method");
    PrefixOfFields(["user", u, "kg", kg, "method"], e);
    hide Key, Split, Join;
    var f := FieldsOf(e);
    if |f| > 5 {
      assert "failnode"[0] == 'f' && "user"[0] == 'u';
      assert ["user", u, "kg", kg, "method"] <= f
          <==> f[0] == "user" && f[1] == u && f[2] == "kg" && f[3] == kg && f[4] == "method";
    }
  }

  /** Reading what a node has missed meets that node's reports and nothing else. */
  lemma FailedPrefixIsExact(n: Word, e: Entry)
    ensures FailedPrefix(n) <= Key(e) <==> e.Failed? && e.node == n
  {
    Joined2("failnode", n);
    PrefixOfFields(["failnode", n], e);
    hide Key, Split, Join;
    var f := FieldsOf(e);
    assert "kg"[0] == 'k' && "failnode"[0] == 'f' && "user"[0] == 'u' && "node"[0] == 'n';
    assert ["failnode", n] <= f <==> f[0] == "failnode" && f[1] == n;
  }

  /** What the decoders read out of a key. */
  lemma DecodedFields(e: Entry)
    ensures e.NodeStatus? || e.Expiry? ==> LastField(Key(e)) == e.node
    ensures e.Permission? ==> |Split(Key(e))| == 6 && Split(Key(e))[5] == e.m
    ensures e.Failed? ==> |Split(Key(e))| >= 5 && Split(Key(e))[3] == e.kg && Split(Key(e))[4] == Head(e.id)
  {
    SplitKey(e);
    hide Key, Join;
    if e.Failed? {
      assert Split(e.id)[0] == Head(e.id);
      assert FieldsOf(e)[4] == Split(e.id)[0];
    }
  }

  /** Keys that are read one by one never end in the separator, and prefixes always do, so a
      cached value is never taken for a cached prefix. */
  lemma ExactKeysEndInText(e: Entry)
    ensures !e.Failed? ==> Key(e) != "" && Key(e)[|Key(e)| - 1] != '|'
  {
  }
}
