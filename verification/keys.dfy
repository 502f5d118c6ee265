/**
  The one flat key space of a node's database: items, keygroup markers, triggers and
  append counters, told apart by their keys alone.
 */
module Keys {
  import opened Fields
  import opened Numerals

  /** What a key stands for. */
  datatype Kind = Item(kg: string, id: string) | Marker(kg: string) | Trigger(kg: string,
      tid: string) | Counter(kg: string)

  /** A database value: text, or the eight bytes of a counter's lease. */
  datatype Value = Text(text: string) | Lease(upTo: nat)

  type Db = map<string, Value>

  function ItemPrefix(kg: string): string {
    kg + SEP
  }

  function TriggerPrefix(kg: string): string {
    TriggerKey(kg, "")
  }

  function ItemKey(kg: string, id: string): string {
    kg + SEP + id
  }

  function MarkerKey(kg: string): string {
    SEP + "fred" + SEP + "keygroup" + SEP + kg
  }

  function TriggerKey(kg: string, tid: string): string {
    SEP + "fred" + SEP + "triggers" + SEP + kg + SEP + tid
  }

  function CounterKey(kg: string): string {
    SEP + "fred" + SEP + "rolling" + SEP + kg
  }

  function Encode(kind: Kind): string {
    match kind
    case Item(kg, id) => ItemKey(kg, id)
    case Marker(kg) => MarkerKey(kg)
    case Trigger(kg, tid) => TriggerKey(kg, tid)
    case Counter(kg) => CounterKey(kg)
  }

  /** The keygroup and the id of an item key. */
  function GetKey(key: string): (string, string) {
    var s := Split(key);
    (s[0], if |s| == 2 then s[1] else "")
  }

  /** The keygroup and the id of a trigger key. */
  function GetTriggerConfigKey(key: string): (string, string) {
    var s := Split(key);
    if |s| == 5 then (s[3], s[4]) else ("", "")
  }

  function FieldsOf(kind: Kind): (f: seq<string>)
    ensures f != []
  {
    match kind
    case Item(kg, id) => [kg, id]
    case Marker(kg) => ["", "fred", "keygroup", kg]
    case Trigger(kg, tid) => ["", "fred", "triggers", kg, tid]
    case Counter(kg) => ["", "fred", "rolling", kg]
  }

  /** Names and ids passed the alphanumeric check; a trigger id is any text without `|`. */
  predicate Sound(kind: Kind) {
    && Alnum(kind.kg)
    && (kind.Item? ==> Alnum(kind.id))
    && (kind.Trigger? ==> NoSep(kind.tid))
  }

  lemma FieldsArePlain(kind: Kind)
    requires Sound(kind)
    ensures Plain(FieldsOf(kind))
  {
  }

  lemma EncodeIsJoin(kind: Kind)
    ensures Encode(kind) == Join(FieldsOf(kind))
  {
    hide Join;
    match kind
    case Item(kg, id) => Joined2(kg, id);
    case Marker(kg) => Joined4("", "fred", "keygroup", kg);
    case Counter(kg) => Joined4("", "fred", "rolling", kg);
    case Trigger(kg, tid) => Joined5("", "fred", "triggers", kg, tid);
  }

  lemma TriggerFields(kg: string)
    ensures Prefix(["", "fred", "triggers", kg]) == TriggerPrefix(kg)
  {
    hide Join;
    Joined4("", "fred", "triggers", kg);
  }

  /** Reads the kind of a key back from its fields. */
  function KindOf(key: string): Option<Kind> {
    KindOfFields(Split(key))
  }

  function KindOfFields(s: seq<string>): Option<Kind> {
    if |s| == 2 then Some(Item(s[0], s[1]))
    else if |s| == 4 && s[2] == "keygroup" then Some(Marker(s[3]))
    else if |s| == 4 && s[2] == "rolling" then Some(Counter(s[3]))
    else if |s| == 5 then Some(Trigger(s[3], s[4]))
    else None
  }

  lemma SplitEncode(kind: Kind)
    requires Sound(kind)
    ensures Split(Encode(kind)) == FieldsOf(kind)
  {
    hide Join, Split, Encode, FieldsOf, Sound;
    EncodeIsJoin(kind);
    FieldsArePlain(kind);
    SplitJoin(FieldsOf(kind));
  }

  lemma FieldsTellKind(kind: Kind)
    ensures KindOfFields(FieldsOf(kind)) == Some(kind)
  {
    assert "keygroup"[0] == 'k' && "rolling"[0] == 'r';
  }

  lemma KindOfEncode(kind: Kind)
    requires Sound(kind)
    ensures KindOf(Encode(kind)) == Some(kind)
    ensures Split(Encode(kind)) == FieldsOf(kind)
  {
    hide Split, Encode, Sound, FieldsOf, KindOfFields;
    SplitEncode(kind);
    FieldsTellKind(kind);
  }

  /** No two entries of the flat key space share a key. */
  lemma KeysAreDistinct(a: Kind, b: Kind)
    requires Sound(a) && Sound(b)
    ensures Encode(a) == Encode(b) <==> a == b
  {
    KindOfEncode(a);
    KindOfEncode(b);
  }

  /** A scan of a keygroup's items meets that keygroup's items and nothing else. */
  lemma ItemPrefixIsExact(kg: string, kind: Kind)
    requires Alnum(kg) && Sound(kind)
    ensures ItemPrefix(kg) <= Encode(kind) <==> kind.Item? && kind.kg == kg
  {
    AlnumIsPlain(kg);
    EncodeIsJoin(kind);
    FieldsArePlain(kind);
    PrefixSplit([kg], FieldsOf(kind));
    assert Prefix([kg]) == ItemPrefix(kg);
    assert kg != "";
    assert [kg] <= FieldsOf(kind) <==> FieldsOf(kind)[0] == kg;
  }

  /** A scan of a keygroup's triggers meets that keygroup's triggers and nothing else. */
  lemma TriggerPrefixIsExact(kg: string, kind: Kind)
    requires Alnum(kg) && Sound(kind)
    ensures TriggerPrefix(kg) <= Encode(kind) <==> kind.Trigger? && kind.kg == kg
  {
    AlnumIsPlain(kg);
    EncodeIsJoin(kind);
    FieldsArePlain(kind);
    var f := ["", "fred", "triggers", kg];
    TriggerFields(kg);
    PrefixSplit(f, FieldsOf(kind));
    if |FieldsOf(kind)| > 4 {
      assert f <= FieldsOf(kind) <==> FieldsOf(kind)[3] == kg;
    }
  }

  /** The printed forms of the keys. */
  lemma KeysRead(kg: string, id: string)
    ensures ItemKey(kg, id) == kg + "|" + id && MarkerKey(kg) == "|fred|keygroup|" + kg
    ensures TriggerKey(kg, id) == "|fred|triggers|" + kg + "|" + id && CounterKey(kg) == "|fred|rolling|" + kg
  {
    assert SEP + "fred" + SEP + "keygroup" + SEP == "|fred|keygroup|";
    assert SEP + "fred" + SEP + "triggers" + SEP == "|fred|triggers|";
    assert SEP + "fred" + SEP + "rolling" + SEP == "|fred|rolling|";
  }
}
