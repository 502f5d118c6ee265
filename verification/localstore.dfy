/**
  What one node stores of one keygroup, and the single-item changes that travel between
  nodes. The flat database of `Badger` refines this record, and the replication protocol
  of `Protocol` is stated over it.
 */
module LocalStore {
  import opened Fields
  import opened Numerals

  /** `next` is the id that the keygroup's counter hands out next; it outlives deletion. */
  datatype Local = Local(present: bool, items: map<string, string>, triggers: map<string, string>, next: nat)

  const ABSENT := Local(false, map[], map[], 0)

  /** An update, an append relayed with the id its coordinator chose, or a deletion. */
  datatype Change = Put(id: string, val: string) | Append(id: string, val: string) | Remove(id: string)

  /** The checks of storeService.update and storeService.delete on the item alone. */
  predicate Acceptable(c: Change) {
    Alnum(c.id) && (c.Append? ==> Atoi(c.id).Some?)
  }

  function AppendKey(c: Change): (k: nat)
    requires c.Append? && Acceptable(c)
  {
    AlnumIsUnsigned(c.id);
    Atoi(c.id).value
  }

  /** The counter after it was drawn until it handed out a number of at least `key`. */
  function CatchUp(next: nat, key: nat): nat {
    if next <= key then key + 1 else next + 1
  }

  function Apply(l: Local, c: Change): Local
    requires Acceptable(c)
  {
    match c
    case Put(id, val) => l.(items := l.items[id := val])
    case Append(id, val) => l.(items := l.items[id := val], next := CatchUp(l.next, AppendKey(c)))
    case Remove(id) => l.(items := l.items - {id})
  }

  /** A change that arrives at a node: it takes effect if it is acceptable and the keygroup is here. */
  function Write(l: Local, c: Change): Local {
    if l.present && Acceptable(c) then Apply(l, c) else l
  }

  function Opened(l: Local): Local {
    l.(present := true)
  }

  /** Deletion drops marker, items and triggers, and keeps the counter. */
  function Dropped(l: Local): Local {
    Local(false, map[], map[], l.next)
  }

  /** The id and the record after an append that starts at this node. */
  function AppendNew(l: Local, val: string): Local {
    l.(items := l.items[Format(l.next) := val], next := l.next + 1)
  }

  lemma AppendNewIsAppend(l: Local, val: string)
    ensures Acceptable(Append(Format(l.next), val))
    ensures AppendNew(l, val) == Apply(l, Append(Format(l.next), val))
  {
    FormatIsAlnum(l.next);
  }

  function Copy(mutable: bool, id: string, val: string): Change {
    if mutable then Put(id, val) else Append(id, val)
  }

  /** Sending the items named in `order`, one after the other, to a node holding `l`. */
  function Load(l: Local, items: map<string, string>, order: seq<string>, mutable: bool): Local
    requires forall id | id in order :: id in items && Acceptable(Copy(mutable, id, items[id]))
    decreases |order|
  {
    if order == [] then l
    else Load(Apply(l, Copy(mutable, order[0], items[order[0]])), items, order[1..], mutable)
  }

  /** The items among those named in `order`. */
  function Picked(items: map<string, string>, order: seq<string>): map<string, string> {
    map id | id in order && id in items :: items[id]
  }

  lemma PickedCons(base: map<string, string>, items: map<string, string>, order: seq<string>)
    requires order != [] && forall id | id in order :: id in items
    ensures base[order[0] := items[order[0]]] + Picked(items, order[1..]) == base + Picked(items, order)
  {
  }

  lemma {:induction false} LoadItems(l: Local, items: map<string, string>, order: seq<string>, mutable: bool)
    requires forall id | id in order :: id in items && Acceptable(Copy(mutable, id, items[id]))
    ensures var m := Load(l, items, order, mutable);
      && m == l.(items := l.items + Picked(items, order), next := m.next)
      && (mutable ==> m.next == l.next)
    decreases |order|
  {
    if order == [] {
      assert l.items + Picked(items, order) == l.items;
    } else {
      LoadItems(Apply(l, Copy(mutable, order[0], items[order[0]])), items, order[1..], mutable);
      PickedCons(l.items, items, order);
    }
  }

  lemma {:induction false} LoadCounter(l: Local, items: map<string, string>, order: seq<string>)
    requires forall id | id in order :: id in items && Acceptable(Append(id, items[id]))
    ensures var m := Load(l, items, order, false);
      && m.next >= l.next + |order|
      && forall id | id in order :: m.next > AppendKey(Append(id, items[id]))
    decreases |order|
  {
    if order != [] {
      LoadCounter(Apply(l, Append(order[0], items[order[0]])), items, order[1..]);
    }
  }

  /** No key of the log exceeds `bound`. */
  ghost predicate KeysUpTo(items: map<string, string>, order: seq<string>, bound: nat)
    requires forall id | id in order :: id in items && Acceptable(Append(id, items[id]))
  {
    forall id | id in order :: AppendKey(Append(id, items[id])) <= bound
  }

  lemma {:induction false} LoadUpperBound(l: Local, items: map<string, string>, order: seq<string>, bound: nat)
    requires forall id | id in order :: id in items && Acceptable(Append(id, items[id]))
    requires KeysUpTo(items, order, bound)
    ensures Load(l, items, order, false).next <= (if l.next <= bound then bound else l.next) + |order|
    decreases |order|
  {
    if order != [] {
      LoadUpperBound(Apply(l, Append(order[0], items[order[0]])), items, order[1..], bound);
    }
  }

  /** Replaying a log of k ids with maximum `top` into a node whose counter is at 0 leaves
      the next id between top + 1 and top + k, in whatever order the ids arrive. */
  lemma CatchUpBound(l: Local, items: map<string, string>, order: seq<string>, top: nat)
    requires forall id | id in order :: id in items && Acceptable(Append(id, items[id]))
    requires l.next == 0 && KeysUpTo(items, order, top)
    requires exists id | id in order :: AppendKey(Append(id, items[id])) == top
    ensures top + 1 <= Load(l, items, order, false).next <= top + |order|
  {
    LoadCounter(l, items, order);
    LoadUpperBound(l, items, order, top);
  }
}
