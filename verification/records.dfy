/**
  What the name service records of one keygroup. The flat keys of `NameKeys` refine this
  record, and the replication protocol of `Protocol` is stated over it.
 */
module Records {
  /** `ok` are the nodes with status "ok"; expiries outlive membership. */
  datatype Record = Record(created: bool, mutable: bool, ok: set<string>, expiry: map<string, int>)

  const NO_RECORD := Record(false, false, {}, map[])

  /** A new keygroup forgets the members of a deleted one with the same name. */
  function Founded(r: Record, self: string, mutable: bool, expiry: int): Record {
    Record(true, mutable, {self}, r.expiry[self := expiry])
  }

  /** Deletion only changes the status. */
  function Retired(r: Record): Record {
    r.(created := false)
  }

  function WithMember(r: Record, n: string, expiry: int): Record {
    r.(ok := r.ok + {n}, expiry := r.expiry[n := expiry])
  }

  function WithoutMember(r: Record, n: string): Record {
    r.(ok := r.ok - {n})
  }

  function ExpiryOf(r: Record, n: string): int {
    if n in r.expiry then r.expiry[n] else 0
  }

  /** GetKeygroupMembers: the members with their expiries. */
  function Members(r: Record): map<string, int> {
    map n | n in r.ok :: ExpiryOf(r, n)
  }

  /** GetKeygroupMembers without the asking node. */
  function Others(r: Record, self: string): map<string, int> {
    map n | n in r.ok && n != self :: ExpiryOf(r, n)
  }
}
