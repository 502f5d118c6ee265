/**
  Byte-wise lexicographic order, as the local store sorts its keys, and the sorted
  listing of a finite set of keys that its iterators walk over.
 */
module Order {
  import opened Fields

  predicate Leq(a: string, b: string) {
    a == "" || (b != "" && (a[0] < b[0] || (a[0] == b[0] && Leq(a[1..], b[1..]))))
  }

  predicate Less(a: string, b: string) {
    Leq(a, b) && a != b
  }

  lemma {:induction false} Reflexive(a: string)
    ensures Leq(a, a)
  {
    if a != "" { Reflexive(a[1..]); }
  }

  lemma {:induction false} Antisymmetric(a: string, b: string)
    requires Leq(a, b) && Leq(b, a)
    ensures a == b
  {
    if a != "" {
      Antisymmetric(a[1..], b[1..]);
      assert a == [a[0]] + a[1..] && b == [b[0]] + b[1..];
    }
  }

  lemma {:induction false} Transitive(a: string, b: string, c: string)
    requires Leq(a, b) && Leq(b, c)
    ensures Leq(a, c)
  {
    if a != "" && a[0] == b[0] && b[0] == c[0] { Transitive(a[1..], b[1..], c[1..]); }
  }

  lemma {:induction false} Total(a: string, b: string)
    ensures Leq(a, b) || Leq(b, a)
  {
    if a != "" && b != "" && a[0] == b[0] { Total(a[1..], b[1..]); }
  }

  /** Keys that share a prefix are ordered as their suffixes. */
  lemma {:induction false} PrefixOrder(p: string, a: string, b: string)
    ensures Leq(p + a, p + b) <==> Leq(a, b)
  {
    if p == "" {
      assert p + a == a && p + b == b;
    } else {
      assert (p + a)[1..] == p[1..] + a && (p + b)[1..] == p[1..] + b;
      PrefixOrder(p[1..], a, b);
    }
  }

  /** Keys that share a prefix are contiguous: whatever lies between two of them has it too. */
  lemma {:induction false} PrefixContiguous(p: string, a: string, b: string, c: string)
    requires p <= a && p <= c && Leq(a, b) && Leq(b, c)
    ensures p <= b
  {
    if p != "" {
      assert b[0] == p[0];
      PrefixContiguous(p[1..], a[1..], b[1..], c[1..]);
      assert p == [p[0]] + p[1..] && b == [b[0]] + b[1..];
    }
  }

  predicate IsLeast(m: string, keys: set<string>) {
    m in keys && forall k | k in keys :: Leq(m, k)
  }

  lemma {:induction false} LeastExists(keys: set<string>) returns (m: string)
    requires keys != {}
    ensures IsLeast(m, keys)
    decreases keys
  {
    m :| m in keys;
    Reflexive(m);
    if keys != {m} {
      var rest := LeastExists(keys - {m});
      Total(m, rest);
      if !Leq(m, rest) {
        m := rest;
      } else {
        forall k | k in keys ensures Leq(m, k) {
          if k != m { Transitive(m, rest, k); }
        }
      }
    }
  }

  lemma LeastInhabited(keys: set<string>)
    requires keys != {}
    ensures exists m :: m in keys && IsLeast(m, keys)
  {
    var _ := LeastExists(keys);
  }

  lemma LeastUnique(keys: set<string>)
    ensures forall m, n | m in keys && n in keys && IsLeast(m, keys) && IsLeast(n, keys) :: m == n
  {
    forall m, n | m in keys && n in keys && IsLeast(m, keys) && IsLeast(n, keys) ensures m == n {
      Antisymmetric(m, n);
    }
  }

  ghost predicate StrictlySorted(s: seq<string>) {
    forall i, j | 0 <= i < j < |s| :: Less(s[i], s[j])
  }

  /** The keys in ascending order. */
  function Sorted(keys: set<string>): (s: seq<string>)
    ensures |s| == |keys|
    ensures forall k :: k in keys <==> k in s
    decreases keys
  {
    if keys == {} then [] else
      LeastInhabited(keys);
      LeastUnique(keys);
      var m :| m in keys && IsLeast(m, keys);
      [m] + Sorted(keys - {m})
  }

  lemma {:induction false} SortedIsSorted(keys: set<string>)
    ensures StrictlySorted(Sorted(keys))
    decreases keys
  {
    if keys != {} {
      var s := Sorted(keys);
      var m := s[0];
      SortedIsSorted(keys - {m});
      forall i, j | 0 <= i < j < |s| ensures Less(s[i], s[j]) {
        assert s[j] in s[1..] && s[j] in keys - {m};
        if i > 0 { assert s[i] == Sorted(keys - {m})[i - 1] && s[j] == Sorted(keys - {m})[j - 1]; }
      }
    }
  }

  lemma SortedStep(s: seq<string>, keys: set<string>)
    requires s != [] && StrictlySorted(s) && forall k :: k in s <==> k in keys
    ensures StrictlySorted(s[1..]) && forall k :: k in s[1..] <==> k in keys - {s[0]}
    ensures IsLeast(s[0], keys)
  {
    Reflexive(s[0]);
    assert s[0] in s;
    forall k ensures k in s[1..] <==> k in keys - {s[0]} {
      if k in s[1..] {
        var j :| 0 <= j < |s| - 1 && s[1..][j] == k;
        assert Less(s[0], s[j + 1]);
        assert s[j + 1] in s;
      }
    }
  }

  lemma {:induction false} SortedUnique(s: seq<string>, keys: set<string>)
    requires StrictlySorted(s) && forall k :: k in s <==> k in keys
    ensures s == Sorted(keys)
    decreases keys
  {
    if s == [] {
      assert keys == {};
    } else {
      SortedStep(s, keys);
      LeastUnique(keys);
      SortedUnique(s[1..], keys - {s[0]});
      assert s == [s[0]] + s[1..];
    }
  }

  /** An iterator's Seek: the position of the first key that is not below `from`. */
  function Seek(keys: seq<string>, from: string): (i: nat)
    ensures i <= |keys|
    ensures forall j | 0 <= j < i :: !Leq(from, keys[j])
    ensures i < |keys| ==> Leq(from, keys[i])
  {
    if keys == [] || Leq(from, keys[0]) then 0 else 1 + Seek(keys[1..], from)
  }

  /** What follows `p` in the keys that start with it, from `from` on. */
  ghost function Suffixes(keys: set<string>, p: string, from: string): set<string> {
    set k | k in keys && p <= k && Leq(from, k[|p|..]) :: k[|p|..]
  }

  lemma SuffixesAre(keys: set<string>, p: string, from: string, x: string)
    ensures x in Suffixes(keys, p, from) <==> p + x in keys && Leq(from, x)
  {
    assert p <= p + x && (p + x)[|p|..] == x;
    if x in Suffixes(keys, p, from) {
      var k :| k in keys && p <= k && k[|p|..] == x;
      assert k == p + x;
    }
  }

  /** Does an iterator at position `lo` leave the keys with prefix `p` at position `hi`? */
  ghost predicate Window(keys: seq<string>, p: string, lo: nat, hi: nat) {
    && lo <= hi <= |keys|
    && (forall j | lo <= j < hi :: Starts(p, keys[j]))
    && (hi < |keys| ==> !Starts(p, keys[hi]))
  }

  lemma {:induction false} WindowExists(keys: seq<string>, p: string, lo: nat) returns (hi: nat)
    requires lo <= |keys|
    ensures Window(keys, p, lo, hi)
    decreases |keys| - lo
  {
    hi := lo;
    if lo < |keys| && Starts(p, keys[lo]) {
      hi := WindowExists(keys, p, lo + 1);
    }
  }

  /** What follows the prefix in each of the keys from `lo` to `hi`. */
  function After(p: string, keys: seq<string>, lo: nat, hi: nat): (xs: seq<string>)
    requires lo <= hi <= |keys| && forall j | lo <= j < hi :: Starts(p, keys[j])
    ensures |xs| == hi - lo
    ensures forall j | lo <= j < hi :: keys[j] == p + xs[j - lo]
    decreases hi - lo
  {
    if lo == hi then [] else
      assert Starts(p, keys[lo]);
      [keys[lo][|p|..]] + After(p, keys, lo + 1, hi)
  }

  /** An iterator that seeks `p + from` and runs until the prefix `p` ends meets exactly the
      keys that start with `p` and are not below `p + from`, in the order of their suffixes. */
  lemma {:induction false} WindowIsExact(all: set<string>, p: string, from: string, hi: nat)
    requires Window(Sorted(all), p, Seek(Sorted(all), p + from), hi)
    ensures After(p, Sorted(all), Seek(Sorted(all), p + from), hi) == Sorted(Suffixes(all, p, from))
  {
    var keys := Sorted(all);
    var lo := Seek(keys, p + from);
    SortedIsSorted(all);
    hide Sorted, Leq, Seek, Suffixes, After;
    var xs := After(p, keys, lo, hi);
    forall i, j | 0 <= i < j < |xs| ensures Less(xs[i], xs[j]) {
      assert Less(keys[lo + i], keys[lo + j]);
      PrefixOrder(p, xs[i], xs[j]);
    }
    forall x ensures x in xs <==> x in Suffixes(all, p, from) {
      SuffixesAre(all, p, from, x);
      if x in xs {
        var i :| 0 <= i < |xs| && xs[i] == x;
        MetIsAbove(keys, p, from, lo, lo + i, x);
      }
      if x in Suffixes(all, p, from) {
        var j :| 0 <= j < |keys| && keys[j] == p + x;
        AboveIsMet(keys, p, from, lo, hi, j, x);
        assert p + xs[j - lo] == p + x;
        SuffixInjective(p, xs[j - lo], x);
      }
    }
    SortedUnique(xs, Suffixes(all, p, from));
  }

  lemma SuffixInjective(p: string, a: string, b: string)
    requires p + a == p + b
    ensures a == b
  {
    assert (p + a)[|p|..] == a && (p + b)[|p|..] == b;
  }

  lemma MetIsAbove(keys: seq<string>, p: string, from: string, lo: nat, j: nat, x: string)
    requires StrictlySorted(keys) && lo <= j < |keys| && Leq(p + from, keys[lo]) && keys[j] == p + x
    ensures keys[j] in keys && Leq(from, x)
  {
    if j > lo {
      assert Less(keys[lo], keys[j]);
      Transitive(p + from, keys[lo], keys[j]);
    }
    PrefixOrder(p, from, x);
  }

  lemma AboveIsMet(keys: seq<string>, p: string, from: string, lo: nat, hi: nat, j: nat, x: string)
    requires StrictlySorted(keys) && Window(keys, p, lo, hi)
    requires forall i | 0 <= i < lo :: !Leq(p + from, keys[i])
    requires lo < |keys| ==> Leq(p + from, keys[lo])
    requires j < |keys| && keys[j] == p + x && Leq(from, x)
    ensures lo <= j < hi
  {
    hide Leq;
    PrefixOrder(p, from, x);
    if j >= hi {
      if hi > lo { assert Less(keys[lo], keys[hi]); Transitive(p + from, keys[lo], keys[hi]); }
      if j > hi { assert Less(keys[hi], keys[j]); } else { Reflexive(keys[hi]); }
      PrefixContiguous(p, p + from, keys[hi], p + x);
    }
  }
}
