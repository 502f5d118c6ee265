/**
  Keys of the local store and of the name service are strings of fields glued with `|`.
  This module gives the codec (`Join` and `Split`), and the two facts every key argument
  rests on: splitting undoes joining, and a joined key followed by the separator is a
  prefix of another joined key exactly when its fields are the first fields of the other.
 */
module Fields {
  const SEP := "|"

  predicate NoSep(s: string) {
    '|' !in s
  }

  predicate AlnumChar(c: char) {
    'a' <= c <= 'z' || 'A' <= c <= 'Z' || '0' <= c <= '9'
  }

  /** Is `p` a prefix of `k`? */
  predicate Starts(p: string, k: string) {
    p <= k
  }

  /** What the regular expression ^[a-zA-Z0-9]+$ accepts. */
  predicate Alnum(s: string) {
    s != "" && forall c | c in s :: AlnumChar(c)
  }

  lemma AlnumIsPlain(s: string)
    requires Alnum(s)
    ensures NoSep(s)
  {
  }

  /** The characters that names and ids may have, by their codes: digits, upper and lower case. */
  lemma NameCharsAre(c: char)
    ensures AlnumChar(c) <==> 48 <= c as int <= 57 || 65 <= c as int <= 90 || 97 <= c as int <= 122
    ensures !Alnum("") && (Alnum([c]) <==> AlnumChar(c)) && !AlnumChar('|')
  {
    assert [c][0] in [c];
  }

  /** Keygroup names are assumed to pass the name check. */
  type Name = s: string | Alnum(s) witness "k"

  function Join(fields: seq<string>): string
    requires fields != []
  {
    if |fields| == 1 then fields[0] else fields[0] + SEP + Join(fields[1..])
  }

  /** The text before the first separator. */
  function Head(s: string): (h: string)
    ensures h <= s && NoSep(h)
    ensures |h| < |s| ==> s[|h|] == '|'
    ensures NoSep(s) ==> h == s
  {
    if s == "" || s[0] == '|' then "" else [s[0]] + Head(s[1..])
  }

  /** strings.Split with the one-character separator. */
  function Split(s: string): (fields: seq<string>)
    ensures fields != []
    decreases |s|
  {
    var h := Head(s);
    if |h| == |s| then [s] else [h] + Split(s[|h| + 1..])
  }

  ghost predicate Plain(fields: seq<string>) {
    forall f | f in fields :: NoSep(f)
  }

  lemma {:induction false} HeadOf(h: string, rest: string)
    requires NoSep(h)
    ensures Head(h + SEP + rest) == h
  {
    if h != "" {
      assert (h + SEP + rest)[1..] == h[1..] + SEP + rest;
      HeadOf(h[1..], rest);
    }
  }

  lemma {:induction false} SplitJoin(fields: seq<string>)
    requires fields != [] && Plain(fields)
    ensures Split(Join(fields)) == fields
  {
    if |fields| == 1 {
      assert Head(fields[0]) == fields[0];
    } else {
      var s := Join(fields);
      HeadOf(fields[0], Join(fields[1..]));
      assert s[|fields[0]| + 1..] == Join(fields[1..]);
      SplitJoin(fields[1..]);
    }
  }

  lemma JoinCons(h: string, rest: seq<string>)
    requires rest != []
    ensures Join([h] + rest) == h + SEP + Join(rest)
  {
    assert ([h] + rest)[1..] == rest;
  }

  lemma {:induction false} JoinSplit(s: string)
    ensures Plain(Split(s)) && Join(Split(s)) == s
    decreases |s|
  {
    var h := Head(s);
    if |h| == |s| {
      assert h == s;
    } else {
      var tail := s[|h| + 1..];
      JoinSplit(tail);
      JoinCons(h, Split(tail));
      assert Split(s) == [h] + Split(tail);
      hide Head, Join, Split;
      assert s == h + SEP + tail;
    }
  }

  lemma {:induction false} JoinAppend(f: seq<string>, g: seq<string>)
    requires f != [] && g != []
    ensures Join(f + g) == Join(f) + SEP + Join(g)
  {
    if |f| == 1 {
      assert (f + g)[1..] == g;
    } else {
      assert (f + g)[1..] == f[1..] + g;
      JoinAppend(f[1..], g);
    }
  }

  /** The prefix of every key that has `fields` in front of at least one more field. */
  function Prefix(fields: seq<string>): string
    requires fields != []
  {
    Join(fields) + SEP
  }

  lemma PrefixOfKey(f: seq<string>, g: seq<string>)
    requires f != [] && |f| < |g| && f <= g
    ensures Join(g) == Prefix(f) + Join(g[|f|..])
  {
    assert f + g[|f|..] == g;
    JoinAppend(f, g[|f|..]);
  }

  /** Whatever follows a prefix, splitting gives the fields of the prefix first. */
  lemma SplitPrefixed(f: seq<string>, rest: string)
    requires f != [] && Plain(f)
    ensures Split(Prefix(f) + rest) == f + Split(rest)
  {
    hide Join, Split, Head;
    JoinSplit(rest);
    JoinAppend(f, Split(rest));
    SplitJoin(f + Split(rest));
  }

  lemma Rest(k: string, prefix: string) returns (rest: string)
    requires prefix <= k
    ensures k == prefix + rest
  {
    rest := k[|prefix|..];
  }

  lemma FieldsOfPrefixed(f: seq<string>, g: seq<string>)
    requires f != [] && g != [] && Plain(f) && Plain(g)
    requires Prefix(f) <= Join(g)
    ensures |f| < |g| && f <= g
  {
    hide Join, Split, Head, Prefix;
    var s := Rest(Join(g), Prefix(f));
    SplitPrefixed(f, s);
    SplitJoin(g);
  }

  lemma PrefixSplit(f: seq<string>, g: seq<string>)
    requires f != [] && g != [] && Plain(f) && Plain(g)
    ensures Prefix(f) <= Join(g) <==> |f| < |g| && f <= g
  {
    if |f| < |g| && f <= g { PrefixOfKey(f, g); }
    if Prefix(f) <= Join(g) { FieldsOfPrefixed(f, g); }
  }

  /** Joining field by field from the left, as the key formats are written. */
  lemma JoinLast(f: seq<string>)
    requires |f| > 1
    ensures Join(f) == Join(f[..|f| - 1]) + SEP + f[|f| - 1]
  {
    assert f == f[..|f| - 1] + [f[|f| - 1]];
    JoinAppend(f[..|f| - 1], [f[|f| - 1]]);
  }

  lemma Joined2(a: string, b: string)
    ensures Join([a, b]) == a + SEP + b
  {
    JoinLast([a, b]);
    assert [a, b][..1] == [a];
  }

  lemma Joined3(a: string, b: string, c: string)
    ensures Join([a, b, c]) == a + SEP + b + SEP + c
  {
    JoinLast([a, b, c]);
    assert [a, b, c][..2] == [a, b];
    Joined2(a, b);
  }

  lemma Joined4(a: string, b: string, c: string, d: string)
    ensures Join([a, b, c, d]) == a + SEP + b + SEP + c + SEP + d
  {
    JoinLast([a, b, c, d]);
    assert [a, b, c, d][..3] == [a, b, c];
    Joined3(a, b, c);
  }

  lemma Joined5(a: string, b: string, c: string, d: string, e: string)
    ensures Join([a, b, c, d, e]) == a + SEP + b + SEP + c + SEP + d + SEP + e
  {
    JoinLast([a, b, c, d, e]);
    assert [a, b, c, d, e][..4] == [a, b, c, d];
    Joined4(a, b, c, d);
  }

  lemma Joined6(a: string, b: string, c: string, d: string, e: string, f: string)
    ensures Join([a, b, c, d, e, f]) == a + SEP + b + SEP + c + SEP + d + SEP + e + SEP + f
  {
    JoinLast([a, b, c, d, e, f]);
    assert [a, b, c, d, e, f][..5] == [a, b, c, d, e];
    Joined5(a, b, c, d, e);
  }

  /** strings.Split(s, "|")[len - 1], the last field. */
  function LastField(s: string): string {
    var fields := Split(s);
    fields[|fields| - 1]
  }
}
