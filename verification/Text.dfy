/** Strings as the source uses them: splitting and joining at a separator, suffixes, whitespace,
    and the order in which `slices.Sort` puts the owners. */
module Text {

  predicate HasSuffix(s: string, suffix: string) {
    |suffix| <= |s| && s[|s| - |suffix|..] == suffix
  }

  /** The characters of the regular expression class `\s`. */
  predicate IsSpace(c: char) {
    c == ' ' || c == '\t' || c == '\n' || c == '\r' || c == '\U{000C}'
  }

  predicate AllSpace(s: string) {
    forall i | 0 <= i < |s| :: IsSpace(s[i])
  }

  predicate NoSpace(s: string) {
    forall i | 0 <= i < |s| :: !IsSpace(s[i])
  }

  function TrimLeft(s: string): string {
    if s != "" && IsSpace(s[0]) then TrimLeft(s[1..]) else s
  }

  lemma {:induction false} TrimLeftParts(s: string) returns (space: string)
    ensures s == space + TrimLeft(s) && AllSpace(space)
    ensures TrimLeft(s) == "" || !IsSpace(TrimLeft(s)[0])
  {
    space := "";
    if s != "" && IsSpace(s[0]) {
      hide AllSpace, IsSpace;
      var more := TrimLeftParts(s[1..]);
      space := [s[0]] + more;
      OneMoreSpace(s[0], more);
      assert s[1..] == more + TrimLeft(s);
    }
  }

  lemma OneMoreSpace(c: char, space: string)
    requires IsSpace(c) && AllSpace(space)
    ensures AllSpace([c] + space)
  {
    hide IsSpace;
  }

  /** Leading whitespace is cut off and nothing else. */
  lemma {:induction false} TrimLeftOf(space: string, s: string)
    requires AllSpace(space)
    requires s == "" || !IsSpace(s[0])
    ensures TrimLeft(space + s) == s
  {
    if space == "" {
      assert space + s == s;
    } else {
      assert (space + s)[1..] == space[1..] + s;
      TrimLeftOf(space[1..], s);
    }
  }

  /* ---- strings.Split and strings.Join ---- */

  function Split(s: string, sep: char): (parts: seq<string>)
    ensures |parts| >= 1
    ensures forall i | 0 <= i < |parts| :: sep !in parts[i]
  {
    if s == "" then [""]
    else
      var parts := Split(s[1..], sep);
      if s[0] == sep then [""] + parts else [[s[0]] + parts[0]] + parts[1..]
  }

  function Join(parts: seq<string>, sep: char): string {
    if |parts| == 0 then ""
    else if |parts| == 1 then parts[0]
    else parts[0] + [sep] + Join(parts[1..], sep)
  }

  lemma {:induction false} SplitHead(a: string, rest: string, sep: char)
    requires sep !in a
    ensures Split(a, sep) == [a]
    ensures Split(a + [sep] + rest, sep) == [a] + Split(rest, sep)
  {
    if a == "" {
      assert (a + [sep] + rest)[1..] == rest;
    } else {
      SplitHead(a[1..], rest, sep);
      assert (a + [sep] + rest)[1..] == a[1..] + [sep] + rest;
      assert [a[0]] + a[1..] == a;
    }
  }

  /** The first part of a split, and what is left behind the first separator. */
  lemma {:induction false} SplitFirst(s: string, sep: char)
    ensures var a := Split(s, sep)[0];
            && a <= s
            && (s == a ==> Split(s, sep) == [a])
            && (s != a ==> |a| < |s| && s[|a|] == sep && s == a + [sep] + s[|a| + 1..]
                           && Split(s, sep) == [a] + Split(s[|a| + 1..], sep))
  {
    if s != "" && s[0] != sep {
      SplitFirst(s[1..], sep);
      var b := Split(s[1..], sep)[0];
      assert [s[0]] + s[1..] == s;
      if s[1..] != b {
        assert s[1..][|b| + 1..] == s[|b| + 2..];
      }
    } else if s != "" {
      assert s[1..] == s[|""| + 1..];
    }
  }

  /** Splitting undoes joining. */
  lemma {:induction false} SplitJoin(parts: seq<string>, sep: char)
    requires |parts| > 0
    requires forall i | 0 <= i < |parts| :: sep !in parts[i]
    ensures Split(Join(parts, sep), sep) == parts
  {
    if |parts| == 1 {
      SplitHead(parts[0], "", sep);
    } else {
      SplitJoin(parts[1..], sep);
      SplitHead(parts[0], Join(parts[1..], sep), sep);
    }
  }

  /* ---- the order of the sorted owners ---- */

  /** Lexicographic order, as Go compares strings. */
  predicate AtMost(a: string, b: string) {
    a == "" || (b != "" && (a[0] < b[0] || (a[0] == b[0] && AtMost(a[1..], b[1..]))))
  }

  predicate Before(a: string, b: string) {
    a != b && AtMost(a, b)
  }

  /** `a` is a proper prefix of `b`, or it has the smaller character where they first differ. */
  ghost predicate Precedes(a: string, b: string) {
    a < b || exists i :: 0 <= i < |a| && i < |b| && a[..i] == b[..i] && a[i] < b[i]
  }

  lemma {:induction false} BeforeIffPrecedes(a: string, b: string)
    ensures Before(a, b) <==> Precedes(a, b)
  {
    hide Precedes;
    if a == "" || b == "" {
      PrecedesEmpty(a, b);
    } else if a[0] == b[0] {
      BeforeIffPrecedes(a[1..], b[1..]);
      PrecedesBehind(a[0], a[1..], b[1..]);
      assert a == [a[0]] + a[1..] && b == [b[0]] + b[1..];
    } else {
      DifferentHeads(a, b);
    }
  }

  lemma PrecedesEmpty(a: string, b: string)
    requires a == "" || b == ""
    ensures Precedes(a, b) <==> a == "" && b != ""
  {
  }

  lemma DifferentHeads(a: string, b: string)
    requires a != "" && b != "" && a[0] != b[0]
    ensures Precedes(a, b) <==> a[0] < b[0]
  {
    forall i | 0 < i < |a| && i < |b| ensures a[..i] != b[..i] {
      assert a[..i][0] == a[0] && b[..i][0] == b[0];
    }
    assert a[..0] == b[..0];
  }

  lemma PrecedesBehind(c: char, a: string, b: string)
    ensures Precedes([c] + a, [c] + b) <==> Precedes(a, b)
  {
    var ca, cb := [c] + a, [c] + b;
    assert ca[1..] == a && cb[1..] == b;
    if i :| 0 <= i < |a| && i < |b| && a[..i] == b[..i] && a[i] < b[i] {
      assert ca[..i + 1] == [c] + a[..i] && cb[..i + 1] == [c] + b[..i];
      assert ca[i + 1] < cb[i + 1];
    }
    if i :| 0 <= i < |ca| && i < |cb| && ca[..i] == cb[..i] && ca[i] < cb[i] {
      assert a[..i - 1] == ca[..i][1..] && b[..i - 1] == cb[..i][1..];
      assert a[i - 1] < b[i - 1];
    }
  }

  lemma {:induction false} AtMostTotal(a: string, b: string)
    ensures AtMost(a, b) || AtMost(b, a)
    ensures AtMost(a, b) && AtMost(b, a) ==> a == b
  {
    if a != "" && b != "" {
      AtMostTotal(a[1..], b[1..]);
      assert a == [a[0]] + a[1..] && b == [b[0]] + b[1..];
    }
  }

  lemma {:induction false} AtMostTransitive(a: string, b: string, c: string)
    requires AtMost(a, b) && AtMost(b, c)
    ensures AtMost(a, c)
  {
    if a != "" && a[0] == b[0] && b[0] == c[0] {
      AtMostTransitive(a[1..], b[1..], c[1..]);
    }
  }

  ghost predicate Ascending(keys: seq<string>) {
    forall i, j | 0 <= i < j < |keys| :: Before(keys[i], keys[j])
  }

  /** `keys` lists the members of `s` in ascending order. */
  ghost predicate SortedListing(keys: seq<string>, s: set<string>) {
    Ascending(keys) && (forall k :: k in keys <==> k in s)
  }

  /** There is only one ascending listing of a set of strings. */
  lemma {:induction false} SortedListingUnique(p: seq<string>, q: seq<string>, s: set<string>)
    requires SortedListing(p, s) && SortedListing(q, s)
    ensures p == q
  {
    EmptyListing(p, s);
    EmptyListing(q, s);
    if s != {} {
      SortedHead(p, s, q[0]);
      SortedHead(q, s, p[0]);
      AtMostTotal(p[0], q[0]);
      SortedTail(p, s);
      SortedTail(q, s);
      SortedListingUnique(p[1..], q[1..], s - {p[0]});
      assert p == [p[0]] + p[1..] && q == [q[0]] + q[1..];
    }
  }

  lemma EmptyListing(p: seq<string>, s: set<string>)
    requires SortedListing(p, s)
    ensures p == [] <==> s == {}
  {
    if p != [] {
      assert p[0] in p;
    }
    if s != {} {
      var k :| k in s;
      assert k in p;
    }
  }

  lemma SortedHead(p: seq<string>, s: set<string>, k: string)
    requires SortedListing(p, s) && k in s
    ensures p != [] && AtMost(p[0], k)
  {
    assert k in p;
    var i :| 0 <= i < |p| && p[i] == k;
    AtMostTotal(k, k);
    if i > 0 { assert Before(p[0], p[i]); }
  }

  lemma SortedTail(p: seq<string>, s: set<string>)
    requires SortedListing(p, s) && p != []
    ensures p[0] in s && SortedListing(p[1..], s - {p[0]})
  {
    assert p[0] in p;
    forall k ensures k in p[1..] <==> k in s - {p[0]} {
      if k in p[1..] {
        var i :| 1 <= i < |p| && p[i] == k;
        assert Before(p[0], p[i]);
      }
    }
  }

  /** Puts `k` behind all smaller keys of an ascending sequence. */
  function Insert(k: string, keys: seq<string>): (r: seq<string>)
    ensures multiset(r) == multiset(keys) + multiset{k}
  {
    if keys == [] || AtMost(k, keys[0]) then [k] + keys
    else
      assert keys == [keys[0]] + keys[1..];
      [keys[0]] + Insert(k, keys[1..])
  }

  function Sort(keys: seq<string>): (r: seq<string>)
    ensures multiset(r) == multiset(keys)
  {
    if keys == [] then []
    else
      assert keys == [keys[0]] + keys[1..];
      Insert(keys[0], Sort(keys[1..]))
  }

  lemma SameMembers(p: seq<string>, q: seq<string>, k: string)
    requires multiset(p) == multiset(q)
    ensures k in p <==> k in q
  {
    assert k in p <==> k in multiset(p);
    assert k in q <==> k in multiset(q);
  }

  lemma {:induction false} InsertAscending(k: string, keys: seq<string>)
    requires Ascending(keys) && k !in keys
    ensures Ascending(Insert(k, keys))
  {
    if keys != [] && !AtMost(k, keys[0]) {
      InsertAscending(k, keys[1..]);
      var tail := Insert(k, keys[1..]);
      AtMostTotal(k, keys[0]);
      forall j | 0 <= j < |tail| ensures Before(keys[0], tail[j]) {
        SameMembers(tail, keys[1..] + [k], tail[j]);
      }
    } else if keys != [] {
      forall j | 0 <= j < |keys| ensures Before(k, keys[j]) {
        if j > 0 {
          assert Before(keys[0], keys[j]);
          AtMostTransitive(k, keys[0], keys[j]);
        }
      }
    }
  }

  ghost predicate Distinct(keys: seq<string>) {
    forall i, j | 0 <= i < j < |keys| :: keys[i] != keys[j]
  }

  lemma {:induction false} SortAscending(keys: seq<string>)
    requires Distinct(keys)
    ensures Ascending(Sort(keys))
  {
    if keys != [] {
      SortAscending(keys[1..]);
      SameMembers(Sort(keys[1..]), keys[1..], keys[0]);
      InsertAscending(keys[0], Sort(keys[1..]));
    }
  }

  /** However the keys are enumerated, sorting them gives the one ascending listing. */
  lemma SortGivesListing(keys: seq<string>, s: set<string>)
    requires Distinct(keys) && (forall k :: k in keys <==> k in s)
    ensures SortedListing(Sort(keys), s)
  {
    SortAscending(keys);
    forall k ensures k in Sort(keys) <==> k in s {
      SameMembers(Sort(keys), keys, k);
    }
  }

  lemma ListingExists(s: set<string>)
    ensures exists keys :: SortedListing(keys, s)
  {
    var keys := EnumerationOf(s);
    SortGivesListing(keys, s);
  }

  lemma {:induction false} EnumerationOf(s: set<string>) returns (keys: seq<string>)
    ensures Distinct(keys) && (forall k :: k in keys <==> k in s)
  {
    if s == {} {
      keys := [];
    } else {
      var k :| k in s;
      var rest := EnumerationOf(s - {k});
      keys := [k] + rest;
    }
  }

  /** The ascending listing of `s`. */
  ghost function SortedKeys(s: set<string>): (keys: seq<string>)
    ensures SortedListing(keys, s)
  {
    ListingExists(s);
    var keys :| SortedListing(keys, s);
    keys
  }
}
