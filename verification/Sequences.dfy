/** Facts about sequences that several modules share: reassociating a concatenation, splitting a
    text at a separator and joining it again, and listing a set of numbers in ascending order, as
    an ordered map lists its keys. */
module Sequences {
  lemma Regroup<T>(a: seq<T>, b: seq<T>, c: seq<T>)
    ensures a + (b + c) == a + b + c
  {
  }

  /** `split(sep)`: never empty, and no part holds the separator. */
  function Split(s: string, sep: char): (parts: seq<string>)
    ensures parts != []
    ensures forall k :: 0 <= k < |parts| ==> sep !in parts[k]
    decreases |s|
  {
    if s == [] then [[]]
    else if s[0] == sep then [[]] + Split(s[1..], sep)
    else
      var rest := Split(s[1..], sep);
      [[s[0]] + rest[0]] + rest[1..]
  }

  lemma {:induction false} SplitHead(a: string, x: string, sep: char)
    requires sep !in a
    ensures x == [] ==> Split(a + x, sep) == [a]
    ensures x != [] && x[0] == sep ==> Split(a + x, sep) == [a] + Split(x[1..], sep)
    decreases |a|
  {
    var w := a + x;
    if a == [] {
      assert w == x;
    } else {
      assert w[1..] == a[1..] + x && w[0] == a[0];
      SplitHead(a[1..], x, sep);
      assert a == [a[0]] + a[1..];
    }
  }

  /** `join(sep)` */
  function Join(parts: seq<string>, sep: char): string {
    if parts == [] then ""
    else if |parts| == 1 then parts[0]
    else parts[0] + [sep] + Join(parts[1..], sep)
  }

  /** Parts without the separator are found again. */
  lemma {:induction false} SplitJoin(parts: seq<string>, sep: char)
    requires parts != [] && forall k :: 0 <= k < |parts| ==> sep !in parts[k]
    ensures Split(Join(parts, sep), sep) == parts
    decreases |parts|
  {
    if |parts| == 1 {
      SplitHead(parts[0], [], sep);
      assert parts[0] + [] == parts[0] && parts == [parts[0]];
    } else {
      var rest := parts[1..];
      SplitJoin(rest, sep);
      var x := [sep] + Join(rest, sep);
      SplitHead(parts[0], x, sep);
      assert x[1..] == Join(rest, sep);
      assert parts[0] + x == Join(parts, sep);
      assert parts == [parts[0]] + rest;
    }
  }

  predicate Least(s: set<nat>, k: nat) { k in s && forall l :: l in s ==> k <= l }

  lemma LeastExists(s: set<nat>, bound: nat)
    requires exists k :: k in s && k <= bound
    ensures exists k :: Least(s, k)
    decreases bound
  {
    if exists k :: k in s && k < bound {
      LeastExists(s, bound - 1);
    } else {
      assert Least(s, bound);
    }
  }

  lemma LeastOf(s: set<nat>)
    requires s != {}
    ensures exists k :: Least(s, k)
  {
    var k :| k in s;
    LeastExists(s, k);
  }

  /** The elements of a set in ascending order, as an ordered map keeps its keys. */
  function Ascending(s: set<nat>): seq<nat>
    decreases |s|
  {
    if s == {} then []
    else
      LeastOf(s);
      var k :| Least(s, k);
      [k] + Ascending(s - {k})
  }

  lemma {:induction false} AscendingKeys(s: set<nat>)
    ensures forall k :: k in s <==> k in Ascending(s)
    ensures forall i, j :: 0 <= i < j < |Ascending(s)| ==> Ascending(s)[i] < Ascending(s)[j]
    decreases |s|
  {
    if s != {} {
      LeastOf(s);
      var k :| Least(s, k);
      assert Ascending(s)[0] == k;
      AscendingKeys(s - {k});
      var rest := Ascending(s - {k});
      assert Ascending(s) == [k] + rest;
      forall i | 0 <= i < |rest| ensures k < rest[i] { assert rest[i] in rest; }
    }
  }
}
