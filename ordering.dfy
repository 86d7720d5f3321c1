/** The orders the report uses: Python's `<` on `str` (lexicographic by code
    point, a proper prefix first) and `<` on ranks, and `sorted(s)` of a set
    of either kind, which lists its elements once each in ascending order. */
module Ordering {

  /** Python's `a < b` on strings. */
  predicate Below(a: string, b: string) {
    if |a| == 0 then |b| > 0
    else if |b| == 0 then false
    else if a[0] != b[0] then a[0] < b[0]
    else Below(a[1..], b[1..])
  }

  lemma {:induction false} BelowIrreflexive(a: string)
    ensures !Below(a, a)
  {
    if |a| > 0 {
      BelowIrreflexive(a[1..]);
    }
  }

  lemma {:induction false} BelowTransitive(a: string, b: string, c: string)
    requires Below(a, b) && Below(b, c)
    ensures Below(a, c)
  {
    if |a| > 0 && a[0] == b[0] && b[0] == c[0] {
      BelowTransitive(a[1..], b[1..], c[1..]);
    }
  }

  /** Two different strings are always ordered one way or the other. */
  lemma {:induction false} BelowTotal(a: string, b: string)
    requires a != b
    ensures Below(a, b) || Below(b, a)
  {
    if |a| > 0 && |b| > 0 && a[0] == b[0] {
      assert a == [a[0]] + a[1..] && b == [b[0]] + b[1..];
      BelowTotal(a[1..], b[1..]);
    }
  }

  predicate StrictlyAscendingNames(s: seq<string>) {
    forall i, j :: 0 <= i < j < |s| ==> Below(s[i], s[j])
  }

  predicate StrictlyAscendingRanks(s: seq<nat>) {
    forall i, j :: 0 <= i < j < |s| ==> s[i] < s[j]
  }

  /** Places `x` into an ascending list of names that does not hold it. */
  function InsertName(x: string, s: seq<string>): (r: seq<string>)
    requires StrictlyAscendingNames(s) && x !in s
    ensures StrictlyAscendingNames(r)
    ensures forall y :: y in r <==> y == x || y in s
    ensures |r| == |s| + 1
  {
    if |s| == 0 then [x]
    else if Below(x, s[0]) then
      forall j | 0 < j < |s| ensures Below(x, s[j]) {
        BelowTransitive(x, s[0], s[j]);
      }
      [x] + s
    else
      BelowTotal(x, s[0]);
      var t := InsertName(x, s[1..]);
      assert forall y :: y in s[1..] ==> Below(s[0], y);
      [s[0]] + t
  }

  /** `sorted(names)` for a set of names. */
  method SortNames(names: set<string>) returns (r: seq<string>)
    ensures StrictlyAscendingNames(r)
    ensures forall y :: y in r <==> y in names
    ensures |r| == |names|
  {
    r := [];
    var rest := names;
    while rest != {}
      invariant rest <= names
      invariant StrictlyAscendingNames(r)
      invariant forall y :: y in r <==> y in names && y !in rest
      invariant |r| + |rest| == |names|
      decreases |rest|
    {
      var x :| x in rest;
      r := InsertName(x, r);
      rest := rest - {x};
    }
  }

  /** Places `x` into an ascending list of ranks that does not hold it. */
  function InsertRank(x: nat, s: seq<nat>): (r: seq<nat>)
    requires StrictlyAscendingRanks(s) && x !in s
    ensures StrictlyAscendingRanks(r)
    ensures forall y :: y in r <==> y == x || y in s
    ensures |r| == |s| + 1
  {
    if |s| == 0 then [x]
    else if x < s[0] then [x] + s
    else
      assert s[0] < x;
      var t := InsertRank(x, s[1..]);
      assert forall y :: y in s[1..] ==> s[0] < y;
      var r := [s[0]] + t;
      forall i, j | 0 <= i < j < |r| ensures r[i] < r[j] {
        if i == 0 {
          assert r[j] == t[j - 1] && r[j] in t;
        }
      }
      r
  }

  /** `sorted(ranks)` for a set of ranks. */
  method SortRanks(ranks: set<nat>) returns (r: seq<nat>)
    ensures StrictlyAscendingRanks(r)
    ensures forall y :: y in r <==> y in ranks
    ensures |r| == |ranks|
  {
    r := [];
    var rest := ranks;
    while rest != {}
      invariant rest <= ranks
      invariant StrictlyAscendingRanks(r)
      invariant forall y :: y in r <==> y in ranks && y !in rest
      invariant |r| + |rest| == |ranks|
      decreases |rest|
    {
      var x :| x in rest;
      r := InsertRank(x, r);
      rest := rest - {x};
    }
  }

  lemma BelowAsymmetric(a: string, b: string)
    ensures !(Below(a, b) && Below(b, a))
  {
    if Below(a, b) && Below(b, a) {
      BelowTransitive(a, b, a);
      BelowIrreflexive(a);
    }
  }

  /** The first name of an ascending list is below every other name in it. */
  lemma HeadIsLeastName(a: seq<string>, y: string)
    requires StrictlyAscendingNames(a) && y in a
    ensures y == a[0] || Below(a[0], y)
  {
    var j :| 0 <= j < |a| && a[j] == y;
  }

  /** The tail of an ascending list holds exactly the other names. */
  lemma TailNames(a: seq<string>, y: string)
    requires StrictlyAscendingNames(a) && |a| > 0
    ensures y in a[1..] <==> y in a && y != a[0]
  {
    BelowIrreflexive(a[0]);
    if y in a[1..] {
      var j :| 0 <= j < |a[1..]| && a[1..][j] == y;
      assert Below(a[0], a[j + 1]);
    }
    if y in a && y != a[0] {
      var k :| 0 <= k < |a| && a[k] == y;
      assert a[1..][k - 1] == y;
    }
  }

  /** A set has only one ascending listing: two strictly ascending lists of
      the same names are equal. */
  lemma {:induction false} AscendingNamesUnique(a: seq<string>, b: seq<string>)
    requires StrictlyAscendingNames(a) && StrictlyAscendingNames(b)
    requires forall y :: y in a <==> y in b
    ensures a == b
  {
    if |a| > 0 {
      assert a[0] in b;
    }
    if |b| > 0 {
      assert b[0] in a;
    }
    if |a| > 0 {
      HeadIsLeastName(a, b[0]);
      HeadIsLeastName(b, a[0]);
      BelowAsymmetric(a[0], b[0]);
      assert a[0] == b[0];
      forall y ensures y in a[1..] <==> y in b[1..] {
        TailNames(a, y);
        TailNames(b, y);
      }
      AscendingNamesUnique(a[1..], b[1..]);
      assert a == [a[0]] + a[1..] && b == [b[0]] + b[1..];
    }
  }

  /** The tail of an ascending list holds exactly the other ranks. */
  lemma TailRanks(a: seq<nat>, y: nat)
    requires StrictlyAscendingRanks(a) && |a| > 0
    ensures y in a[1..] <==> y in a && y != a[0]
  {
    if y in a[1..] {
      var j :| 0 <= j < |a[1..]| && a[1..][j] == y;
      assert a[0] < a[j + 1];
    }
    if y in a && y != a[0] {
      var k :| 0 <= k < |a| && a[k] == y;
      assert a[1..][k - 1] == y;
    }
  }

  /** Two strictly ascending lists of the same ranks are equal. */
  lemma {:induction false} AscendingRanksUnique(a: seq<nat>, b: seq<nat>)
    requires StrictlyAscendingRanks(a) && StrictlyAscendingRanks(b)
    requires forall y :: y in a <==> y in b
    ensures a == b
  {
    if |a| > 0 {
      assert a[0] in b;
    }
    if |b| > 0 {
      assert b[0] in a;
    }
    if |a| > 0 {
      var i :| 0 <= i < |b| && b[i] == a[0];
      var j :| 0 <= j < |a| && a[j] == b[0];
      assert a[0] == b[0];
      forall y: nat ensures y in a[1..] <==> y in b[1..] {
        TailRanks(a, y);
        TailRanks(b, y);
      }
      AscendingRanksUnique(a[1..], b[1..]);
      assert a == [a[0]] + a[1..] && b == [b[0]] + b[1..];
    }
  }
}
