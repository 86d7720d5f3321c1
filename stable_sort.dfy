/** Python's `list.sort(key=...)`: the keys are computed first, then the list
    is put in ascending key order, and elements with equal keys keep their
    relative order (the sort is stable). A keyed element pairs the computed
    key with the element it belongs to. */
module StableSort {

  datatype Keyed<T> = Keyed(key: int, item: T)

  predicate SortedByKey<T>(s: seq<Keyed<T>>) {
    forall i, j :: 0 <= i < j < |s| ==> s[i].key <= s[j].key
  }

  /** The elements of `s` whose key is `k`, in their order in `s`. */
  function WithKey<T>(s: seq<Keyed<T>>, k: int): seq<Keyed<T>> {
    if |s| == 0 then []
    else (if s[0].key == k then [s[0]] else []) + WithKey(s[1..], k)
  }

  /** The elements without their keys. */
  function Items<T>(s: seq<Keyed<T>>): seq<T> {
    if |s| == 0 then [] else [s[0].item] + Items(s[1..])
  }

  /** Places `x` before the first element whose key is not smaller. */
  function Insert<T>(x: Keyed<T>, s: seq<Keyed<T>>): (r: seq<Keyed<T>>)
    ensures |r| == |s| + 1
    ensures multiset(r) == multiset(s) + multiset{x}
  {
    if |s| == 0 then
      [x]
    else if x.key <= s[0].key then
      [x] + s
    else
      assert s == [s[0]] + s[1..];
      [s[0]] + Insert(x, s[1..])
  }

  /** An element no larger than anything in a sorted list may go in front. */
  lemma ConsSorted<T>(h: Keyed<T>, t: seq<Keyed<T>>)
    requires SortedByKey(t)
    requires forall j :: 0 <= j < |t| ==> h.key <= t[j].key
    ensures SortedByKey([h] + t)
  {
    var r := [h] + t;
    forall i, j | 0 <= i < j < |r| ensures r[i].key <= r[j].key {
      assert r[j] == t[j - 1];
      if i > 0 {
        assert r[i] == t[i - 1];
      }
    }
  }

  lemma {:induction false} InsertSorted<T>(x: Keyed<T>, s: seq<Keyed<T>>)
    requires SortedByKey(s)
    ensures SortedByKey(Insert(x, s))
  {
    if |s| > 0 && x.key > s[0].key {
      var tail := s[1..];
      var t := Insert(x, tail);
      InsertSorted(x, tail);
      forall j | 0 <= j < |t| ensures s[0].key <= t[j].key {
        assert t[j] in multiset(t);
        if t[j] != x {
          assert t[j] in multiset(tail);
          var k :| 0 <= k < |tail| && tail[k] == t[j];
          assert s[k + 1] == tail[k];
        }
      }
      ConsSorted(s[0], t);
    }
  }

  lemma {:induction false} InsertItems<T>(x: Keyed<T>, s: seq<Keyed<T>>)
    ensures multiset(Items(Insert(x, s))) == multiset(Items(s)) + multiset{x.item}
  {
    if |s| > 0 {
      if x.key <= s[0].key {
        assert ([x] + s)[1..] == s;
      } else {
        InsertItems(x, s[1..]);
        assert ([s[0]] + Insert(x, s[1..]))[1..] == Insert(x, s[1..]);
      }
    }
  }

  /** `x` goes in front of every element with the same key. */
  lemma {:induction false} InsertWithKey<T>(x: Keyed<T>, s: seq<Keyed<T>>, k: int)
    ensures WithKey(Insert(x, s), k) == if k == x.key then [x] + WithKey(s, k) else WithKey(s, k)
  {
    if |s| > 0 {
      if x.key <= s[0].key {
        assert ([x] + s)[1..] == s;
      } else {
        InsertWithKey(x, s[1..], k);
        assert ([s[0]] + Insert(x, s[1..]))[1..] == Insert(x, s[1..]);
      }
    }
  }

  /** The stable sort by key: ascending keys, the same elements, and for
      each key the elements carrying it in their original order. */
  function SortByKey<T>(s: seq<Keyed<T>>): (r: seq<Keyed<T>>)
    ensures |r| == |s|
    ensures SortedByKey(r)
    ensures multiset(r) == multiset(s)
    ensures multiset(Items(r)) == multiset(Items(s))
    ensures forall k :: WithKey(r, k) == WithKey(s, k)
  {
    if |s| == 0 then []
    else
      assert s == [s[0]] + s[1..];
      var t := SortByKey(s[1..]);
      InsertSorted(s[0], t);
      InsertItems(s[0], t);
      assert Items(s) == [s[0].item] + Items(s[1..]);
      assert forall k :: WithKey(Insert(s[0], t), k) == WithKey(s, k) by {
        forall k ensures WithKey(Insert(s[0], t), k) == WithKey(s, k) {
          InsertWithKey(s[0], t, k);
        }
      }
      Insert(s[0], t)
  }

  lemma {:induction false} WithKeyMember<T>(s: seq<Keyed<T>>, k: int, x: Keyed<T>)
    ensures x in WithKey(s, k) <==> x in s && x.key == k
  {
    if |s| > 0 {
      WithKeyMember(s[1..], k, x);
      assert s == [s[0]] + s[1..];
    }
  }

  /** The stable sort is the only ordering with its properties: any list
      that is sorted by key and keeps, for every key, the elements with that
      key in their original order, is the result of `SortByKey`. */
  lemma {:induction false} SortByKeyUnique<T>(s: seq<Keyed<T>>, r: seq<Keyed<T>>)
    requires SortedByKey(r)
    requires forall k :: WithKey(r, k) == WithKey(s, k)
    ensures r == SortByKey(s)
  {
    SortedSameGroupsEqual(r, SortByKey(s));
  }

  /** Whatever `a` puts in the group of its first key, `b` holds too. */
  lemma HeadInOther<T>(a: seq<Keyed<T>>, b: seq<Keyed<T>>)
    requires |a| > 0 && WithKey(a, a[0].key) == WithKey(b, a[0].key)
    ensures a[0] in b
  {
    WithKeyMember(a, a[0].key, a[0]);
    WithKeyMember(b, a[0].key, a[0]);
  }

  lemma SortedHeadLeast<T>(a: seq<Keyed<T>>, x: Keyed<T>)
    requires SortedByKey(a) && x in a
    ensures a[0].key <= x.key
  {
    var j :| 0 <= j < |a| && a[j] == x;
  }

  /** A list's first element heads the group of its key. */
  lemma WithKeyHead<T>(s: seq<Keyed<T>>)
    requires |s| > 0
    ensures |WithKey(s, s[0].key)| > 0 && WithKey(s, s[0].key)[0] == s[0]
  {
  }

  /** Two sorted lists with the same groups start with the same element. */
  lemma SameHeads<T>(a: seq<Keyed<T>>, b: seq<Keyed<T>>)
    requires SortedByKey(a) && SortedByKey(b) && |a| > 0
    requires WithKey(a, a[0].key) == WithKey(b, a[0].key)
    requires |b| > 0 ==> WithKey(a, b[0].key) == WithKey(b, b[0].key)
    ensures |b| > 0 && a[0] == b[0]
  {
    HeadInOther(a, b);
    HeadInOther(b, a);
    SortedHeadLeast(a, b[0]);
    SortedHeadLeast(b, a[0]);
    WithKeyHead(a);
    WithKeyHead(b);
  }

  /** Removing the same head from both lists leaves the same groups. */
  lemma SameTailGroups<T>(a: seq<Keyed<T>>, b: seq<Keyed<T>>)
    requires |a| > 0 && |b| > 0 && a[0] == b[0]
    requires forall k :: WithKey(a, k) == WithKey(b, k)
    ensures forall k :: WithKey(a[1..], k) == WithKey(b[1..], k)
  {
    forall k ensures WithKey(a[1..], k) == WithKey(b[1..], k) {
      var head := if a[0].key == k then [a[0]] else [];
      assert WithKey(a, k) == head + WithKey(a[1..], k);
      assert WithKey(b, k) == head + WithKey(b[1..], k);
      assert WithKey(a[1..], k) == WithKey(a, k)[|head|..];
      assert WithKey(b[1..], k) == WithKey(b, k)[|head|..];
    }
  }

  lemma {:induction false} SortedSameGroupsEqual<T>(a: seq<Keyed<T>>, b: seq<Keyed<T>>)
    requires SortedByKey(a) && SortedByKey(b)
    requires forall k :: WithKey(a, k) == WithKey(b, k)
    ensures a == b
  {
    if |a| > 0 {
      if |b| > 0 {
        assert WithKey(a, b[0].key) == WithKey(b, b[0].key);
      }
      SameHeads(a, b);
      SameTailGroups(a, b);
      SortedSameGroupsEqual(a[1..], b[1..]);
      assert a == [a[0]] + a[1..] && b == [b[0]] + b[1..];
    } else if |b| > 0 {
      assert WithKey(b, b[0].key) == WithKey(a, b[0].key);
      SameHeads(b, a);
    }
  }

  /** Two elements out of order are swapped; the sort is determined by
      its promise alone. */
  lemma SortTwo<T>(x: Keyed<T>, y: Keyed<T>)
    requires y.key < x.key
    ensures SortByKey([x, y]) == [y, x]
  {
    forall k ensures WithKey([y, x], k) == WithKey([x, y], k) {
      assert [x, y][1..] == [y] && [y, x][1..] == [x];
      assert [x][1..] == [] && [y][1..] == [];
    }
    SortByKeyUnique([x, y], [y, x]);
  }
}
