/** Listings without repeats and a stable sort by a key, as `Array.prototype.sort` does it. */
module Sorting {

  ghost predicate NoRepeats<T(!new)>(l: seq<T>) {
    forall i, j | 0 <= i < j < |l| :: l[i] != l[j]
  }

  /** l holds the elements of s, each once, in any order. */
  ghost predicate Lists<T(!new)>(l: seq<T>, s: set<T>) {
    NoRepeats(l) && forall x :: x in l <==> x in s
  }

  function Elements<T(==)>(l: seq<T>): set<T> {
    set x | x in l
  }

  ghost predicate Sorted<T(!new)>(l: seq<T>, key: T -> int) {
    forall i, j | 0 <= i < j < |l| :: key(l[i]) <= key(l[j])
  }

  function Insert<T(==)>(x: T, l: seq<T>, key: T -> int): (r: seq<T>)
    ensures multiset(r) == multiset{x} + multiset(l) && |r| == |l| + 1
  {
    if l == [] || key(x) <= key(l[0]) then [x] + l
    else
      assert l == [l[0]] + l[1..];
      [l[0]] + Insert(x, l[1..], key)
  }

  lemma {:induction false} InsertSorted<T(!new)>(x: T, l: seq<T>, key: T -> int)
    requires Sorted(l, key)
    ensures Sorted(Insert(x, l, key), key)
  {
    hide Sorted;
    if l == [] {
      SortedCons(x, l, key);
    } else {
      assert l == [l[0]] + l[1..];
      SortedCons(l[0], l[1..], key);
      if key(x) <= key(l[0]) {
        SortedCons(x, l, key);
      } else {
        InsertSorted(x, l[1..], key);
        SortedCons(l[0], Insert(x, l[1..], key), key);
      }
    }
  }

  lemma SortedCons<T(!new)>(x: T, l: seq<T>, key: T -> int)
    ensures Sorted([x] + l, key) <==> Sorted(l, key) && forall y | y in multiset(l) :: key(x) <= key(y)
  {
    var r := [x] + l;
    assert forall i | 0 <= i < |l| :: l[i] in multiset(l);
    if Sorted(l, key) && forall y | y in multiset(l) :: key(x) <= key(y) {
      forall i, j | 0 <= i < j < |r| ensures key(r[i]) <= key(r[j]) {
        assert i > 0 ==> key(l[i - 1]) <= key(l[j - 1]);
      }
    }
    if Sorted(r, key) {
      TailSorted(x, l, key);
    }
  }

  lemma TailSorted<T(!new)>(x: T, l: seq<T>, key: T -> int)
    requires Sorted([x] + l, key)
    ensures Sorted(l, key) && forall y | y in multiset(l) :: key(x) <= key(y)
  {
    var r := [x] + l;
    forall i | 0 <= i < |l| ensures key(x) <= key(l[i]) {
      assert key(r[0]) <= key(r[i + 1]);
    }
    forall i, j | 0 <= i < j < |l| ensures key(l[i]) <= key(l[j]) {
      assert key(r[i + 1]) <= key(r[j + 1]);
    }
  }

  /** The sorted list: a permutation in key order, in which an earlier element goes before its equals. */
  function Sort<T(==,!new)>(l: seq<T>, key: T -> int): (r: seq<T>)
    ensures multiset(r) == multiset(l) && |r| == |l|
    ensures Sorted(r, key)
  {
    if l == [] then []
    else
      assert l == [l[0]] + l[1..];
      InsertSorted(l[0], Sort(l[1..], key), key);
      Insert(l[0], Sort(l[1..], key), key)
  }

  /** The elements of one key, in their order. */
  function OfKey<T>(l: seq<T>, key: T -> int, k: int): seq<T> {
    if l == [] then [] else (if key(l[0]) == k then [l[0]] else []) + OfKey(l[1..], key, k)
  }

  lemma OfKeyCons<T(!new)>(x: T, l: seq<T>, key: T -> int, k: int)
    ensures OfKey([x] + l, key, k) == (if key(x) == k then [x] else []) + OfKey(l, key, k)
  {
    assert ([x] + l)[1..] == l;
  }

  lemma {:induction false} InsertStable<T(!new)>(x: T, l: seq<T>, key: T -> int, k: int)
    ensures OfKey(Insert(x, l, key), key, k) == (if key(x) == k then [x] else []) + OfKey(l, key, k)
  {
    hide OfKey;
    if l == [] || key(x) <= key(l[0]) {
      OfKeyCons(x, l, key, k);
    } else {
      assert l == [l[0]] + l[1..];
      OfKeyCons(l[0], l[1..], key, k);
      OfKeyCons(l[0], Insert(x, l[1..], key), key, k);
      InsertStable(x, l[1..], key, k);
    }
  }

  /** The sort is stable: the elements of each key are those of the list, in the same order. */
  lemma {:induction false} SortStable<T(!new)>(l: seq<T>, key: T -> int, k: int)
    ensures OfKey(Sort(l, key), key, k) == OfKey(l, key, k)
  {
    if l != [] {
      hide OfKey;
      assert l == [l[0]] + l[1..];
      OfKeyCons(l[0], l[1..], key, k);
      SortStable(l[1..], key, k);
      InsertStable(l[0], Sort(l[1..], key), key, k);
    }
  }

  /** Elements of one key keep their order. */
  lemma {:induction false} SortOfEqualKeys<T(!new)>(l: seq<T>, key: T -> int)
    requires forall i, j | 0 <= i < j < |l| :: key(l[i]) == key(l[j])
    ensures Sort(l, key) == l
  {
    if l != [] {
      SortOfEqualKeys(l[1..], key);
      assert l == [l[0]] + l[1..];
    }
  }

  lemma {:induction false} NoRepeatsAsMultiset<T(!new)>(l: seq<T>)
    ensures NoRepeats(l) <==> forall x :: multiset(l)[x] <= 1
  {
    if l != [] {
      var last := |l| - 1;
      NoRepeatsAsMultiset(l[..last]);
      assert l == l[..last] + [l[last]];
      assert forall x :: multiset(l)[x] == multiset(l[..last])[x] + if x == l[last] then 1 else 0;
      if NoRepeats(l) {
        assert l[last] !in l[..last];
      } else if NoRepeats(l[..last]) {
        assert l[last] in l[..last];
        assert multiset(l)[l[last]] >= 2;
      } else {
        var x :| multiset(l[..last])[x] > 1;
        assert multiset(l)[x] > 1;
      }
    }
  }

  /** Sorting a listing gives a listing of the same set. */
  lemma SortLists<T(!new)>(l: seq<T>, s: set<T>, key: T -> int)
    requires Lists(l, s)
    ensures Lists(Sort(l, key), s) && Sorted(Sort(l, key), key)
  {
    NoRepeatsAsMultiset(l);
    NoRepeatsAsMultiset(Sort(l, key));
    forall x ensures x in Sort(l, key) <==> x in s {
      assert x in Sort(l, key) <==> x in multiset(Sort(l, key));
    }
  }

  lemma {:induction false} SizeOfListing<T(!new)>(l: seq<T>, s: set<T>)
    requires Lists(l, s)
    ensures |s| == |l|
  {
    if l == [] {
      assert s == {};
    } else {
      forall x ensures x in l[1..] <==> x in s - {l[0]} {
        if x in l[1..] {
          var i :| 1 <= i < |l| && l[i] == x;
        }
      }
      SizeOfListing(l[1..], s - {l[0]});
    }
  }

  lemma InPrefix<T(!new)>(l: seq<T>, c: nat, i: nat)
    requires NoRepeats(l) && c <= |l| && i < |l|
    ensures l[i] in l[..c] <==> i < c
  {
    if i < c {
      assert l[..c][i] == l[i];
    }
  }

  lemma InSuffix<T(!new)>(l: seq<T>, c: nat, i: nat)
    requires NoRepeats(l) && c <= |l| && i < |l|
    ensures l[i] in l[c..] <==> c <= i
  {
    if c <= i {
      assert l[c..][i - c] == l[i];
    }
  }

  /** Taking the first c elements of a sorted listing away leaves a listing of the rest, and nothing
      left has a smaller key than something taken. */
  lemma DropPrefix<T(!new)>(l: seq<T>, s: set<T>, key: T -> int, c: nat)
    requires Lists(l, s) && Sorted(l, key) && c <= |l|
    ensures Lists(l[c..], s - Elements(l[..c]))
    ensures forall a, b | a in l[..c] && b in l[c..] :: key(a) <= key(b)
  {
    forall x ensures x in l[c..] <==> x in s - Elements(l[..c]) {
      if x in s {
        var i :| 0 <= i < |l| && l[i] == x;
        InPrefix(l, c, i);
        InSuffix(l, c, i);
      }
    }
  }

  /** The first of a sorted list has the least key. */
  lemma FirstIsLeast<T(!new)>(l: seq<T>, s: set<T>, key: T -> int)
    requires Lists(l, s) && l != []
    ensures var r := Sort(l, key); r[0] in s && forall x | x in s :: key(r[0]) <= key(x)
  {
    var r := Sort(l, key);
    SortLists(l, s, key);
    forall x | x in s ensures key(r[0]) <= key(x) {
      assert x in r;
      var i :| 0 <= i < |r| && r[i] == x;
    }
  }
}
