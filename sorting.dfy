/** The stable sort both JavaScript's `Array.prototype.sort` and a database `sort({k: -1})`
    perform when ordering by a numeric key, largest first. */
module Sorting {

  predicate SortedDesc<T>(s: seq<T>, key: T -> int) {
    forall i, j :: 0 <= i < j < |s| ==> key(s[i]) >= key(s[j])
  }

  /** Places `x` before the first element whose key is not larger than its own. */
  function Insert<T>(x: T, s: seq<T>, key: T -> int): (r: seq<T>)
    ensures |r| == |s| + 1
  {
    if s == [] then [x]
    else if key(s[0]) > key(x) then [s[0]] + Insert(x, s[1..], key)
    else [x] + s
  }

  /** Stable insertion sort, largest key first: among equal keys the input order is kept. */
  function SortDesc<T>(s: seq<T>, key: T -> int): (r: seq<T>)
    ensures |r| == |s|
  {
    if s == [] then [] else Insert(s[0], SortDesc(s[1..], key), key)
  }

  lemma {:induction false} InsertKeeps<T>(x: T, s: seq<T>, key: T -> int)
    ensures multiset(Insert(x, s, key)) == multiset(s) + multiset{x}
    ensures |Insert(x, s, key)| == |s| + 1
  {
    if s != [] && key(s[0]) > key(x) {
      InsertKeeps(x, s[1..], key);
      assert s == [s[0]] + s[1..];
    }
  }

  lemma {:induction false} InsertSorted<T>(x: T, s: seq<T>, key: T -> int)
    requires SortedDesc(s, key)
    ensures SortedDesc(Insert(x, s, key), key)
  {
    if s != [] && key(s[0]) > key(x) {
      InsertSorted(x, s[1..], key);
      InsertKeeps(x, s[1..], key);
      var r := Insert(x, s[1..], key);
      forall k | 0 <= k < |r| ensures key(s[0]) >= key(r[k]) {
        assert r[k] in multiset(r);
        assert r[k] in multiset(s[1..]) + multiset{x};
        if r[k] != x {
          assert r[k] in s[1..];
        }
      }
    }
  }

  /** The sorted sequence is ordered largest-key first and is a permutation of the input. */
  lemma {:induction false} SortDescCorrect<T>(s: seq<T>, key: T -> int)
    ensures SortedDesc(SortDesc(s, key), key)
    ensures multiset(SortDesc(s, key)) == multiset(s)
    ensures |SortDesc(s, key)| == |s|
  {
    if s != [] {
      SortDescCorrect(s[1..], key);
      InsertSorted(s[0], SortDesc(s[1..], key), key);
      InsertKeeps(s[0], SortDesc(s[1..], key), key);
      assert s == [s[0]] + s[1..];
    }
  }

  /** The first `n` elements in descending key order (all of them when there are fewer). */
  function TopN<T>(s: seq<T>, key: T -> int, n: nat): (r: seq<T>)
    ensures |r| == if |s| < n then |s| else n
    ensures r == SortDesc(s, key)[..|r|]
  {
    SortDescCorrect(s, key);
    var sorted := SortDesc(s, key);
    if |sorted| <= n then sorted else sorted[..n]
  }

  lemma TopNSorted<T>(s: seq<T>, key: T -> int, n: nat)
    ensures SortedDesc(TopN(s, key, n), key)
  {
    SortDescCorrect(s, key);
  }

  lemma TopNMembers<T>(s: seq<T>, key: T -> int, n: nat)
    ensures forall x :: x in TopN(s, key, n) ==> x in s
  {
    SortDescCorrect(s, key);
    var sorted := SortDesc(s, key);
    forall x | x in TopN(s, key, n) ensures x in s {
      assert x in sorted;
      assert x in multiset(sorted);
    }
  }

  /** An element left out of the top `n` has a key no larger than any element kept. */
  lemma TopNExcluded<T>(s: seq<T>, key: T -> int, n: nat, x: T)
    requires x in s && x !in TopN(s, key, n)
    ensures forall k :: 0 <= k < |TopN(s, key, n)| ==> key(x) <= key(TopN(s, key, n)[k])
  {
    SortDescCorrect(s, key);
    var sorted := SortDesc(s, key);
    var r := TopN(s, key, n);
    assert x in multiset(s);
    assert x in sorted;
    var i :| 0 <= i < |sorted| && sorted[i] == x;
    assert i >= |r|;
    forall k | 0 <= k < |r| ensures key(x) <= key(r[k]) {
      assert r[k] == sorted[k];
    }
  }

  /** The first place of the sort has the largest key. */
  lemma SortDescFirstLargest<T>(s: seq<T>, key: T -> int, k: nat)
    requires k < |s|
    ensures key(s[k]) <= key(SortDesc(s, key)[0])
  {
    SortDescCorrect(s, key);
    var r := SortDesc(s, key);
    assert s[k] in multiset(r);
    var m :| 0 <= m < |r| && r[m] == s[k];
  }

  /** Taking the first element of `b` out of a permutation `a` of `b` leaves a permutation of
      the rest of `b`. */
  lemma PermutationRest<T>(a: seq<T>, b: seq<T>, i: nat)
    requires multiset(a) == multiset(b) && i < |a| && |b| >= 1 && a[i] == b[0]
    ensures multiset(a[..i] + a[i + 1..]) == multiset(b[1..])
  {
    assert a == a[..i] + [a[i]] + a[i + 1..];
    assert b == [b[0]] + b[1..];
    var rest := multiset(a[..i] + a[i + 1..]);
    assert multiset(a) == rest + multiset{a[i]};
    assert multiset(b) == multiset(b[1..]) + multiset{a[i]};
    forall x ensures rest[x] == multiset(b[1..])[x] {
      assert multiset(a)[x] == rest[x] + multiset{a[i]}[x];
      assert multiset(b)[x] == multiset(b[1..])[x] + multiset{a[i]}[x];
    }
  }

  /** Every element after the first place has a key no larger than the second place's. */
  lemma SortDescSecondLargest<T>(s: seq<T>, key: T -> int, x: T)
    requires |s| >= 2 && x in multiset(SortDesc(s, key)[1..])
    ensures key(x) <= key(SortDesc(s, key)[1])
  {
    SortDescCorrect(s, key);
    var r := SortDesc(s, key);
    var m :| 0 <= m < |r[1..]| && r[1..][m] == x;
    assert r[m + 1] == x;
  }

  lemma SortDescPermutes<T>(s: seq<T>, key: T -> int)
    ensures multiset(SortDesc(s, key)) == multiset(s)
  {
    SortDescCorrect(s, key);
  }

  /** The positions of `s` without position `i`, in order. */
  lemma WithoutIndex<T>(s: seq<T>, i: nat, k: nat)
    requires i < |s| && k < |s| - 1
    ensures (s[..i] + s[i + 1..])[k] == s[if k < i then k else k + 1]
  {
  }

  /** Positions `i` and `j` of `s` are distinct, `i` has the largest key of all and `j` the
      largest key among all the others. */
  predicate BestTwo<T>(s: seq<T>, key: T -> int, i: int, j: int) {
    0 <= i < |s| && 0 <= j < |s| && i != j
    && (forall k :: 0 <= k < |s| ==> key(s[k]) <= key(s[i]))
    && (forall k :: 0 <= k < |s| && k != i ==> key(s[k]) <= key(s[j]))
  }

  /** The first two places of the sort go to the best two positions of the input. */
  lemma SortDescTopTwo<T>(s: seq<T>, key: T -> int)
    requires |s| >= 2
    ensures exists i, j :: BestTwo(s, key, i, j) && SortDesc(s, key)[0] == s[i] && SortDesc(s, key)[1] == s[j]
  {
    var r := SortDesc(s, key);
    SortDescPermutes(s, key);
    assert r[0] in multiset(r);
    var i :| 0 <= i < |s| && s[i] == r[0];
    var others := s[..i] + s[i + 1..];
    PermutationRest(s, r, i);
    assert r[1] == r[1..][0];
    assert r[1] in multiset(others);
    var j' :| 0 <= j' < |others| && others[j'] == r[1];
    WithoutIndex(s, i, j');
    var j := if j' < i then j' else j' + 1;
    forall k | 0 <= k < |s| ensures key(s[k]) <= key(s[i]) {
      SortDescFirstLargest(s, key, k);
    }
    forall k | 0 <= k < |s| && k != i ensures key(s[k]) <= key(s[j]) {
      WithoutIndex(s, i, if k < i then k else k - 1);
      assert s[k] in multiset(others);
      SortDescSecondLargest(s, key, s[k]);
    }
    assert BestTwo(s, key, i, j) && r[0] == s[i] && r[1] == s[j];
  }
}
