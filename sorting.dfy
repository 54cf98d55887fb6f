/** Python's built-in `sorted(items, key=...)` for the keys the modelled
    code sorts by: an integer rank, optionally followed by a real number
    (a device's area index and position along the beam line). The sort is
    stable, as Python's is. */
module Sorting {
  import opened OrderedDicts

  /** A sort key; keys compare as Python compares pairs. */
  datatype Key = Key(major: int, minor: real)

  /** `<` on pairs: lexicographic. */
  predicate KeyLess(a: Key, b: Key) {
    a.major < b.major || (a.major == b.major && a.minor < b.minor)
  }

  /** No element is followed by one with a smaller key. */
  predicate SortedBy<T>(s: seq<T>, key: T -> Key) {
    forall i, j :: 0 <= i < j < |s| ==> !KeyLess(key(s[j]), key(s[i]))
  }

  /** Places `x` in front of the first element whose key is greater than
      `x`'s, so after every element with an equal key. */
  function Insert<T>(x: T, s: seq<T>, key: T -> Key): (r: seq<T>)
    ensures |r| == |s| + 1
  {
    if s == [] then [x]
    else if KeyLess(key(x), key(s[0])) then [x] + s
    else [s[0]] + Insert(x, s[1..], key)
  }

  /** `sorted`: insertion sort, taking the elements in their given order. */
  function Sort<T>(s: seq<T>, key: T -> Key): (r: seq<T>)
    ensures |r| == |s|
  {
    if s == [] then [] else Insert(s[|s| - 1], Sort(s[..|s| - 1], key), key)
  }

  /** The elements whose key equals `k`, in order. */
  function WithKey<T>(s: seq<T>, key: T -> Key, k: Key): seq<T> {
    if s == [] then [] else (if key(s[0]) == k then [s[0]] else []) + WithKey(s[1..], key, k)
  }

  /** Inserting adds `x` and keeps every element. */
  lemma {:induction false} InsertPerm<T>(x: T, s: seq<T>, key: T -> Key)
    ensures multiset(Insert(x, s, key)) == multiset(s) + multiset{x}
  {
    if s != [] && !KeyLess(key(x), key(s[0])) {
      InsertPerm(x, s[1..], key);
      assert s == [s[0]] + s[1..];
    }
  }

  /** Inserting keeps a lower bound that `x` and every element respect. */
  lemma {:induction false} InsertBounded<T>(x: T, s: seq<T>, key: T -> Key, b: Key)
    requires !KeyLess(key(x), b) && forall y :: y in s ==> !KeyLess(key(y), b)
    ensures forall y :: y in Insert(x, s, key) ==> !KeyLess(key(y), b)
  {
    if s != [] && !KeyLess(key(x), key(s[0])) {
      assert forall y :: y in s[1..] ==> y in s;
      InsertBounded(x, s[1..], key, b);
    }
  }

  /** Inserting into a sorted sequence keeps it sorted. */
  lemma {:induction false} InsertSorted<T>(x: T, s: seq<T>, key: T -> Key)
    requires SortedBy(s, key)
    ensures SortedBy(Insert(x, s, key), key)
  {
    if s != [] && !KeyLess(key(x), key(s[0])) {
      var t := Insert(x, s[1..], key);
      assert SortedBy(s[1..], key) by {
        forall i, j | 0 <= i < j < |s[1..]|
          ensures !KeyLess(key(s[1..][j]), key(s[1..][i]))
        {
          assert s[1..][i] == s[i + 1] && s[1..][j] == s[j + 1];
        }
      }
      InsertSorted(x, s[1..], key);
      forall y | y in s[1..]
        ensures !KeyLess(key(y), key(s[0]))
      {
        var m :| 0 <= m < |s[1..]| && s[1..][m] == y;
        assert s[m + 1] == y;
      }
      InsertBounded(x, s[1..], key, key(s[0]));
      var r := Insert(x, s, key);
      assert r == [s[0]] + t;
      forall i, j | 0 <= i < j < |r|
        ensures !KeyLess(key(r[j]), key(r[i]))
      {
        assert r[j] == t[j - 1];
        if i == 0 {
          assert t[j - 1] in t;
        } else {
          assert r[i] == t[i - 1];
        }
      }
    }
  }

  /** `sorted` returns its input rearranged so that keys never decrease. */
  lemma {:induction false} SortSpec<T>(s: seq<T>, key: T -> Key)
    ensures SortedBy(Sort(s, key), key)
    ensures multiset(Sort(s, key)) == multiset(s)
  {
    if s != [] {
      var init := s[..|s| - 1];
      SortSpec(init, key);
      InsertSorted(s[|s| - 1], Sort(init, key), key);
      InsertPerm(s[|s| - 1], Sort(init, key), key);
      assert s == init + [s[|s| - 1]];
    }
  }

  lemma {:induction false} WithKeyAppend<T>(a: seq<T>, b: seq<T>, key: T -> Key, k: Key)
    ensures WithKey(a + b, key, k) == WithKey(a, key, k) + WithKey(b, key, k)
  {
    if a == [] {
      assert a + b == b;
      assert [] + WithKey(b, key, k) == WithKey(b, key, k);
    } else {
      WithKeyAppend(a[1..], b, key, k);
      assert (a + b)[0] == a[0] && (a + b)[1..] == a[1..] + b;
      var head := if key(a[0]) == k then [a[0]] else [];
      assert WithKey(a + b, key, k) == head + WithKey(a[1..] + b, key, k);
      assert WithKey(a, key, k) == head + WithKey(a[1..], key, k);
      assert head + (WithKey(a[1..], key, k) + WithKey(b, key, k)) ==
             (head + WithKey(a[1..], key, k)) + WithKey(b, key, k);
    }
  }

  /** In a sorted sequence that starts above `k`, no key equals `k`. */
  lemma {:induction false} WithKeyAbove<T>(s: seq<T>, key: T -> Key, k: Key)
    requires SortedBy(s, key)
    requires s != [] && KeyLess(k, key(s[0]))
    ensures WithKey(s, key, k) == []
  {
    if |s| > 1 {
      assert !KeyLess(key(s[1]), key(s[0]));
      WithKeyAbove(s[1..], key, k);
    }
  }

  lemma {:induction false} InsertStable<T>(x: T, s: seq<T>, key: T -> Key, k: Key)
    requires SortedBy(s, key)
    ensures WithKey(Insert(x, s, key), key, k) == WithKey(s, key, k) + (if key(x) == k then [x] else [])
  {
    var last := if key(x) == k then [x] else [];
    if s == [] {
    } else if KeyLess(key(x), key(s[0])) {
      assert ([x] + s)[0] == x && ([x] + s)[1..] == s;
      assert WithKey(Insert(x, s, key), key, k) == last + WithKey(s, key, k);
      if key(x) == k {
        WithKeyAbove(s, key, k);
      } else {
        assert [] + WithKey(s, key, k) == WithKey(s, key, k) + [];
      }
    } else {
      SortedTail(s, key);
      InsertStable(x, s[1..], key, k);
      var t := Insert(x, s[1..], key);
      var head := if key(s[0]) == k then [s[0]] else [];
      assert ([s[0]] + t)[0] == s[0] && ([s[0]] + t)[1..] == t;
      assert WithKey(Insert(x, s, key), key, k) == head + WithKey(t, key, k);
      assert WithKey(s, key, k) == head + WithKey(s[1..], key, k);
      assert head + (WithKey(s[1..], key, k) + last) == (head + WithKey(s[1..], key, k)) + last;
    }
  }

  /** A sorted sequence stays sorted without its first element. */
  lemma SortedTail<T>(s: seq<T>, key: T -> Key)
    requires SortedBy(s, key) && s != []
    ensures SortedBy(s[1..], key)
  {
    forall i, j | 0 <= i < j < |s| - 1
      ensures !KeyLess(key(s[1..][j]), key(s[1..][i]))
    {
      assert s[1..][i] == s[i + 1] && s[1..][j] == s[j + 1];
    }
  }

  /** `sorted` is stable: the elements sharing a key keep their order. */
  lemma {:induction false} SortStable<T>(s: seq<T>, key: T -> Key, k: Key)
    ensures WithKey(Sort(s, key), key, k) == WithKey(s, key, k)
  {
    if s != [] {
      var init := s[..|s| - 1];
      SortStable(init, key, k);
      SortSpec(init, key);
      InsertStable(s[|s| - 1], Sort(init, key), key, k);
      assert s == init + [s[|s| - 1]];
      WithKeyAppend(init, [s[|s| - 1]], key, k);
      assert [s[|s| - 1]][1..] == [];
    }
  }

  /** Sorting a sequence whose keys already never decrease changes nothing. */
  lemma {:induction false} SortSortedIsIdentity<T>(s: seq<T>, key: T -> Key)
    requires SortedBy(s, key)
    ensures Sort(s, key) == s
  {
    if s != [] {
      var init := s[..|s| - 1];
      var x := s[|s| - 1];
      SortSortedIsIdentity(init, key);
      InsertAtEnd(x, init, key);
      assert s == init + [x];
    }
  }

  lemma {:induction false} InsertAtEnd<T>(x: T, s: seq<T>, key: T -> Key)
    requires forall i :: 0 <= i < |s| ==> !KeyLess(key(x), key(s[i]))
    ensures Insert(x, s, key) == s + [x]
  {
    if s != [] {
      InsertAtEnd(x, s[1..], key);
      assert s == [s[0]] + s[1..];
    }
  }

  /** Inserting places the new element at one position among the others. */
  lemma {:induction false} InsertSplits<T>(x: T, s: seq<T>, key: T -> Key) returns (p: nat)
    ensures p <= |s| && Insert(x, s, key) == s[..p] + [x] + s[p..]
  {
    if s == [] || KeyLess(key(x), key(s[0])) {
      p := 0;
    } else {
      var q := InsertSplits(x, s[1..], key);
      p := q + 1;
      assert s[..p] == [s[0]] + s[1..][..q];
      assert s[p..] == s[1..][q..];
    }
  }

  /** Putting an entry with a new key anywhere in a dictionary keeps
      its keys distinct. */
  lemma PlaceNewKey<V>(t: ODict<V>, x: (string, V), p: nat)
    requires DistinctKeys(t) && p <= |t|
    requires forall m :: 0 <= m < |t| ==> t[m].0 != x.0
    ensures DistinctKeys(t[..p] + [x] + t[p..])
  {
    var r := t[..p] + [x] + t[p..];
    forall i, j | 0 <= i < j < |r|
      ensures r[i].0 != r[j].0
    {
      if j < p {
        assert r[i] == t[i] && r[j] == t[j];
      } else if j == p {
        assert r[i] == t[i] && r[j] == x;
      } else if i < p {
        assert r[i] == t[i] && r[j] == t[j - 1];
      } else if i == p {
        assert r[i] == x && r[j] == t[j - 1];
      } else {
        assert r[i] == t[i - 1] && r[j] == t[j - 1];
      }
    }
  }

  /** Sorting the items of a dictionary yields a dictionary: no key
      appears twice, so rebuilding a `dict` from the sorted items keeps
      every one of them. */
  lemma {:induction false} SortKeepsDistinctKeys<V>(s: ODict<V>, key: ((string, V)) -> Key)
    requires DistinctKeys(s)
    ensures DistinctKeys(Sort(s, key))
  {
    if s != [] {
      var init := s[..|s| - 1];
      var x := s[|s| - 1];
      SortKeepsDistinctKeys(init, key);
      SortSpec(init, key);
      var t := Sort(init, key);
      forall m | 0 <= m < |t|
        ensures t[m].0 != x.0
      {
        assert t[m] in multiset(t);
        assert t[m] in multiset(init);
        var n :| 0 <= n < |init| && init[n] == t[m];
        assert s[n] == t[m];
      }
      var p := InsertSplits(x, t, key);
      PlaceNewKey(t, x, p);
    }
  }

  /** Sorting a dictionary's items keeps its keys ... */
  lemma SortKeys<V>(s: ODict<V>, key: ((string, V)) -> Key)
    ensures forall k :: k in Keys(Sort(s, key)) <==> k in Keys(s)
  {
    SortSpec(s, key);
    var t := Sort(s, key);
    forall k
      ensures k in Keys(t) ==> k in Keys(s)
      ensures k in Keys(s) ==> k in Keys(t)
    {
      if k in Keys(t) {
        var j :| 0 <= j < |t| && Keys(t)[j] == k;
        assert t[j] in multiset(s);
        var m :| 0 <= m < |s| && s[m] == t[j];
        assert Keys(s)[m] == k;
      }
      if k in Keys(s) {
        var m :| 0 <= m < |s| && Keys(s)[m] == k;
        assert s[m] in multiset(t);
        var j :| 0 <= j < |t| && t[j] == s[m];
        assert Keys(t)[j] == k;
      }
    }
  }

  /** ... and its entries. */
  lemma SortEntries<T>(s: seq<T>, key: T -> Key)
    ensures forall j :: 0 <= j < |Sort(s, key)| ==> exists m :: 0 <= m < |s| && s[m] == Sort(s, key)[j]
  {
    SortSpec(s, key);
    var t := Sort(s, key);
    forall j | 0 <= j < |t|
      ensures exists m :: 0 <= m < |s| && s[m] == t[j]
    {
      assert t[j] in multiset(s);
    }
  }
}
