/** Python's insertion-ordered `dict` with string keys, for the places where
    the modelled code depends on the order: the device registry, a device's
    snapshot entry, a device's additional snapshot information. */
module OrderedDicts {
  import opened Wrappers

  type ODict<V> = seq<(string, V)>

  function Keys<V>(d: ODict<V>): (ks: seq<string>)
    ensures |ks| == |d|
    ensures forall i :: 0 <= i < |d| ==> ks[i] == d[i].0
  {
    if d == [] then [] else [d[0].0] + Keys(d[1..])
  }

  predicate DistinctKeys<V>(d: ODict<V>) {
    forall i, j :: 0 <= i < j < |d| ==> d[i].0 != d[j].0
  }

  /** `d.get(k)`: the value stored under `k` (the first entry with that key). */
  function Lookup<V>(d: ODict<V>, k: string): (r: Option<V>)
    ensures r.None? <==> k !in Keys(d)
  {
    if d == [] then None
    else if d[0].0 == k then Some(d[0].1)
    else
      assert Keys(d) == [d[0].0] + Keys(d[1..]);
      Lookup(d[1..], k)
  }

  lemma {:induction false} LookupAt<V>(d: ODict<V>, i: nat)
    requires DistinctKeys(d) && i < |d|
    ensures Lookup(d, d[i].0) == Some(d[i].1)
  {
    if i > 0 {
      LookupAt(d[1..], i - 1);
    }
  }

  /** `d[k] = v`: an existing key keeps its position, a new key goes last. */
  function Update<V>(d: ODict<V>, k: string, v: V): (r: ODict<V>)
    ensures Lookup(r, k) == Some(v)
  {
    if d == [] then [(k, v)]
    else if d[0].0 == k then [(k, v)] + d[1..]
    else [d[0]] + Update(d[1..], k, v)
  }

  lemma {:induction false} UpdateOther<V>(d: ODict<V>, k: string, v: V, k': string)
    requires k' != k
    ensures Lookup(Update(d, k, v), k') == Lookup(d, k')
  {
    if d != [] && d[0].0 != k {
      UpdateOther(d[1..], k, v, k');
    }
  }

  /** A new key is appended. */
  lemma {:induction false} UpdateAppends<V>(d: ODict<V>, k: string, v: V)
    requires k !in Keys(d)
    ensures Update(d, k, v) == d + [(k, v)]
  {
    if d != [] {
      assert Keys(d) == [d[0].0] + Keys(d[1..]);
      UpdateAppends(d[1..], k, v);
    }
  }

  lemma {:induction false} UpdateKeys<V>(d: ODict<V>, k: string, v: V)
    ensures k in Keys(d) ==> Keys(Update(d, k, v)) == Keys(d)
    ensures k !in Keys(d) ==> Keys(Update(d, k, v)) == Keys(d) + [k]
  {
    if d != [] {
      assert Keys(d) == [d[0].0] + Keys(d[1..]);
      if d[0].0 != k {
        UpdateKeys(d[1..], k, v);
        assert Keys(Update(d, k, v)) == [d[0].0] + Keys(Update(d[1..], k, v));
      } else {
        assert Keys(Update(d, k, v)) == [k] + Keys(d[1..]);
      }
    }
  }

  lemma UpdateDistinct<V>(d: ODict<V>, k: string, v: V)
    requires DistinctKeys(d)
    ensures DistinctKeys(Update(d, k, v))
  {
    UpdateKeys(d, k, v);
    var r := Update(d, k, v);
    assert Keys(r) == Keys(d) || Keys(r) == Keys(d) + [k];
    forall i, j | 0 <= i < j < |r|
      ensures r[i].0 != r[j].0
    {
      assert Keys(r)[i] == r[i].0 && Keys(r)[j] == r[j].0;
      if j == |d| {
        assert k !in Keys(d);
        assert Keys(d)[i] == d[i].0;
      } else {
        assert Keys(d)[i] == d[i].0 && Keys(d)[j] == d[j].0;
      }
    }
  }
  /** Every entry after an update is the new one or was there before. */
  lemma {:induction false} UpdateEntries<V>(d: ODict<V>, k: string, v: V)
    ensures forall i :: 0 <= i < |Update(d, k, v)| ==>
              Update(d, k, v)[i] == (k, v) || Update(d, k, v)[i] in d
  {
    if d != [] && d[0].0 != k {
      UpdateEntries(d[1..], k, v);
      var r := Update(d, k, v);
      forall i | 0 <= i < |r|
        ensures r[i] == (k, v) || r[i] in d
      {
        if i > 0 {
          assert r[i] == Update(d[1..], k, v)[i - 1];
        }
      }
    }
  }

  /** `{k: f(k) for k in ks}`, built from `acc`. */
  function TabulateInto<V>(acc: ODict<V>, ks: seq<string>, f: string -> V): ODict<V>
    decreases |ks|
  {
    if ks == [] then acc else TabulateInto(Update(acc, ks[0], f(ks[0])), ks[1..], f)
  }

  /** Building from an accumulator that holds `f` of each of its distinct
      keys gives one entry per distinct key of either, each holding `f` of
      its key. */
  lemma {:induction false} TabulateIntoSpec<V>(acc: ODict<V>, ks: seq<string>, f: string -> V)
    requires DistinctKeys(acc)
    requires forall i :: 0 <= i < |acc| ==> acc[i].1 == f(acc[i].0)
    ensures var d := TabulateInto(acc, ks, f);
            && DistinctKeys(d)
            && (forall k :: k in Keys(d) <==> k in Keys(acc) || k in ks)
            && (forall i :: 0 <= i < |d| ==> d[i].1 == f(d[i].0))
    decreases |ks|
  {
    if ks != [] {
      TabulateStep(acc, ks, f);
      UpdateKeys(acc, ks[0], f(ks[0]));
      TabulateIntoSpec(Update(acc, ks[0], f(ks[0])), ks[1..], f);
    }
  }

  /** `{k: f(k) for k in ks}`: one entry per distinct key, in order of first
      appearance, each holding `f` of its key. */
  function Tabulate<V>(ks: seq<string>, f: string -> V): (d: ODict<V>)
    ensures DistinctKeys(d)
    ensures forall k :: k in Keys(d) <==> k in ks
    ensures forall i :: 0 <= i < |d| ==> d[i].1 == f(d[i].0)
  {
    TabulateIntoSpec([], ks, f);
    TabulateInto([], ks, f)
  }

  /** One step of `TabulateInto`: the first key is entered and the rest
      follow, and the invariant on the accumulator is kept. */
  lemma TabulateStep<V>(acc: ODict<V>, ks: seq<string>, f: string -> V)
    requires ks != []
    requires DistinctKeys(acc)
    requires forall i :: 0 <= i < |acc| ==> acc[i].1 == f(acc[i].0)
    ensures var next := Update(acc, ks[0], f(ks[0]));
            && DistinctKeys(next)
            && (forall i :: 0 <= i < |next| ==> next[i].1 == f(next[i].0))
            && TabulateInto(acc, ks, f) == TabulateInto(next, ks[1..], f)
  {
    UpdateDistinct(acc, ks[0], f(ks[0]));
    UpdateEntries(acc, ks[0], f(ks[0]));
  }

  /** `d.update(e)`: every entry of `e` in turn, as `d[k] = v`. */
  function UpdateAll<V>(d: ODict<V>, e: ODict<V>): ODict<V>
    decreases |e|
  {
    if e == [] then d else UpdateAll(Update(d, e[0].0, e[0].1), e[1..])
  }

  /** After `d.update(e)` the keys are those of either dictionary, still
      distinct, and every entry comes from one of them. */
  lemma UpdateAllSpec<V>(d: ODict<V>, e: ODict<V>)
    requires DistinctKeys(d)
    ensures var r := UpdateAll(d, e);
            && DistinctKeys(r)
            && (forall k :: k in Keys(r) <==> k in Keys(d) || k in Keys(e))
            && (forall i :: 0 <= i < |r| ==> r[i] in d || r[i] in e)
  {
    UpdateAllDistinct(d, e);
    UpdateAllKeys(d, e);
    UpdateAllEntries(d, e);
  }

  lemma {:induction false} UpdateAllDistinct<V>(d: ODict<V>, e: ODict<V>)
    requires DistinctKeys(d)
    ensures DistinctKeys(UpdateAll(d, e))
    decreases |e|
  {
    if e != [] {
      UpdateDistinct(d, e[0].0, e[0].1);
      UpdateAllDistinct(Update(d, e[0].0, e[0].1), e[1..]);
    }
  }

  lemma {:induction false} UpdateAllKeys<V>(d: ODict<V>, e: ODict<V>)
    ensures forall k :: k in Keys(UpdateAll(d, e)) <==> k in Keys(d) || k in Keys(e)
    decreases |e|
  {
    if e != [] {
      UpdateKeys(d, e[0].0, e[0].1);
      UpdateAllKeys(Update(d, e[0].0, e[0].1), e[1..]);
      assert Keys(e) == [e[0].0] + Keys(e[1..]);
    }
  }

  lemma {:induction false} UpdateAllEntries<V>(d: ODict<V>, e: ODict<V>)
    ensures forall i :: 0 <= i < |UpdateAll(d, e)| ==> UpdateAll(d, e)[i] in d || UpdateAll(d, e)[i] in e
    decreases |e|
  {
    if e != [] {
      var d' := Update(d, e[0].0, e[0].1);
      UpdateEntries(d, e[0].0, e[0].1);
      UpdateAllEntries(d', e[1..]);
      assert e == [e[0]] + e[1..];
      var r := UpdateAll(d, e);
      forall i | 0 <= i < |r|
        ensures r[i] in d || r[i] in e
      {
        if r[i] in d' {
          var j :| 0 <= j < |d'| && d'[j] == r[i];
        }
      }
    }
  }

  /** After the first entry of a dictionary with distinct keys come
      distinct keys, none of them the first. */
  lemma DistinctTail<V>(d: ODict<V>)
    requires d != [] && DistinctKeys(d)
    ensures DistinctKeys(d[1..]) && d[0].0 !in Keys(d[1..])
  {
    forall j | 0 <= j < |d| - 1
      ensures Keys(d[1..])[j] != d[0].0
    {
      assert d[1..][j] == d[j + 1];
    }
  }

  /** A suffix of a sequence is its first element followed by the rest. */
  lemma SuffixCons<T>(s: seq<T>, i: nat)
    requires i < |s|
    ensures s[i..] == [s[i]] + s[i + 1..]
  {
  }
}
