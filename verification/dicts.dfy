/**
 * Python's insertion-ordered `dict`, as the sequence of its entries in
 * insertion order. Assigning to a present key keeps its position, assigning
 * to an absent key appends, and `pop` removes the entry. Two dicts are equal
 * in Python when `Get` agrees on every key, whatever their order.
 */
module Dicts {
  import opened Outcomes

  /** `list(d.keys())` */
  function Keys<K, V>(es: seq<(K, V)>): (ks: seq<K>)
    ensures |ks| == |es|
    ensures forall i :: 0 <= i < |es| ==> ks[i] == es[i].0
  {
    seq(|es|, i requires 0 <= i < |es| => es[i].0)
  }

  /** No key occurs twice, as in every Python dict. */
  ghost predicate Unique<K, V>(es: seq<(K, V)>) {
    forall i, j :: 0 <= i < j < |es| ==> es[i].0 != es[j].0
  }

  /** The position of key `k`, or `|es|` when `k` is absent. */
  function IndexOf<K(==), V>(es: seq<(K, V)>, k: K): (i: nat)
    ensures i <= |es|
    ensures i < |es| ==> es[i].0 == k
    ensures forall j :: 0 <= j < i ==> es[j].0 != k
  {
    if es == [] then 0 else if es[0].0 == k then 0 else 1 + IndexOf(es[1..], k)
  }

  /** `d.get(k)`: the value stored under `k`, if any. */
  function Get<K(==), V>(es: seq<(K, V)>, k: K): (r: Option<V>)
    ensures r.Some? <==> k in Keys(es)
  {
    var i := IndexOf(es, k);
    if i < |es| then Some(es[i].1) else None
  }

  lemma GetAt<K, V>(es: seq<(K, V)>, j: nat)
    requires Unique(es) && j < |es|
    ensures Get(es, es[j].0) == Some(es[j].1)
  {
    var i := IndexOf(es, es[j].0);
    assert !(i < j) && !(j < i);
  }

  /** Two entry sequences with the same keys in the same order place every key alike. */
  lemma IndexOfSameKeys<K, V, W>(a: seq<(K, V)>, b: seq<(K, W)>, k: K)
    requires Keys(a) == Keys(b)
    ensures IndexOf(a, k) == IndexOf(b, k)
  {
    var i, j := IndexOf(a, k), IndexOf(b, k);
    assert |a| == |Keys(a)| == |b|;
    assert forall m :: 0 <= m < |a| ==> a[m].0 == Keys(a)[m] == Keys(b)[m] == b[m].0;
  }

  /** Looking a key up in a dict built up to its last entry. */
  lemma GetLast<K, V>(es: seq<(K, V)>, k: K)
    requires Unique(es) && es != []
    ensures Get(es, k) == if k == es[|es| - 1].0 then Some(es[|es| - 1].1) else Get(es[..|es| - 1], k)
  {
    var n := |es| - 1;
    var front := es[..n];
    if k == es[n].0 {
      GetAt(es, n);
    } else {
      var i, j := IndexOf(es, k), IndexOf(front, k);
      assert forall m :: 0 <= m < n ==> front[m] == es[m];
      if i < n {
        assert !(j < i) && !(i < j);
      } else {
        assert i == |es|;
        assert j == |front| by {
          assert !(j < |front|);
        }
      }
    }
  }

  /** `d[k] = v`: overwrite in place when `k` is present, append otherwise. */
  function Put<K(==), V>(es: seq<(K, V)>, k: K, v: V): (r: seq<(K, V)>)
    ensures k in Keys(es) ==> Keys(r) == Keys(es)
    ensures k !in Keys(es) ==> Keys(r) == Keys(es) + [k]
  {
    var i := IndexOf(es, k);
    if i < |es| then es[i := (k, v)] else es + [(k, v)]
  }

  /** `d[k] = v` changes the value under `k` and nothing else. */
  lemma GetPut<K, V>(es: seq<(K, V)>, k: K, v: V, k': K)
    ensures Get(Put(es, k, v), k') == if k' == k then Some(v) else Get(es, k')
  {
    var r := Put(es, k, v);
    var i := IndexOf(es, k);
    if i < |es| {
      IndexOfSameKeys(es, r, k');
    } else {
      assert forall m :: 0 <= m < |es| ==> r[m] == es[m];
      var j := IndexOf(es, k');
      if k' != k {
        if j < |es| {
          assert IndexOf(r, k') == j by {
            var j' := IndexOf(r, k');
            assert !(j' < j) && !(j < j');
          }
        } else {
          assert IndexOf(r, k') == |r| by {
            var j' := IndexOf(r, k');
            assert !(j' < |r|);
          }
        }
      } else {
        assert IndexOf(r, k) == |es| by {
          var j' := IndexOf(r, k');
          assert r[|es|].0 == k;
        }
      }
    }
  }

  lemma UniquePut<K, V>(es: seq<(K, V)>, k: K, v: V)
    requires Unique(es)
    ensures Unique(Put(es, k, v))
  {
    var r := Put(es, k, v);
    forall i, j | 0 <= i < j < |r| ensures r[i].0 != r[j].0 {
      assert r[i].0 == Keys(r)[i] && r[j].0 == Keys(r)[j];
      if k !in Keys(es) && j == |es| {
        assert r[i].0 == Keys(es)[i];
      }
    }
  }

  /** `d.pop(k)` when `k` is present; no change when it is absent. */
  function Remove<K(==), V>(es: seq<(K, V)>, k: K): (r: seq<(K, V)>)
    ensures |r| <= |es|
  {
    var i := IndexOf(es, k);
    if i < |es| then es[..i] + es[i + 1..] else es
  }

  /** `d.pop(k)` leaves every other key's value alone and, in a dict, drops `k`. */
  lemma GetRemove<K, V>(es: seq<(K, V)>, k: K, k': K)
    requires Unique(es)
    ensures Unique(Remove(es, k))
    ensures Get(Remove(es, k), k') == if k' == k then None else Get(es, k')
  {
    var i := IndexOf(es, k);
    if i < |es| {
      var r := Remove(es, k);
      assert forall j :: 0 <= j < i ==> r[j] == es[j];
      assert forall j :: i <= j < |r| ==> r[j] == es[j + 1];
      var j := IndexOf(es, k');
      var j' := IndexOf(r, k');
      if k' == k {
        assert forall m :: 0 <= m < |r| ==> r[m].0 != k;
        assert j' == |r|;
      } else if j < i {
        assert !(j' < j) && !(j < j');
      } else {
        assert j != i;
        if j < |es| {
          assert r[j - 1] == es[j];
          assert !(j' < j - 1) && !(j - 1 < j');
        } else {
          assert j' == |r| by { assert !(j' < |r|); }
        }
      }
    }
  }

  /** The sum of `f` over a sequence, `sum(f(x) for x in xs)`. */
  function SumOver<T>(xs: seq<T>, f: T -> real): real {
    if xs == [] then 0.0 else f(xs[0]) + SumOver(xs[1..], f)
  }

  lemma SumOverConcat<T>(xs: seq<T>, ys: seq<T>, f: T -> real)
    ensures SumOver(xs + ys, f) == SumOver(xs, f) + SumOver(ys, f)
  {
    if xs != [] {
      calc {
        SumOver(xs + ys, f);
        { assert (xs + ys)[0] == xs[0] && (xs + ys)[1..] == xs[1..] + ys; }
        f(xs[0]) + SumOver(xs[1..] + ys, f);
        { SumOverConcat(xs[1..], ys, f); }
        f(xs[0]) + SumOver(xs[1..], f) + SumOver(ys, f);
      }
    } else {
      assert xs + ys == ys;
    }
  }

  lemma SumOverSnoc<T>(xs: seq<T>, x: T, f: T -> real)
    ensures SumOver(xs + [x], f) == SumOver(xs, f) + f(x)
  {
    SumOverConcat(xs, [x], f);
  }

  lemma SumOverUpdate<T>(xs: seq<T>, i: nat, y: T, f: T -> real)
    requires i < |xs|
    ensures SumOver(xs[i := y], f) == SumOver(xs, f) - f(xs[i]) + f(y)
  {
    if i == 0 {
      assert xs[i := y][1..] == xs[1..];
    } else {
      assert xs[i := y][1..] == xs[1..][i - 1 := y];
      SumOverUpdate(xs[1..], i - 1, y, f);
    }
  }

  lemma SumOverRemoveAt<T>(xs: seq<T>, i: nat, f: T -> real)
    requires i < |xs|
    ensures SumOver(xs[..i] + xs[i + 1..], f) == SumOver(xs, f) - f(xs[i])
  {
    var a, b := xs[..i], xs[i + 1..];
    var c := [xs[i]] + b;
    assert c[0] == xs[i] && c[1..] == b;
    assert SumOver(c, f) == f(xs[i]) + SumOver(b, f);
    assert a + c == xs;
    SumOverConcat(a, c, f);
    SumOverConcat(a, b, f);
  }

  /** Reordering the terms does not change a sum. */
  lemma {:induction false} SumOverPermutation<T>(xs: seq<T>, ys: seq<T>, f: T -> real)
    requires multiset(xs) == multiset(ys)
    ensures SumOver(xs, f) == SumOver(ys, f)
    decreases |xs|
  {
    if xs == [] {
      assert |ys| == |multiset(ys)| == 0;
    } else {
      var x := xs[0];
      assert x in multiset(ys);
      var j :| 0 <= j < |ys| && ys[j] == x;
      var rest := ys[..j] + ys[j + 1..];
      assert ys == ys[..j] + [x] + ys[j + 1..];
      assert xs == [x] + xs[1..];
      assert multiset(ys) == multiset(rest) + multiset{x};
      assert multiset(xs) == multiset{x} + multiset(xs[1..]);
      assert multiset(xs[1..]) == multiset(xs) - multiset{x};
      assert multiset(rest) == multiset(ys) - multiset{x};
      SumOverPermutation(xs[1..], rest, f);
      SumOverRemoveAt(ys, j, f);
    }
  }

  /** The sum of `n` equal terms. */
  lemma {:induction false} SumOverConstant<T>(xs: seq<T>, x: T, f: T -> real)
    requires forall i :: 0 <= i < |xs| ==> xs[i] == x
    ensures SumOver(xs, f) == |xs| as real * f(x)
  {
    if xs != [] {
      SumOverConstant(xs[1..], x, f);
    }
  }

  /** Sums of two functions that agree on every term are equal. */
  lemma {:induction false} SumOverAgree<T>(xs: seq<T>, f: T -> real, g: T -> real)
    requires forall i :: 0 <= i < |xs| ==> f(xs[i]) == g(xs[i])
    ensures SumOver(xs, f) == SumOver(xs, g)
  {
    if xs != [] {
      SumOverAgree(xs[1..], f, g);
    }
  }

  /** A term of a sum of non-negative terms is at most the sum. */
  lemma {:induction false} TermAtMostSum<T>(xs: seq<T>, i: nat, f: T -> real)
    requires i < |xs|
    requires forall j :: 0 <= j < |xs| ==> f(xs[j]) >= 0.0
    ensures 0.0 <= f(xs[i]) <= SumOver(xs, f)
  {
    if i > 0 {
      TermAtMostSum(xs[1..], i - 1, f);
    } else if |xs| > 1 {
      TermAtMostSum(xs[1..], 0, f);
    }
  }

  /** The value of an entry; `sum(d.values())` is `SumOver(es, Value)`. */
  function Value<K>(e: (K, real)): real {
    e.1
  }

  /** The term `f(v)` for the entry under key `k`, and 0 for every other entry. */
  function At<K(==), V>(k: K, f: V -> real): ((K, V)) -> real {
    (e: (K, V)) => if e.0 == k then f(e.1) else 0.0
  }

  /** Summing over a dict the terms for one key picks that key's value, or 0 when absent. */
  lemma {:induction false} SumOverAt<K, V>(es: seq<(K, V)>, k: K, f: V -> real)
    requires Unique(es)
    ensures SumOver(es, At(k, f)) == match Get(es, k) case Some(v) => f(v) case None => 0.0
  {
    if es != [] {
      var rest := es[1..];
      assert Unique(rest);
      SumOverAt(rest, k, f);
      if es[0].0 == k {
        assert k !in Keys(rest);
      } else {
        assert Get(es, k) == Get(rest, k);
      }
    }
  }

  /** A dict object that a function receives, mutates in place and may return. */
  class Dict<K(==), V> {
    var entries: seq<(K, V)>

    ghost predicate Valid()
      reads this
    {
      Unique(entries)
    }

    /** `d[k] = v` */
    method Set(k: K, v: V)
      requires Valid()
      modifies this
      ensures Valid() && entries == Put(old(entries), k, v)
    {
      UniquePut(entries, k, v);
      entries := Put(entries, k, v);
    }

    /** `d.pop(k)`: the removed value, or a KeyError when `k` is absent. */
    method Pop(k: K) returns (r: Result<V>)
      requires Valid()
      modifies this
      ensures r == match Get(old(entries), k) case Some(v) => Ok(v) case None => Err(MissingKey)
      ensures Valid() && entries == Remove(old(entries), k)
    {
      GetRemove(entries, k, k);
      var i := IndexOf(entries, k);
      if i < |entries| {
        r := Ok(entries[i].1);
      } else {
        r := Err(MissingKey);
      }
      entries := Remove(entries, k);
    }
  }
}
