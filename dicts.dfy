/** Python dictionaries as Dafny maps: `d.update(m)` is `d + m` (the keys of
    `m` win), and `d.update({k: v})` is `d[k := v]`. */
module Dicts {

  /** `d.update({k: w})` is `d.update` with a one-entry map. */
  lemma UpdateIsMerge<K, W>(m: map<K, W>, k: K, w: W)
    ensures m[k := w] == m + map[k := w]
  {
  }

  /** Successive `update`s group either way. */
  lemma UpdateAssociative<K, W>(a: map<K, W>, b: map<K, W>, c: map<K, W>)
    ensures (a + b) + c == a + (b + c)
  {
  }

  /** `update` of an empty dictionary copies the other one. */
  lemma UpdateEmpty<K, W>(m: map<K, W>)
    ensures map[] + m == m
  {
  }

  /** Start from `{}` and `update` with `f(x)` for every `x` of `xs`, in order. */
  function MergeAll<T, K, W>(f: T -> map<K, W>, xs: seq<T>): map<K, W>
    decreases |xs|
  {
    if |xs| == 0 then map[] else MergeAll(f, xs[..|xs| - 1]) + f(xs[|xs| - 1])
  }

  /** One more `update` at the end. */
  lemma MergeAllSnoc<T, K, W>(f: T -> map<K, W>, xs: seq<T>, x: T)
    ensures MergeAll(f, xs + [x]) == MergeAll(f, xs) + f(x)
  {
    assert (xs + [x])[..|xs|] == xs;
  }

  /** A key is in the merged map exactly when one of the merged maps has it. */
  lemma {:induction false} MergeAllKeys<T, K, W>(f: T -> map<K, W>, xs: seq<T>, k: K)
    ensures k in MergeAll(f, xs) <==> exists i :: 0 <= i < |xs| && k in f(xs[i])
    decreases |xs|
  {
    if |xs| > 0 {
      var init := xs[..|xs| - 1];
      MergeAllKeys(f, init, k);
      if k in MergeAll(f, init) {
        var i :| 0 <= i < |init| && k in f(init[i]);
        assert xs[i] == init[i];
      }
      if exists i :: 0 <= i < |xs| && k in f(xs[i]) {
        var i :| 0 <= i < |xs| && k in f(xs[i]);
        if i < |init| {
          assert init[i] == xs[i];
        }
      }
    }
  }

  /** Last write wins: the merged value of a key is the one of the last map
      that has it. */
  lemma {:induction false} MergeAllLast<T, K, W>(f: T -> map<K, W>, xs: seq<T>, i: int, k: K)
    requires 0 <= i < |xs| && k in f(xs[i])
    requires forall j :: i < j < |xs| ==> k !in f(xs[j])
    ensures k in MergeAll(f, xs) && MergeAll(f, xs)[k] == f(xs[i])[k]
    decreases |xs|
  {
    var init := xs[..|xs| - 1];
    if i < |xs| - 1 {
      assert init[i] == xs[i];
      forall j | i < j < |init| ensures k !in f(init[j]) {
        assert init[j] == xs[j];
      }
      MergeAllLast(f, init, i, k);
    }
  }

  /** Merging the same maps, one by one, gives the same result. */
  lemma {:induction false} MergeAllPointwise<T, K, W>(f: T -> map<K, W>, xs: seq<T>, ys: seq<T>)
    requires |xs| == |ys|
    requires forall i :: 0 <= i < |xs| ==> f(xs[i]) == f(ys[i])
    ensures MergeAll(f, xs) == MergeAll(f, ys)
    decreases |xs|
  {
    if |xs| > 0 {
      var n := |xs| - 1;
      forall i | 0 <= i < n ensures f(xs[..n][i]) == f(ys[..n][i]) {
        assert xs[..n][i] == xs[i] && ys[..n][i] == ys[i];
      }
      MergeAllPointwise(f, xs[..n], ys[..n]);
    }
  }
}
