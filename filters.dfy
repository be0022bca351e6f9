/**
 * Removing every entry that carries a given key from a list, keeping the
 * order of the rest. The break editor, the page's roster and slot list and
 * the store's insertion order all delete this way, each with its own key.
 */
module Filters {
  import opened Types

  /** The key of a list whose entries are their own keys. */
  function Itself<T>(x: T): T { x }

  /** The entries whose key differs from `k`, in their original order. */
  function Without<T, K(==)>(xs: seq<T>, key: T -> K, k: K): (r: seq<T>)
    ensures |r| <= |xs|
  {
    if xs == [] then []
    else
      var init := xs[..|xs| - 1];
      var last := xs[|xs| - 1];
      assert xs == init + [last];
      Without(init, key, k) + (if key(last) != k then [last] else [])
  }

  /** Exactly the entries whose key differs are kept. */
  lemma {:induction false} WithoutMembers<T(!new), K>(xs: seq<T>, key: T -> K, k: K)
    ensures forall x :: x in Without(xs, key, k) <==> x in xs && key(x) != k
  {
    if xs != [] {
      var init, last := xs[..|xs| - 1], xs[|xs| - 1];
      WithoutMembers(init, key, k);
      assert xs == init + [last];
    }
  }

  /** Filtering a concatenation filters each part and keeps them in order. */
  lemma {:induction false} WithoutAppend<T(!new), K>(xs: seq<T>, ys: seq<T>, key: T -> K, k: K)
    ensures Without(xs + ys, key, k) == Without(xs, key, k) + Without(ys, key, k)
    decreases |ys|
  {
    if ys == [] {
      assert xs + ys == xs;
    } else {
      var n := |ys| - 1;
      var init, last := ys[..n], ys[n];
      var tail := if key(last) != k then [last] else [];
      var zs := xs + ys;
      assert Without(zs, key, k) == Without(xs + init, key, k) + tail by {
        assert zs[..|zs| - 1] == xs + init && zs[|zs| - 1] == last;
      }
      assert Without(ys, key, k) == Without(init, key, k) + tail by {
        assert ys[..|ys| - 1] == init;
      }
      WithoutAppend(xs, init, key, k);
      assert Without(xs, key, k) + Without(init, key, k) + tail
          == Without(xs, key, k) + (Without(init, key, k) + tail);
    }
  }

  /** A one-entry list is kept exactly when its key differs. */
  lemma WithoutSingle<T(!new), K>(x: T, key: T -> K, k: K)
    ensures Without([x], key, k) == if key(x) != k then [x] else []
  {
    assert [x][..0] == [];
  }

  /** When no entry carries the key, nothing is removed. */
  lemma {:induction false} WithoutAbsent<T(!new), K>(xs: seq<T>, key: T -> K, k: K)
    requires forall i :: 0 <= i < |xs| ==> key(xs[i]) != k
    ensures Without(xs, key, k) == xs
  {
    if xs != [] {
      var n := |xs| - 1;
      var init, last := xs[..n], xs[n];
      forall i | 0 <= i < n ensures key(init[i]) != k {
        assert init[i] == xs[i];
      }
      WithoutAbsent(init, key, k);
      assert Without(xs, key, k) == Without(init, key, k) + [last] by {
        assert key(last) != k;
      }
      assert xs == init + [last];
    }
  }

  /** Removing entries from a list without repeats leaves a list without repeats. */
  lemma {:induction false} WithoutDistinct<T(!new), K>(xs: seq<T>, key: T -> K, k: K)
    requires Distinct(xs)
    ensures Distinct(Without(xs, key, k))
  {
    if xs != [] {
      var init := xs[..|xs| - 1];
      var last := xs[|xs| - 1];
      assert xs == init + [last];
      assert Distinct(init);
      WithoutDistinct(init, key, k);
      WithoutMembers(init, key, k);
      assert last !in init by {
        forall i | 0 <= i < |init| ensures init[i] != last {
          assert init[i] == xs[i];
        }
      }
    }
  }

  /**
   * Two lists that differ only in entries carrying the deleted key filter to
   * the same list.
   */
  lemma {:induction false} WithoutAgreeing<T(!new), K>(xs: seq<T>, ys: seq<T>, key: T -> K, k: K)
    requires |xs| == |ys|
    requires forall i :: 0 <= i < |xs| ==> (key(xs[i]) == k <==> key(ys[i]) == k)
    requires forall i :: 0 <= i < |xs| && key(xs[i]) != k ==> xs[i] == ys[i]
    ensures Without(xs, key, k) == Without(ys, key, k)
  {
    if xs != [] {
      var n := |xs| - 1;
      var xi, yi := xs[..n], ys[..n];
      assert forall i :: 0 <= i < n ==> xi[i] == xs[i] && yi[i] == ys[i];
      WithoutAgreeing(xi, yi, key, k);
      var xt := if key(xs[n]) != k then [xs[n]] else [];
      var yt := if key(ys[n]) != k then [ys[n]] else [];
      assert xt == yt;
      assert Without(xs, key, k) == Without(xi, key, k) + xt;
      assert Without(ys, key, k) == Without(yi, key, k) + yt;
    }
  }
}
