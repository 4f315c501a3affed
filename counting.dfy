/** What the weighting model takes from Python's `collections.Counter`: the keys of
    `Counter(xs)` in first-occurrence order, the count of each key, and the sums over
    them that the term frequencies rely on. */
module Counting {

  /** No element occurs twice. */
  ghost predicate NoDup<T>(s: seq<T>) {
    forall i, j :: 0 <= i < j < |s| ==> s[i] != s[j]
  }

  /** Appends to `order`, left to right, every element of `xs` not already present.
      This is how a dict grows when keys are inserted one after another. */
  function AppendNew<T(==)>(order: seq<T>, xs: seq<T>): seq<T>
    decreases |xs|
  {
    if xs == [] then order
    else
      var o := AppendNew(order, xs[..|xs| - 1]);
      if xs[|xs| - 1] in o then o else o + [xs[|xs| - 1]]
  }

  /** The keys of `Counter(xs)`: each distinct element once, in first-occurrence order. */
  function Distinct<T(==)>(xs: seq<T>): seq<T> {
    AppendNew([], xs)
  }

  /** The number of occurrences of `x` in `xs` (`Counter(xs)[x]`). */
  function Count<T(==)>(xs: seq<T>, x: T): nat
    decreases |xs|
  {
    if xs == [] then 0
    else Count(xs[..|xs| - 1], x) + (if xs[|xs| - 1] == x then 1 else 0)
  }

  /** Position of the first occurrence of `x` in `xs`. */
  function FirstIndex<T(==)>(xs: seq<T>, x: T): (i: nat)
    requires x in xs
    ensures i < |xs| && xs[i] == x && x !in xs[..i]
  {
    if xs[0] == x then 0 else 1 + FirstIndex(xs[1..], x)
  }

  /** `[m[x] for x in xs if x in m]`: the values of the known elements, in order. */
  function Known<T(==), U>(m: map<T, U>, xs: seq<T>): seq<U>
    decreases |xs|
  {
    if xs == [] then []
    else Known(m, xs[..|xs| - 1]) + (if xs[|xs| - 1] in m then [m[xs[|xs| - 1]]] else [])
  }

  function NatSum(s: seq<nat>): nat
    decreases |s|
  {
    if s == [] then 0 else NatSum(s[..|s| - 1]) + s[|s| - 1]
  }

  function RealSum(s: seq<real>): real
    decreases |s|
  {
    if s == [] then 0.0 else RealSum(s[..|s| - 1]) + s[|s| - 1]
  }

  /** The counts of `keys` in `xs`, one per key. */
  function Counts<T(==)>(xs: seq<T>, keys: seq<T>): (c: seq<nat>)
    ensures |c| == |keys|
  {
    seq(|keys|, k requires 0 <= k < |keys| => Count(xs, keys[k]))
  }

  // ---------------------------------------------------------------------------
  // AppendNew / Distinct

  lemma {:induction false} AppendNewMembers<T>(order: seq<T>, xs: seq<T>, x: T)
    ensures x in AppendNew(order, xs) <==> x in order || x in xs
    decreases |xs|
  {
    if xs != [] {
      var init := xs[..|xs| - 1];
      AppendNewMembers(order, init, x);
      assert xs == init + [xs[|xs| - 1]];
    }
  }

  lemma {:induction false} AppendNewPrefix<T>(order: seq<T>, xs: seq<T>)
    ensures |order| <= |AppendNew(order, xs)|
    ensures AppendNew(order, xs)[..|order|] == order
    decreases |xs|
  {
    if xs != [] {
      AppendNewPrefix(order, xs[..|xs| - 1]);
    }
  }

  lemma {:induction false} AppendNewNoDup<T>(order: seq<T>, xs: seq<T>)
    requires NoDup(order)
    ensures NoDup(AppendNew(order, xs))
    decreases |xs|
  {
    if xs != [] {
      AppendNewNoDup(order, xs[..|xs| - 1]);
    }
  }

  /** Appending in two batches is appending the concatenation. */
  lemma {:induction false} AppendNewConcat<T>(order: seq<T>, xs: seq<T>, ys: seq<T>)
    ensures AppendNew(AppendNew(order, xs), ys) == AppendNew(order, xs + ys)
    decreases |ys|
  {
    if ys == [] {
      assert xs + ys == xs;
    } else {
      var init := ys[..|ys| - 1];
      AppendNewConcat(order, xs, init);
      var zs := xs + ys;
      assert zs[..|zs| - 1] == xs + init;
      assert zs[|zs| - 1] == ys[|ys| - 1];
      assert AppendNew(order, zs) == (var o := AppendNew(order, xs + init);
                                      if ys[|ys| - 1] in o then o else o + [ys[|ys| - 1]]);
    }
  }

  /** Feeding the distinct elements of `xs` grows a dict exactly as feeding `xs` does. */
  lemma {:induction false} AppendNewDistinct<T>(order: seq<T>, xs: seq<T>)
    ensures AppendNew(order, Distinct(xs)) == AppendNew(order, xs)
    decreases |xs|
  {
    if xs != [] {
      var init, x := xs[..|xs| - 1], xs[|xs| - 1];
      AppendNewDistinct(order, init);
      AppendNewMembers([], init, x);
      if x in Distinct(init) {
        AppendNewMembers(order, init, x);
      } else {
        assert Distinct(xs) == Distinct(init) + [x];
        assert Distinct(xs)[..|Distinct(xs)| - 1] == Distinct(init);
      }
    }
  }

  lemma DistinctMembers<T>(xs: seq<T>)
    ensures forall x :: x in Distinct(xs) <==> x in xs
  {
    forall x ensures x in Distinct(xs) <==> x in xs {
      AppendNewMembers([], xs, x);
    }
  }

  lemma DistinctNoDup<T>(xs: seq<T>)
    ensures NoDup(Distinct(xs))
  {
    AppendNewNoDup([], xs);
  }

  lemma {:induction false} FirstIndexAppend<T>(xs: seq<T>, ys: seq<T>, x: T)
    requires x in xs
    ensures FirstIndex(xs + ys, x) == FirstIndex(xs, x)
    decreases |xs|
  {
    if xs[0] != x {
      assert (xs + ys)[1..] == xs[1..] + ys;
      FirstIndexAppend(xs[1..], ys, x);
    }
  }

  lemma FirstIndexNoDup<T>(xs: seq<T>, k: nat)
    requires NoDup(xs) && k < |xs|
    ensures FirstIndex(xs, xs[k]) == k
  {
  }

  /** The keys of a Counter come in the order in which they first occur. */
  lemma {:induction false} DistinctFirstOccurrenceOrder<T>(xs: seq<T>, i: nat, j: nat)
    requires i < j < |Distinct(xs)|
    ensures Distinct(xs)[i] in xs && Distinct(xs)[j] in xs
    ensures FirstIndex(xs, Distinct(xs)[i]) < FirstIndex(xs, Distinct(xs)[j])
    decreases |xs|
  {
    var d := Distinct(xs);
    DistinctMembers(xs);
    assert d[i] in d && d[j] in d;
    var init, x := xs[..|xs| - 1], xs[|xs| - 1];
    var d0 := Distinct(init);
    DistinctMembers(init);
    assert xs == init + [x];
    if x in d0 {
      assert d == d0;
      DistinctFirstOccurrenceOrder(init, i, j);
      FirstIndexAppend(init, [x], d[i]);
      FirstIndexAppend(init, [x], d[j]);
    } else {
      assert d == d0 + [x];
      assert d[i] == d0[i];
      AppendNewMembers([], init, d0[i]);
      FirstIndexAppend(init, [x], d[i]);
      if j < |d0| {
        assert d[j] == d0[j];
        DistinctFirstOccurrenceOrder(init, i, j);
        FirstIndexAppend(init, [x], d[j]);
      } else {
        assert d[j] == x && x !in init;
        assert xs[..|init|] == init;
        assert FirstIndex(xs, x) == |init|;
      }
    }
  }

  // ---------------------------------------------------------------------------
  // Counts and sums

  lemma {:induction false} CountNotIn<T>(xs: seq<T>, x: T)
    requires x !in xs
    ensures Count(xs, x) == 0
    decreases |xs|
  {
    if xs != [] {
      assert x !in xs[..|xs| - 1];
      CountNotIn(xs[..|xs| - 1], x);
    }
  }

  lemma {:induction false} CountNoDup<T>(xs: seq<T>, x: T)
    requires NoDup(xs) && x in xs
    ensures Count(xs, x) == 1
    decreases |xs|
  {
    var init := xs[..|xs| - 1];
    assert xs == init + [xs[|xs| - 1]];
    if xs[|xs| - 1] == x {
      CountNotIn(init, x);
    } else {
      CountNoDup(init, x);
    }
  }

  lemma {:induction false} SumCountsSnoc<T>(xs: seq<T>, x: T, keys: seq<T>)
    ensures NatSum(Counts(xs + [x], keys)) == NatSum(Counts(xs, keys)) + Count(keys, x)
    decreases |keys|
  {
    if keys != [] {
      var init := keys[..|keys| - 1];
      SumCountsSnoc(xs, x, init);
      assert Counts(xs + [x], keys)[..|keys| - 1] == Counts(xs + [x], init);
      assert Counts(xs, keys)[..|keys| - 1] == Counts(xs, init);
      assert (xs + [x])[..|xs|] == xs;
    }
  }

  lemma {:induction false} SumCountsAppendKey<T>(xs: seq<T>, keys: seq<T>, k: T)
    ensures NatSum(Counts(xs, keys + [k])) == NatSum(Counts(xs, keys)) + Count(xs, k)
  {
    assert Counts(xs, keys + [k])[..|keys|] == Counts(xs, keys);
  }

  /** The counts of a Counter add up to the length of what was counted. */
  lemma {:induction false} CountsOfDistinctSum<T>(xs: seq<T>)
    ensures NatSum(Counts(xs, Distinct(xs))) == |xs|
    decreases |xs|
  {
    if xs != [] {
      var init, x := xs[..|xs| - 1], xs[|xs| - 1];
      var d0 := Distinct(init);
      CountsOfDistinctSum(init);
      assert xs == init + [x];
      SumCountsSnoc(init, x, d0);
      DistinctMembers(init);
      DistinctNoDup(init);
      if x in d0 {
        CountNoDup(d0, x);
      } else {
        CountNotIn(d0, x);
        CountNotIn(init, x);
        SumCountsAppendKey(xs, d0, x);
      }
    }
  }

  /** Every entry of `c` divided by `total`. */
  function Divided(c: seq<nat>, total: real): (f: seq<real>)
    requires total != 0.0
    ensures |f| == |c|
  {
    seq(|c|, k requires 0 <= k < |c| => c[k] as real / total)
  }

  /** `tf / tf.sum()` over `Counter(xs)`: the relative frequency of each distinct element. */
  function Frequencies<T(==)>(xs: seq<T>): (f: seq<real>)
    ensures |f| == |Distinct(xs)|
  {
    if xs == [] then [] else Divided(Counts(xs, Distinct(xs)), |xs| as real)
  }

  /** Dividing every entry by the same number divides the sum by it. */
  lemma {:induction false} DividedSum(c: seq<nat>, total: real)
    requires total != 0.0
    ensures RealSum(Divided(c, total)) == NatSum(c) as real / total
    decreases |c|
  {
    if c != [] {
      var init := c[..|c| - 1];
      DividedSum(init, total);
      var f, f0 := Divided(c, total), Divided(init, total);
      assert f[..|init|] == f0;
      var a, b := NatSum(init) as real, c[|init|] as real;
      calc {
        RealSum(f);
        RealSum(f0) + f[|init|];
        a / total + b / total;
        { DivideSum(a, b, total); }
        (a + b) / total;
      }
    }
  }

  lemma DivideSum(a: real, b: real, total: real)
    requires total != 0.0
    ensures a / total + b / total == (a + b) / total
  {
  }

  lemma SelfQuotient(a: real, t: real)
    requires a == t && t != 0.0
    ensures a / t == 1.0
  {
  }

  lemma {:induction false} RealSumConstant(n: nat, v: real)
    ensures RealSum(seq(n, _ => v)) == n as real * v
  {
    if n > 0 {
      RealSumConstant(n - 1, v);
      assert seq(n, _ => v)[..n - 1] == seq(n - 1, _ => v);
    }
  }

  /** A Counter's relative frequencies add up to one. */
  lemma TermFrequenciesSumToOne<T>(xs: seq<T>)
    requires xs != []
    ensures RealSum(Frequencies(xs)) == 1.0
  {
    var c, t := Counts(xs, Distinct(xs)), |xs| as real;
    assert Frequencies(xs) == Divided(c, t);
    DividedSum(c, t);
    CountsOfDistinctSum(xs);
    SelfQuotient(NatSum(c) as real, t);
  }

  // ---------------------------------------------------------------------------
  // Known

  lemma {:induction false} KnownMembers<T, U>(m: map<T, U>, xs: seq<T>, v: U)
    ensures v in Known(m, xs) <==> exists x :: x in xs && x in m && m[x] == v
    decreases |xs|
  {
    if xs != [] {
      var init, last := xs[..|xs| - 1], xs[|xs| - 1];
      KnownMembers(m, init, v);
      assert xs == init + [last];
      if v in Known(m, xs) && v !in Known(m, init) {
        assert last in xs && last in m && m[last] == v;
      }
      if exists x :: x in xs && x in m && m[x] == v {
        var x :| x in xs && x in m && m[x] == v;
        if x != last {
          assert x in init;
        }
      }
    }
  }

  lemma CountSnoc<T>(xs: seq<T>, a: T, x: T)
    ensures Count(xs + [a], x) == Count(xs, x) + (if a == x then 1 else 0)
  {
    assert (xs + [a])[..|xs|] == xs;
  }

  lemma KnownSnoc<T, U>(m: map<T, U>, xs: seq<T>, a: T)
    ensures Known(m, xs + [a]) == Known(m, xs) + (if a in m then [m[a]] else [])
  {
    assert (xs + [a])[..|xs|] == xs;
  }

  /** Distinct known keys of a one-to-one map have distinct values. */
  lemma {:induction false} KnownNoDup<T, U>(m: map<T, U>, xs: seq<T>)
    requires NoDup(xs)
    requires forall x, y :: x in m && y in m && m[x] == m[y] ==> x == y
    ensures NoDup(Known(m, xs))
    decreases |xs|
  {
    if xs != [] {
      var init, last := xs[..|xs| - 1], xs[|xs| - 1];
      KnownNoDup(m, init);
      if last in m {
        KnownMembers(m, init, m[last]);
        assert xs == init + [last];
      }
    }
  }

  // ---------------------------------------------------------------------------
  // Sums of nat sequences

  /** The entry-wise sum of two sequences of the same length. */
  function Plus(a: seq<nat>, b: seq<nat>): (c: seq<nat>)
    requires |a| == |b|
    ensures |c| == |a| && forall k :: 0 <= k < |c| ==> c[k] == a[k] + b[k]
  {
    seq(|a|, k requires 0 <= k < |a| => a[k] + b[k])
  }

  /** One where `keys` holds `x`, zero elsewhere. */
  function Indicator<T(==)>(keys: seq<T>, x: T): (c: seq<nat>)
    ensures |c| == |keys| && forall k :: 0 <= k < |c| ==> c[k] == if keys[k] == x then 1 else 0
  {
    seq(|keys|, k requires 0 <= k < |keys| => if keys[k] == x then 1 else 0)
  }

  /** The sum of entry-wise sums is the sum of the sums. */
  lemma {:induction false} NatSumPlus(a: seq<nat>, b: seq<nat>)
    requires |a| == |b|
    ensures NatSum(Plus(a, b)) == NatSum(a) + NatSum(b)
    decreases |a|
  {
    if a != [] {
      var n := |a| - 1;
      NatSumPlus(a[..n], b[..n]);
      assert Plus(a, b)[..n] == Plus(a[..n], b[..n]);
    }
  }

  /** Summing the indicator of `x` over `keys` counts `x` in `keys`. */
  lemma {:induction false} NatSumIndicator<T>(keys: seq<T>, x: T)
    ensures NatSum(Indicator(keys, x)) == Count(keys, x)
    decreases |keys|
  {
    if keys != [] {
      var n := |keys| - 1;
      NatSumIndicator(keys[..n], x);
      assert Indicator(keys, x)[..n] == Indicator(keys[..n], x);
    }
  }

  lemma {:induction false} NatSumZeros(n: nat)
    ensures NatSum(seq(n, _ => 0)) == 0
  {
    if n > 0 {
      NatSumZeros(n - 1);
      assert seq(n, _ => 0)[..n - 1] == seq(n - 1, _ => 0);
    }
  }

  /** No entry exceeds the sum. */
  lemma {:induction false} NatSumBound(s: seq<nat>, k: nat)
    requires k < |s|
    ensures s[k] <= NatSum(s)
    decreases |s|
  {
    if k < |s| - 1 {
      NatSumBound(s[..|s| - 1], k);
    }
  }
}
