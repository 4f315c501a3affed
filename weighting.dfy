/** The three vector-space models of microtc/weighting.py (`TFIDF`, `TF` and `Entropy`) as
    one class whose `scheme` says which of them it is: the state the constructors leave
    behind, the property setters, `doc2weight` and the three `__getitem__` methods. */
module Weighting {
  import opened Counting
  import opened Vocabulary
  import opened ClassEntropy

  /** Which of the three Python classes an object is. */
  datatype Scheme = TfIdf | Tf | Entropy

  /** numpy's `log2` and `sqrt`, left uninterpreted. */
  datatype Numerics = Numerics(log2: real -> real, sqrt: real -> real)

  /** A float result: a number, or the NaN / infinity of a division by a zero norm. */
  datatype Float = Num(value: real) | NonFinite

  /** The tuple `(ids, tf, df)` that `doc2weight` returns. */
  datatype Bag = Bag(ids: seq<nat>, tf: seq<real>, df: seq<real>)

  predicate Aligned(b: Bag) {
    |b.ids| == |b.tf| == |b.df|
  }

  /** The weight the `wordWeight` setter of each class stores for a document frequency `d`
      over `ndocs` documents: `log2(N / v)` for TF-IDF, 1 for TF, and the value itself
      for Entropy, which keeps a dict as it is given. */
  function SchemeWeight(scheme: Scheme, log2: real -> real, ndocs: nat, d: nat): real
    requires scheme == TfIdf ==> d != 0
  {
    match scheme
    case TfIdf => log2(ndocs as real / d as real)
    case Tf => 1.0
    case Entropy => d as real
  }

  /** The vocabulary that `TFIDF.__init__` leaves behind for a corpus and its two filter
      thresholds. */
  function Fitted(docs: seq<seq<string>>, minF: real, maxF: real): (v: Vocab)
    ensures WellFormed(v)
  {
    CountedIsVocabulary(docs);
    Filter(Counted(docs), |docs|, minF, maxF)
  }

  /** A token is in the fitted vocabulary exactly when it occurs in the corpus and, when the
      filter is active, its document frequency lies strictly between the thresholds; its
      weight before the setter is that document frequency. */
  lemma FittedMembers(docs: seq<seq<string>>, minF: real, maxF: real, x: string)
    ensures x in Fitted(docs, minF, maxF).ids <==>
              x in Flatten(docs)
              && (FilterActive(minF, maxF) ==> Within(DF(docs, x), Thresholds(|docs|, minF, maxF)))
    ensures x in Fitted(docs, minF, maxF).ids ==>
              Fitted(docs, minF, maxF).df[Fitted(docs, minF, maxF).ids[x]] == DF(docs, x)
  {
    var v := Counted(docs);
    CountedIsVocabulary(docs);
    FilterMembers(v, |docs|, minF, maxF, x);
    if x in Fitted(docs, minF, maxF).ids {
      FilterKeepsDf(v, |docs|, minF, maxF, x);
    }
  }

  /** Fitted ids follow the order in which the tokens are first met in the corpus. */
  lemma FittedOrder(docs: seq<seq<string>>, minF: real, maxF: real, x: string, y: string)
    requires x in Fitted(docs, minF, maxF).ids && y in Fitted(docs, minF, maxF).ids
    ensures x in Flatten(docs) && y in Flatten(docs)
    ensures Fitted(docs, minF, maxF).ids[x] < Fitted(docs, minF, maxF).ids[y]
            <==> FirstIndex(Flatten(docs), x) < FirstIndex(Flatten(docs), y)
  {
    var v := Counted(docs);
    CountedIsVocabulary(docs);
    FilterKeepsOrder(v, |docs|, minF, maxF, x, y);
    CountedFirstEncounterOrder(docs, x, y);
  }

  // ---------------------------------------------------------------------------
  // doc2weight and the vectors

  /** What `doc2weight` computes: the known tokens' ids (`lst`), their distinct values in
      first-occurrence order with their relative frequencies, and each id's weight. */
  function Weigh(w2id: map<string, nat>, weight: map<nat, real>, tokens: seq<string>): (b: Bag)
    requires w2id.Values <= weight.Keys
    ensures Aligned(b)
    ensures forall k :: 0 <= k < |b.ids| ==> b.ids[k] in weight && b.df[k] == weight[b.ids[k]]
  {
    var lst := Known(w2id, tokens);
    var ids := Distinct(lst);
    assert forall k :: 0 <= k < |ids| ==> ids[k] in weight by {
      DistinctMembers(lst);
      forall k | 0 <= k < |ids| ensures ids[k] in weight {
        KnownMembers(w2id, tokens, ids[k]);
      }
    }
    Bag(ids, Frequencies(lst), seq(|ids|, k requires 0 <= k < |ids| => weight[ids[k]]))
  }

  /** The ids of `doc2weight`: each id of a known token once, no other, in the order of
      first occurrence; out-of-vocabulary tokens are dropped. */
  lemma BagIds(w2id: map<string, nat>, weight: map<nat, real>, tokens: seq<string>)
    requires w2id.Values <= weight.Keys
    ensures NoDup(Weigh(w2id, weight, tokens).ids)
    ensures forall id :: id in Weigh(w2id, weight, tokens).ids <==>
              exists x :: x in tokens && x in w2id && w2id[x] == id
    ensures forall i, j :: 0 <= i < j < |Weigh(w2id, weight, tokens).ids| ==>
              && Weigh(w2id, weight, tokens).ids[i] in Known(w2id, tokens)
              && Weigh(w2id, weight, tokens).ids[j] in Known(w2id, tokens)
              && FirstIndex(Known(w2id, tokens), Weigh(w2id, weight, tokens).ids[i])
                 < FirstIndex(Known(w2id, tokens), Weigh(w2id, weight, tokens).ids[j])
  {
    var lst := Known(w2id, tokens);
    var ids := Weigh(w2id, weight, tokens).ids;
    assert ids == Distinct(lst);
    DistinctNoDup(lst);
    DistinctMembers(lst);
    forall id ensures id in ids <==> exists x :: x in tokens && x in w2id && w2id[x] == id {
      KnownMembers(w2id, tokens, id);
    }
    forall i, j | 0 <= i < j < |ids|
      ensures ids[i] in lst && ids[j] in lst && FirstIndex(lst, ids[i]) < FirstIndex(lst, ids[j])
    {
      DistinctFirstOccurrenceOrder(lst, i, j);
    }
  }

  /** The counts of `doc2weight` add up to the number of known tokens, and its frequencies
      to one when there is a known token. */
  lemma BagFrequencies(w2id: map<string, nat>, weight: map<nat, real>, tokens: seq<string>)
    requires w2id.Values <= weight.Keys
    ensures NatSum(Counts(Known(w2id, tokens), Weigh(w2id, weight, tokens).ids)) == |Known(w2id, tokens)|
    ensures Known(w2id, tokens) != [] ==> RealSum(Weigh(w2id, weight, tokens).tf) == 1.0
  {
    var lst := Known(w2id, tokens);
    var b := Weigh(w2id, weight, tokens);
    assert b.ids == Distinct(lst) && b.tf == Frequencies(lst);
    CountsOfDistinctSum(lst);
    if lst != [] {
      TermFrequenciesSumToOne(lst);
    }
  }

  /** `x / n` in floating point: not a number when `n` is zero. */
  function Quotient(x: real, n: real): (q: Float)
    ensures q.Num? <==> n != 0.0
  {
    if n == 0.0 then NonFinite else Num(x / n)
  }

  function SumSquares(xs: seq<real>): real
    decreases |xs|
  {
    if xs == [] then 0.0 else SumSquares(xs[..|xs| - 1]) + xs[|xs| - 1] * xs[|xs| - 1]
  }

  /** `tf * df` for every id of the bag. */
  function Products(b: Bag): (x: seq<real>)
    requires Aligned(b)
    ensures |x| == |b.ids|
  {
    seq(|b.ids|, k requires 0 <= k < |b.ids| => b.tf[k] * b.df[k])
  }

  /** `TFIDF.__getitem__`: each `tf * df` divided by the L2 norm of all of them. */
  function TfIdfVector(b: Bag, sqrt: real -> real): (r: seq<(nat, Float)>)
    requires Aligned(b)
  {
    var x := Products(b);
    var n := sqrt(SumSquares(x));
    seq(|b.ids|, k requires 0 <= k < |b.ids| => (b.ids[k], Quotient(x[k], n)))
  }

  /** `TF.__getitem__`: the term frequency, weights ignored. */
  function TfVector(b: Bag): (r: seq<(nat, Float)>)
    requires Aligned(b)
  {
    seq(|b.ids|, k requires 0 <= k < |b.ids| => (b.ids[k], Num(b.tf[k])))
  }

  /** `Entropy.__getitem__`: the weight, term frequency ignored. */
  function EntropyVector(b: Bag): (r: seq<(nat, Float)>)
    requires Aligned(b)
  {
    seq(|b.ids|, k requires 0 <= k < |b.ids| => (b.ids[k], Num(b.df[k])))
  }

  /** The vector of each scheme. */
  function Vector(scheme: Scheme, sqrt: real -> real, b: Bag): (r: seq<(nat, Float)>)
    requires Aligned(b)
  {
    match scheme
    case TfIdf => TfIdfVector(b, sqrt)
    case Tf => TfVector(b)
    case Entropy => EntropyVector(b)
  }

  /** Every variant returns one pair per id of `doc2weight`, in the same order. */
  lemma VectorPairsIds(scheme: Scheme, sqrt: real -> real, b: Bag)
    requires Aligned(b)
    ensures |Vector(scheme, sqrt, b)| == |b.ids|
    ensures forall k :: 0 <= k < |b.ids| ==> Vector(scheme, sqrt, b)[k].0 == b.ids[k]
  {
  }

  /** The TF vector of a document with a known token is its frequency distribution over the
      ids: the values add up to one. */
  lemma TfVectorSumsToOne(w2id: map<string, nat>, weight: map<nat, real>, tokens: seq<string>,
                          sqrt: real -> real)
    requires w2id.Values <= weight.Keys && Known(w2id, tokens) != []
    ensures forall k :: 0 <= k < |Vector(Tf, sqrt, Weigh(w2id, weight, tokens))| ==>
              Vector(Tf, sqrt, Weigh(w2id, weight, tokens))[k].1.Num?
    ensures RealSum(seq(|Weigh(w2id, weight, tokens).ids|, k requires 0 <= k < |Weigh(w2id, weight, tokens).ids| =>
              Vector(Tf, sqrt, Weigh(w2id, weight, tokens))[k].1.value)) == 1.0
  {
    var b := Weigh(w2id, weight, tokens);
    var r := Vector(Tf, sqrt, b);
    assert seq(|b.ids|, k requires 0 <= k < |b.ids| => r[k].1.value) == b.tf;
    BagFrequencies(w2id, weight, tokens);
  }

  /** The Entropy vector pairs each id of the document with that id's stored weight. */
  lemma EntropyVectorIsWeight(w2id: map<string, nat>, weight: map<nat, real>, tokens: seq<string>,
                              sqrt: real -> real, k: nat)
    requires w2id.Values <= weight.Keys
    requires k < |Weigh(w2id, weight, tokens).ids|
    ensures k < |Vector(Entropy, sqrt, Weigh(w2id, weight, tokens))|
    ensures Weigh(w2id, weight, tokens).ids[k] in weight
    ensures Vector(Entropy, sqrt, Weigh(w2id, weight, tokens))[k]
            == (Weigh(w2id, weight, tokens).ids[k], Num(weight[Weigh(w2id, weight, tokens).ids[k]]))
  {
  }

  /** A non-zero norm makes the TF-IDF vector a unit vector: its squared values add up to one,
      given that `sqrt` returns a square root. */
  lemma TfIdfUnitNorm(b: Bag, sqrt: real -> real)
    requires Aligned(b)
    requires SumSquares(Products(b)) != 0.0
    requires sqrt(SumSquares(Products(b))) * sqrt(SumSquares(Products(b))) == SumSquares(Products(b))
    ensures forall k :: 0 <= k < |b.ids| ==> TfIdfVector(b, sqrt)[k].1.Num?
    ensures SumSquares(seq(|b.ids|, k requires 0 <= k < |b.ids| => TfIdfVector(b, sqrt)[k].1.value)) == 1.0
  {
    var x := Products(b);
    var s := SumSquares(x);
    var n := sqrt(s);
    var r := TfIdfVector(b, sqrt);
    assert n != 0.0;
    assert seq(|b.ids|, k requires 0 <= k < |b.ids| => r[k].1.value) == Scaled(x, n);
    ScaledSquares(x, n);
    CancelFactor(SumSquares(Scaled(x, n)), n * n, s);
  }

  /** When every product is zero the norm is zero and, as the division is unguarded, every
      value of the TF-IDF vector is NaN (given `sqrt(0) == 0`). */
  lemma TfIdfZeroNorm(b: Bag, sqrt: real -> real)
    requires Aligned(b) && sqrt(0.0) == 0.0
    requires forall k :: 0 <= k < |b.ids| ==> Products(b)[k] == 0.0
    ensures forall k :: 0 <= k < |b.ids| ==> TfIdfVector(b, sqrt)[k].1 == NonFinite
  {
    var x := Products(b);
    assert x == seq(|x|, _ => 0.0);
    SumSquaresZeros(|x|);
  }

  lemma {:induction false} SumSquaresZeros(n: nat)
    ensures SumSquares(seq(n, _ => 0.0)) == 0.0
  {
    if n > 0 {
      SumSquaresZeros(n - 1);
      assert seq(n, _ => 0.0)[..n - 1] == seq(n - 1, _ => 0.0);
    }
  }

  function Scaled(xs: seq<real>, n: real): (ys: seq<real>)
    requires n != 0.0
    ensures |ys| == |xs|
  {
    seq(|xs|, k requires 0 <= k < |xs| => xs[k] / n)
  }

  lemma {:induction false} ScaledSquares(xs: seq<real>, n: real)
    requires n != 0.0
    ensures SumSquares(Scaled(xs, n)) * (n * n) == SumSquares(xs)
    decreases |xs|
  {
    if xs != [] {
      var init, last := xs[..|xs| - 1], xs[|xs| - 1];
      ScaledSquares(init, n);
      var ys := Scaled(xs, n);
      assert ys[..|init|] == Scaled(init, n);
      assert ys[|init|] == last / n;
      var a, b := SumSquares(Scaled(init, n)), ys[|init|] * ys[|init|];
      assert SumSquares(ys) == a + b;
      var t := n * n;
      SquareQuotient(last, n);
      assert b * t == last * last;
      assert a * t == SumSquares(init);
      Distribute(a, b, t);
      assert SumSquares(xs) == SumSquares(init) + last * last;
    }
  }

  lemma Distribute(a: real, b: real, t: real)
    ensures (a + b) * t == a * t + b * t
  {
  }

  lemma SquareQuotient(x: real, n: real)
    requires n != 0.0
    ensures ((x / n) * (x / n)) * (n * n) == x * x
  {
    var q := x / n;
    assert q * n == x;
    assert (q * q) * (n * n) == (q * n) * (q * n);
  }

  lemma CancelFactor(a: real, t: real, s: real)
    requires s != 0.0 && t == s && a * t == s
    ensures a == 1.0
  {
    assert (a - 1.0) * s == 0.0;
  }

  // ---------------------------------------------------------------------------
  // The model objects

  class Model {
    /** Which class this object is an instance of. */
    const scheme: Scheme
    const num: Numerics
    /** `_ndocs`, `_w2id`, `_weight` and `_num_terms`. */
    var ndocs: nat
    var w2id: map<string, nat>
    var weight: map<nat, real>
    var numTerms: nat

    ghost predicate Valid()
      reads this
    {
      Consistent(w2id, weight, numTerms)
    }

    /** `TFIDF.__init__`, as run for an object of class `scheme`: the vocabulary is counted
        and filtered, then handed to the `word2id` and `wordWeight` setters. For `Entropy`
        the object this leaves, weighted by raw document frequencies, is only the
        intermediate state inside `NewEntropy`, which replaces the weights at once. */
    constructor Init(docs: seq<seq<string>>, scheme: Scheme, minF: real, maxF: real, num: Numerics)
      ensures this.scheme == scheme && this.num == num && ndocs == |docs|
      ensures w2id == Fitted(docs, minF, maxF).ids && numTerms == |w2id|
      ensures weight == map k | k in Fitted(docs, minF, maxF).df ::
                          SchemeWeight(scheme, num.log2, |docs|, Fitted(docs, minF, maxF).df[k])
      ensures Valid() && |weight| == |w2id|
    {
      this.scheme := scheme;
      this.num := num;
      ndocs := |docs|;
      new;
      var counted := CountDocumentFrequency(docs);
      CountedIsVocabulary(docs);
      var v := Filter(counted, |docs|, minF, maxF);
      assert v == Fitted(docs, minF, maxF);
      SetWord2Id(v.ids);
      SetWordWeight(v.df);
      FittedConsistent(v, weight);
    }

    /** The `word2id` setter: the map and its size. */
    method SetWord2Id(value: map<string, nat>)
      modifies this
      ensures w2id == value && numTerms == |value|
      ensures ndocs == old(ndocs) && weight == old(weight)
    {
      numTerms := |value|;
      w2id := value;
    }

    /** The `wordWeight` setter given a dict of document frequencies. TF-IDF divides the
        number of documents by each of them, so a zero would raise. */
    method SetWordWeight(value: map<nat, nat>)
      requires scheme == TfIdf ==> forall k :: k in value ==> value[k] != 0
      modifies this
      ensures weight == map k | k in value :: SchemeWeight(scheme, num.log2, ndocs, value[k])
      ensures ndocs == old(ndocs) && w2id == old(w2id) && numTerms == old(numTerms)
    {
      weight := map k | k in value :: SchemeWeight(scheme, num.log2, ndocs, value[k]);
    }

    /** The `Entropy` setter given an array: the value at each position becomes the weight of
        that id. */
    method SetEntropyWeights(value: seq<real>)
      requires scheme == Entropy
      modifies this
      ensures forall k: nat :: k in weight <==> k < |value|
      ensures forall k :: 0 <= k < |value| ==> weight[k] == value[k]
      ensures ndocs == old(ndocs) && w2id == old(w2id) && numTerms == old(numTerms)
    {
      weight := map k | 0 <= k < |value| :: value[k];
    }

    /** `doc2weight`: the known tokens' ids collected in a loop, then counted. */
    method Doc2Weight(tokens: seq<string>) returns (ids: seq<nat>, tf: seq<real>, df: seq<real>)
      requires Valid()
      ensures Bag(ids, tf, df) == Weigh(w2id, weight, tokens)
    {
      var lst: seq<nat> := [];
      var i := 0;
      while i < |tokens|
        invariant 0 <= i <= |tokens|
        invariant lst == Known(w2id, tokens[..i])
      {
        assert tokens[..i + 1] == tokens[..i] + [tokens[i]];
        KnownSnoc(w2id, tokens[..i], tokens[i]);
        if tokens[i] in w2id {
          lst := lst + [w2id[tokens[i]]];
        }
        i := i + 1;
      }
      assert tokens[..i] == tokens;
      ids := Distinct(lst);
      tf := Frequencies(lst);
      var wt := weight;
      assert forall k :: 0 <= k < |ids| ==> ids[k] in wt by {
        DistinctMembers(lst);
        forall k | 0 <= k < |ids| ensures ids[k] in wt {
          KnownMembers(w2id, tokens, ids[k]);
        }
      }
      df := seq(|ids|, k requires 0 <= k < |ids| => wt[ids[k]]);
    }

    /** `__getitem__` of the object's class. */
    method Get(tokens: seq<string>) returns (r: seq<(nat, Float)>)
      requires Valid()
      ensures r == Vector(scheme, num.sqrt, Weigh(w2id, weight, tokens))
    {
      var ids, tf, df := Doc2Weight(tokens);
      r := Vector(scheme, num.sqrt, Bag(ids, tf, df));
    }

    /** `Entropy.__init__`: without `X` it fails at once; otherwise the vocabulary is fitted
        as for TF-IDF and its weights replaced by the entropy weights of the labels `X`. */
    static method NewEntropy(docs: seq<seq<string>>, X: Option<seq<int>>, minF: real, maxF: real,
                             num: Numerics)
      returns (r: Option<Model>)
      ensures X.None? ==> r.None?
      ensures X.Some? ==> (r.None? <==> X.value == [])
      ensures r.Some? ==>
                && fresh(r.value) && r.value.scheme == Entropy && r.value.Valid()
                && r.value.ndocs == |docs|
                && r.value.w2id == Fitted(docs, minF, maxF).ids
                && (forall j: nat :: j in r.value.weight <==> j < |r.value.w2id|)
                && forall j: nat :: j < |r.value.w2id| ==>
                     r.value.weight[j] == EntropyWeight(num.log2, Column(docs, X.value, r.value.w2id, Unique(X.value), j))
    {
      if X.None? {
        return None;
      }
      var m := new Model.Init(docs, Entropy, minF, maxF, num);
      var w := EntropyWeights(docs, X.value, m.w2id, num.log2);
      if w.None? {
        return None;
      }
      m.SetEntropyWeights(w.value);
      ReweightedConsistent(Fitted(docs, minF, maxF), m.weight);
      r := Some(m);
    }
  }

  /** When every document carries a label, the column of each fitted token adds up to its
      document frequency, which is at least one: the uniform fallback for an empty column
      never applies. */
  lemma EntropyColumnsNonEmpty(docs: seq<seq<string>>, y: seq<int>, minF: real, maxF: real, x: string)
    requires x in Fitted(docs, minF, maxF).ids && |y| >= |docs|
    ensures NatSum(Column(docs, y, Fitted(docs, minF, maxF).ids, Unique(y), Fitted(docs, minF, maxF).ids[x]))
            == DF(docs, x) >= 1
  {
    ColumnSumIsCorpusDF(docs, y, Fitted(docs, minF, maxF), x);
    FittedMembers(docs, minF, maxF, x);
    DFBounds(docs, x);
  }

  /** Ids dense and one-to-one, a weight for each id and none other, and `num_terms` the
      number of tokens. */
  ghost predicate Consistent(w2id: map<string, nat>, weight: map<nat, real>, numTerms: nat) {
    && numTerms == |w2id|
    && (forall x :: x in w2id ==> w2id[x] < |w2id|)
    && (forall x, y :: x in w2id && y in w2id && w2id[x] == w2id[y] ==> x == y)
    && weight.Keys == w2id.Values
  }

  /** A well-formed vocabulary with one weight per id gives a consistent model, with as many
      weights as tokens. */
  lemma FittedConsistent(v: Vocab, weight: map<nat, real>)
    requires WellFormed(v) && weight.Keys == v.df.Keys
    ensures Consistent(v.ids, weight, |v.ids|) && |weight| == |v.ids|
  {
    KeySets(v);
    forall x, y | x in v.ids && y in v.ids && v.ids[x] == v.ids[y] ensures x == y {
      assert v.words[v.ids[x]] == x && v.words[v.ids[y]] == y;
    }
  }

  /** Weights indexed by position, one per token, keep the model consistent. */
  lemma ReweightedConsistent(v: Vocab, weight: map<nat, real>)
    requires WellFormed(v) && forall k: nat :: k in weight <==> k < |v.ids|
    ensures Consistent(v.ids, weight, |v.ids|)
  {
    KeySets(v);
    assert weight.Keys == v.df.Keys;
    FittedConsistent(v, weight);
  }
}
