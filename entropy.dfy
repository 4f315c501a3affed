/** The class-conditional weighting of `Entropy.entropy` (microtc/weighting.py:214-249):
    a class x token matrix of document counts, each column normalised to a distribution
    over the classes, and one weight per token computed from that distribution. */
module ClassEntropy {
  import opened Counting
  import opened Vocabulary

  datatype Option<T> = None | Some(value: T)

  // ---------------------------------------------------------------------------
  // The classes: np.unique(y)

  ghost predicate StrictlyAscending(s: seq<int>) {
    forall i, j :: 0 <= i < j < |s| ==> s[i] < s[j]
  }

  /** Inserts `x` into a strictly ascending sequence unless it is already there. */
  function InsertSorted(s: seq<int>, x: int): (r: seq<int>)
    requires StrictlyAscending(s)
    ensures StrictlyAscending(r)
    ensures forall l :: l in r <==> l in s || l == x
  {
    if s == [] then [x]
    else if x < s[0] then [x] + s
    else if x == s[0] then s
    else
      var r := InsertSorted(s[1..], x);
      assert forall i :: 0 <= i < |r| ==> s[0] < r[i] by {
        forall i | 0 <= i < |r| ensures s[0] < r[i] {
          assert r[i] in r;
          if r[i] != x {
            var i' :| 0 <= i' < |s[1..]| && s[1..][i'] == r[i];
            assert s[1..][i'] == s[i' + 1];
          }
        }
      }
      [s[0]] + r
  }

  /** `np.unique(y)`: every label once, in ascending order. */
  function Unique(y: seq<int>): (k: seq<int>)
    ensures StrictlyAscending(k)
    ensures forall l :: l in k <==> l in y
    ensures |k| == 0 <==> |y| == 0
    decreases |y|
  {
    if y == [] then [] else InsertSorted(Unique(y[..|y| - 1]), y[|y| - 1])
  }

  lemma AscendingNoDup(s: seq<int>)
    requires StrictlyAscending(s)
    ensures NoDup(s)
  {
  }

  // ---------------------------------------------------------------------------
  // The count matrix

  /** `zip(y, corpus)` stops at the shorter of the two lists. */
  function Pairs(y: seq<int>, corpus: seq<seq<string>>): (n: nat)
    ensures n <= |y| && n <= |corpus|
    ensures n == |y| || n == |corpus|
  {
    if |y| < |corpus| then |y| else |corpus|
  }

  /** What one document adds to column `j`: one for each of its distinct tokens whose id is `j`. */
  function Hits(doc: seq<string>, m: map<string, nat>, j: nat): nat {
    Count(Known(m, Distinct(doc)), j)
  }

  /** Cell (`klass`, `j`) of the matrix after the first `n` (label, document) pairs. */
  function ClassCount(corpus: seq<seq<string>>, y: seq<int>, m: map<string, nat>,
                      klass: int, j: nat, n: nat): nat
    requires n <= |corpus| && n <= |y|
  {
    if n == 0 then 0
    else ClassCount(corpus, y, m, klass, j, n - 1)
         + (if y[n - 1] == klass then Hits(corpus[n - 1], m, j) else 0)
  }

  /** The number of documents among the first `n` whose label is `klass` and which contain `x`. */
  function ClassDF(corpus: seq<seq<string>>, y: seq<int>, klass: int, x: string, n: nat): nat
    requires n <= |corpus| && n <= |y|
  {
    if n == 0 then 0
    else ClassDF(corpus, y, klass, x, n - 1)
         + (if y[n - 1] == klass && x in corpus[n - 1] then 1 else 0)
  }

  /** Column `j` of the finished matrix: one count per class in `klasses`. */
  function Column(corpus: seq<seq<string>>, y: seq<int>, m: map<string, nat>,
                  klasses: seq<int>, j: nat): (col: seq<nat>)
    ensures |col| == |klasses|
  {
    seq(|klasses|, k requires 0 <= k < |klasses| =>
      ClassCount(corpus, y, m, klasses[k], j, Pairs(y, corpus)))
  }

  /** Ids below the number of tokens: every `weight[ki, m[x]]` is inside the matrix. */
  predicate IdsInRange(m: map<string, nat>) {
    forall x :: x in m ==> m[x] < |m|
  }

  /** The nested counting loops of microtc/weighting.py:233-242. */
  method CountMatrix(corpus: seq<seq<string>>, y: seq<int>, m: map<string, nat>, klasses: seq<int>)
    returns (c: array2<nat>)
    requires IdsInRange(m)
    ensures fresh(c) && c.Length0 == |klasses| && c.Length1 == |m|
    ensures forall k, j :: 0 <= k < |klasses| && 0 <= j < |m| ==>
              c[k, j] == ClassCount(corpus, y, m, klasses[k], j, Pairs(y, corpus))
  {
    c := new nat[|klasses|, |m|]((_, _) => 0);
    var ki := 0;
    while ki < |klasses|
      invariant 0 <= ki <= |klasses|
      invariant forall k, j :: 0 <= k < ki && 0 <= j < |m| ==>
                  c[k, j] == ClassCount(corpus, y, m, klasses[k], j, Pairs(y, corpus))
      invariant forall k, j :: ki <= k < |klasses| && 0 <= j < |m| ==> c[k, j] == 0
    {
      CountClass(c, ki, corpus, y, m, klasses[ki]);
      ki := ki + 1;
    }
  }

  /** Row `ki`: every (label, document) pair whose label is `klass`. */
  method CountClass(c: array2<nat>, ki: nat, corpus: seq<seq<string>>, y: seq<int>,
                    m: map<string, nat>, klass: int)
    requires ki < c.Length0 && c.Length1 == |m| && IdsInRange(m)
    requires forall j :: 0 <= j < |m| ==> c[ki, j] == 0
    modifies c
    ensures forall j :: 0 <= j < |m| ==> c[ki, j] == ClassCount(corpus, y, m, klass, j, Pairs(y, corpus))
    ensures forall k, j :: 0 <= k < c.Length0 && k != ki && 0 <= j < c.Length1 ==> c[k, j] == old(c[k, j])
  {
    var d := 0;
    while d < Pairs(y, corpus)
      invariant 0 <= d <= Pairs(y, corpus)
      invariant forall j :: 0 <= j < |m| ==> c[ki, j] == ClassCount(corpus, y, m, klass, j, d)
      invariant forall k, j :: 0 <= k < c.Length0 && k != ki && 0 <= j < c.Length1 ==> c[k, j] == old(c[k, j])
    {
      if y[d] == klass {
        AddDocument(c, ki, corpus[d], m);
      }
      d := d + 1;
    }
  }

  /** `for x in Counter(tokens).keys(): weight[ki, m[x]] += 1`, skipping unknown tokens. */
  method AddDocument(c: array2<nat>, ki: nat, doc: seq<string>, m: map<string, nat>)
    requires ki < c.Length0 && c.Length1 == |m| && IdsInRange(m)
    modifies c
    ensures forall j :: 0 <= j < |m| ==> c[ki, j] == old(c[ki, j]) + Hits(doc, m, j)
    ensures forall k, j :: 0 <= k < c.Length0 && k != ki && 0 <= j < c.Length1 ==> c[k, j] == old(c[k, j])
  {
    var u := Distinct(doc);
    var t := 0;
    while t < |u|
      invariant 0 <= t <= |u|
      invariant forall j: nat :: j < |m| ==> c[ki, j] == old(c[ki, j]) + Count(Known(m, u[..t]), j)
      invariant forall k, j :: 0 <= k < c.Length0 && k != ki && 0 <= j < c.Length1 ==> c[k, j] == old(c[k, j])
    {
      var x := u[t];
      ghost var seen := Known(m, u[..t]);
      assert u[..t + 1] == u[..t] + [x];
      KnownSnoc(m, u[..t], x);
      if x in m {
        assert Known(m, u[..t + 1]) == seen + [m[x]];
        forall j: nat | j < |m| ensures Count(seen + [m[x]], j) == Count(seen, j) + (if m[x] == j then 1 else 0) {
          CountSnoc(seen, m[x], j);
        }
        c[ki, m[x]] := c[ki, m[x]] + 1;
      } else {
        assert Known(m, u[..t + 1]) == seen;
      }
      t := t + 1;
    }
    assert u[..t] == u;
    forall j: nat | j < |m| ensures c[ki, j] == old(c[ki, j]) + Hits(doc, m, j) {
      assert Known(m, u[..t]) == Known(m, u);
    }
  }

  // ---------------------------------------------------------------------------
  // What the counts mean for a vocabulary built by the constructor

  /** With a well-formed vocabulary a document adds one to a token's column exactly when it
      contains the token, however often. */
  lemma HitsOfVocabulary(v: Vocab, doc: seq<string>, j: nat)
    requires WellFormed(v) && j < |v.words|
    ensures Hits(doc, v.ids, j) == if v.words[j] in doc then 1 else 0
  {
    var u := Distinct(doc);
    DistinctNoDup(doc);
    DistinctMembers(doc);
    KnownNoDup(v.ids, u);
    KnownMembers(v.ids, u, j);
    if v.words[j] in doc {
      CountNoDup(Known(v.ids, u), j);
    } else {
      CountNotIn(Known(v.ids, u), j);
    }
  }

  /** Each cell counts the documents of that class that contain the column's token. */
  lemma {:induction false} ClassCountIsClassDF(corpus: seq<seq<string>>, y: seq<int>, v: Vocab,
                                               klass: int, j: nat, n: nat)
    requires WellFormed(v) && j < |v.words| && n <= |corpus| && n <= |y|
    ensures ClassCount(corpus, y, v.ids, klass, j, n) == ClassDF(corpus, y, klass, v.words[j], n)
  {
    if n > 0 {
      ClassCountIsClassDF(corpus, y, v, klass, j, n - 1);
      HitsOfVocabulary(v, corpus[n - 1], j);
    }
  }

  /** Summed over distinct classes that cover every label, the per-class counts of a token
      are its document frequency over the same documents. */
  lemma {:induction false} ClassDFSum(corpus: seq<seq<string>>, y: seq<int>, klasses: seq<int>,
                                      x: string, n: nat)
    requires n <= |corpus| && n <= |y|
    requires NoDup(klasses) && forall d :: 0 <= d < n ==> y[d] in klasses
    ensures NatSum(seq(|klasses|, k requires 0 <= k < |klasses| => ClassDF(corpus, y, klasses[k], x, n)))
            == DF(corpus[..n], x)
  {
    var nk := |klasses|;
    if n == 0 {
      assert seq(nk, k requires 0 <= k < nk => ClassDF(corpus, y, klasses[k], x, 0)) == seq(nk, _ => 0);
      NatSumZeros(nk);
    } else {
      ClassDFSum(corpus, y, klasses, x, n - 1);
      var a := seq(nk, k requires 0 <= k < nk => ClassDF(corpus, y, klasses[k], x, n - 1));
      var b := seq(nk, k requires 0 <= k < nk => if y[n - 1] == klasses[k] && x in corpus[n - 1] then 1 else 0);
      NatSumPlus(a, b);
      assert seq(nk, k requires 0 <= k < nk => ClassDF(corpus, y, klasses[k], x, n)) == Plus(a, b);
      var hit := if x in corpus[n - 1] then 1 else 0;
      if x in corpus[n - 1] {
        assert b == Indicator(klasses, y[n - 1]);
        NatSumIndicator(klasses, y[n - 1]);
        assert y[n - 1] in klasses;
        CountNoDup(klasses, y[n - 1]);
      } else {
        assert b == seq(nk, _ => 0);
        NatSumZeros(nk);
      }
      assert NatSum(b) == hit;
      assert corpus[..n][..n - 1] == corpus[..n - 1];
      assert DF(corpus[..n], x) == DF(corpus[..n - 1], x) + hit;
    }
  }

  /** For the constructor's vocabulary, the column of token `x` lists, per class, the
      documents of that class containing `x`, and adds up to the document frequency of `x`
      over the documents that have a label. */
  lemma ColumnSumIsDF(corpus: seq<seq<string>>, y: seq<int>, v: Vocab, x: string)
    requires WellFormed(v) && x in v.ids
    ensures forall k :: 0 <= k < |Unique(y)| ==>
              Column(corpus, y, v.ids, Unique(y), v.ids[x])[k]
              == ClassDF(corpus, y, Unique(y)[k], x, Pairs(y, corpus))
    ensures NatSum(Column(corpus, y, v.ids, Unique(y), v.ids[x])) == DF(corpus[..Pairs(y, corpus)], x)
  {
    var klasses, n, j := Unique(y), Pairs(y, corpus), v.ids[x];
    forall k | 0 <= k < |klasses|
      ensures Column(corpus, y, v.ids, klasses, j)[k] == ClassDF(corpus, y, klasses[k], x, n)
    {
      ClassCountIsClassDF(corpus, y, v, klasses[k], j, n);
    }
    assert Column(corpus, y, v.ids, klasses, j)
        == seq(|klasses|, k requires 0 <= k < |klasses| => ClassDF(corpus, y, klasses[k], x, n));
    AscendingNoDup(klasses);
    forall d | 0 <= d < n ensures y[d] in klasses {
      assert y[d] in y;
    }
    ClassDFSum(corpus, y, klasses, x, n);
  }

  /** When every document has a label, each column adds up to the token's document frequency
      in the whole corpus. */
  lemma ColumnSumIsCorpusDF(corpus: seq<seq<string>>, y: seq<int>, v: Vocab, x: string)
    requires WellFormed(v) && x in v.ids && |y| >= |corpus|
    ensures NatSum(Column(corpus, y, v.ids, Unique(y), v.ids[x])) == DF(corpus, x)
  {
    ColumnSumIsDF(corpus, y, v, x);
    assert corpus[..Pairs(y, corpus)] == corpus;
  }

  // ---------------------------------------------------------------------------
  // From counts to a weight (microtc/weighting.py:243-249)

  /** `weight / weight.sum(axis=0)` for one column, with the 0/0 of an empty column
      replaced by the uniform `1.0 / nklasses`. */
  function Distribution(col: seq<nat>): (p: seq<real>)
    requires |col| > 0
    ensures |p| == |col|
  {
    var total := NatSum(col);
    if total == 0 then seq(|col|, _ => 1.0 / |col| as real) else Divided(col, total as real)
  }

  /** Every column is a probability distribution over the classes. */
  lemma DistributionIsProbability(col: seq<nat>)
    requires |col| > 0
    ensures RealSum(Distribution(col)) == 1.0
    ensures forall k :: 0 <= k < |col| ==> 0.0 <= Distribution(col)[k] <= 1.0
  {
    var n, total := |col| as real, NatSum(col);
    if total == 0 {
      RealSumConstant(|col|, 1.0 / n);
      assert n * (1.0 / n) == 1.0;
    } else {
      DividedSum(col, total as real);
      SelfQuotient(total as real, total as real);
      forall k | 0 <= k < |col| ensures 0.0 <= Distribution(col)[k] <= 1.0 {
        NatSumBound(col, k);
        QuotientBound(col[k] as real, total as real);
      }
    }
  }

  lemma QuotientBound(a: real, t: real)
    requires 0.0 <= a <= t && t > 0.0
    ensures 0.0 <= a / t <= 1.0
  {
  }

  /** `np.log2(p)` with the `-inf` of `p == 0` replaced by 0. */
  function LogOrZero(log2: real -> real, p: real): real {
    if p == 0.0 then 0.0 else log2(p)
  }

  /** The divisor of the logarithms: `log2(nklasses)` when there are more than two classes. */
  function Scale(log2: real -> real, nk: nat): real {
    if nk > 2 && log2(nk as real) != 0.0 then log2(nk as real) else 1.0
  }

  /** `weight * logc` for one column of probabilities `p`, with `nk` classes. */
  function Contributions(log2: real -> real, p: seq<real>, nk: nat): seq<real>
  {
    seq(|p|, k requires 0 <= k < |p| => p[k] * (LogOrZero(log2, p[k]) / Scale(log2, nk)))
  }

  /** `1 + (weight * logc).sum(axis=0)` for one column. */
  function EntropyWeight(log2: real -> real, col: seq<nat>): real
    requires |col| > 0
  {
    1.0 + RealSum(Contributions(log2, Distribution(col), |col|))
  }

  /** The weight never exceeds 1: every probability is at most 1, so its logarithm is at
      most 0, and the divisor `log2(nklasses)` is positive. */
  lemma EntropyWeightAtMostOne(log2: real -> real, col: seq<nat>)
    requires |col| > 0
    requires forall q :: 0.0 < q <= 1.0 ==> log2(q) <= 0.0
    requires |col| > 2 ==> log2(|col| as real) > 0.0
    ensures EntropyWeight(log2, col) <= 1.0
  {
    var p := Distribution(col);
    var s := Scale(log2, |col|);
    DistributionIsProbability(col);
    var t := Contributions(log2, p, |col|);
    forall k | 0 <= k < |t| ensures t[k] <= 0.0 {
      NonPositiveTerm(p[k], LogOrZero(log2, p[k]), s);
    }
    RealSumNonPositive(t);
  }

  lemma NonPositiveTerm(p: real, l: real, s: real)
    requires p >= 0.0 && l <= 0.0 && s > 0.0
    ensures p * (l / s) <= 0.0
  {
    assert l / s <= 0.0;
  }

  lemma {:induction false} RealSumNonPositive(t: seq<real>)
    requires forall k :: 0 <= k < |t| ==> t[k] <= 0.0
    ensures RealSum(t) <= 0.0
    decreases |t|
  {
    if t != [] {
      RealSumNonPositive(t[..|t| - 1]);
    }
  }

  /** A token met in one class only is a perfect class indicator: weight 1. */
  lemma OneClassWeight(log2: real -> real, col: seq<nat>, k0: nat)
    requires log2(1.0) == 0.0
    requires k0 < |col| && col[k0] > 0
    requires forall k :: 0 <= k < |col| && k != k0 ==> col[k] == 0
    ensures EntropyWeight(log2, col) == 1.0
  {
    var n := |col|;
    var p := Distribution(col);
    OneNonZeroSum(col, k0);
    assert NatSum(col) == col[k0];
    assert p[k0] == 1.0;
    assert Contributions(log2, p, n) == seq(n, _ => 0.0);
    RealSumConstant(n, 0.0);
  }

  lemma {:induction false} OneNonZeroSum(col: seq<nat>, k0: nat)
    requires k0 < |col|
    requires forall k :: 0 <= k < |col| && k != k0 ==> col[k] == 0
    ensures NatSum(col) == col[k0]
    decreases |col|
  {
    var init := col[..|col| - 1];
    if k0 < |col| - 1 {
      OneNonZeroSum(init, k0);
    } else if init != [] {
      assert init == seq(|init|, _ => 0);
      NatSumZeros(|init|);
    }
  }

  /** A token spread evenly over the classes (or met in none of them) carries no class
      information: weight 0, given the logarithm's identities at `nklasses`. */
  lemma EvenSpreadWeight(log2: real -> real, col: seq<nat>)
    requires |col| >= 2 && forall k :: 0 <= k < |col| ==> col[k] == col[0]
    requires log2(1.0 / |col| as real) == -log2(|col| as real)
    requires |col| == 2 ==> log2(2.0) == 1.0
    requires |col| > 2 ==> log2(|col| as real) != 0.0
    ensures EntropyWeight(log2, col) == 0.0
  {
    var n := |col|;
    var nr := n as real;
    var p := Distribution(col);
    EvenDistribution(col);
    var q := 1.0 / nr;
    assert q > 0.0;
    assert forall k :: 0 <= k < n ==> p[k] == q;
    var s := Scale(log2, n);
    assert s == log2(nr);
    var term := q * (log2(q) / s);
    forall k | 0 <= k < n ensures Contributions(log2, p, n)[k] == term {
      assert p[k] == q;
      assert LogOrZero(log2, p[k]) == log2(q);
    }
    assert Contributions(log2, p, n) == seq(n, _ => term);
    RealSumConstant(n, term);
    EvenSpreadArithmetic(nr, log2(nr));
  }

  lemma EvenSpreadArithmetic(nr: real, l: real)
    requires nr > 0.0 && l != 0.0
    ensures 1.0 + nr * ((1.0 / nr) * (-l / l)) == 0.0
  {
    assert -l / l == -1.0;
    assert nr * (1.0 / nr) == 1.0;
  }

  lemma EvenDistribution(col: seq<nat>)
    requires |col| >= 1 && forall k :: 0 <= k < |col| ==> col[k] == col[0]
    ensures forall k :: 0 <= k < |col| ==> Distribution(col)[k] == 1.0 / |col| as real
  {
    var n := |col|;
    assert col == seq(n, _ => col[0]);
    NatSumConstant(n, col[0]);
    if col[0] != 0 {
      forall k | 0 <= k < n ensures Distribution(col)[k] == 1.0 / n as real {
        EvenQuotient(col[0] as real, n as real);
      }
    }
  }

  lemma EvenQuotient(c: real, n: real)
    requires c > 0.0 && n > 0.0
    ensures c / (n * c) == 1.0 / n
  {
  }

  lemma {:induction false} NatSumConstant(n: nat, c: nat)
    ensures NatSum(seq(n, _ => c)) == n * c
  {
    if n > 0 {
      NatSumConstant(n - 1, c);
      assert seq(n, _ => c)[..n - 1] == seq(n - 1, _ => c);
    }
  }

  // ---------------------------------------------------------------------------
  // The static method

  /** `Entropy.entropy(corpus, docs, word2id)`, the labels of `docs` given as `y`. With no
      labels `1.0 / nklasses` divides by zero and no weights are produced. */
  method EntropyWeights(corpus: seq<seq<string>>, y: seq<int>, m: map<string, nat>, log2: real -> real)
    returns (w: Option<seq<real>>)
    requires IdsInRange(m)
    ensures w.None? <==> y == []
    ensures w.Some? ==> |w.value| == |m| && forall j :: 0 <= j < |m| ==>
              w.value[j] == EntropyWeight(log2, Column(corpus, y, m, Unique(y), j))
  {
    var klasses := Unique(y);
    if |klasses| == 0 {
      return None;
    }
    var c := CountMatrix(corpus, y, m, klasses);
    var ws: seq<real> := [];
    var j := 0;
    while j < |m|
      invariant 0 <= j <= |m|
      invariant |ws| == j
      invariant forall i :: 0 <= i < j ==> ws[i] == EntropyWeight(log2, Column(corpus, y, m, klasses, i))
    {
      var col := seq(|klasses|, k requires 0 <= k < |klasses| reads c => c[k, j]);
      assert col == Column(corpus, y, m, klasses, j);
      ws := ws + [EntropyWeight(log2, col)];
      j := j + 1;
    }
    w := Some(ws);
  }
}
