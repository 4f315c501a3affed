/** The vocabulary that `TFIDF.__init__` builds (microtc/weighting.py:43-70): document
    frequencies counted over a corpus of token lists, ids handed out in first-encounter
    order, and the optional minimum / maximum document-frequency filter that renumbers
    the surviving tokens densely. */
module Vocabulary {
  import opened Counting

  /** The corpus read as one token stream, document after document. */
  function Flatten(docs: seq<seq<string>>): seq<string>
    decreases |docs|
  {
    if docs == [] then [] else Flatten(docs[..|docs| - 1]) + docs[|docs| - 1]
  }

  /** Document frequency: the number of documents that contain `x` at least once. */
  function DF(docs: seq<seq<string>>, x: string): nat
    decreases |docs|
  {
    if docs == [] then 0
    else DF(docs[..|docs| - 1], x) + (if x in docs[|docs| - 1] then 1 else 0)
  }

  /** The two dicts of the constructor. `ids` is `w2id` (token to id) and `df` is `weight`
      (id to document frequency); `words` is the insertion order of `w2id`, so that
      `words[id]` is the token with that id. */
  datatype Vocab = Vocab(words: seq<string>, ids: map<string, nat>, df: map<nat, nat>)

  /** Ids are exactly 0 .. |words|-1, `ids` and `words` are inverse to each other, the
      weight table has one entry per id, and every entry counts at least one document. */
  ghost predicate WellFormed(v: Vocab) {
    && NoDup(v.words)
    && (forall k :: 0 <= k < |v.words| ==> v.words[k] in v.ids && v.ids[v.words[k]] == k)
    && (forall x :: x in v.ids ==> v.ids[x] < |v.words| && v.words[v.ids[x]] == x)
    && (forall k: nat :: k in v.df <==> k < |v.words|)
    && (forall k :: k in v.df ==> v.df[k] >= 1)
  }

  /** The dict that numbers `ws` by position. */
  function IndexMap(ws: seq<string>): (m: map<string, nat>) {
    map x | x in ws :: FirstIndex(ws, x)
  }

  /** The vocabulary before any filtering: every token of the corpus, numbered in the
      order in which it is first met, with its document frequency. */
  function Counted(docs: seq<seq<string>>): Vocab {
    var ws := Distinct(Flatten(docs));
    DistinctNoDup(Flatten(docs));
    Vocab(ws, IndexMap(ws), map k: nat | k < |ws| :: DF(docs, ws[k]))
  }

  /** The counting loop of microtc/weighting.py:44-55: for every document, every distinct
      token (the keys of `Counter(tokens)`) either gets the next free id with frequency 1
      or has its frequency incremented. */
  method CountDocumentFrequency(docs: seq<seq<string>>) returns (v: Vocab)
    ensures v == Counted(docs)
  {
    var words: seq<string> := [];
    var ids: map<string, nat> := map[];
    var df: map<nat, nat> := map[];
    var i := 0;
    while i < |docs|
      invariant 0 <= i <= |docs|
      invariant words == Distinct(Flatten(docs[..i]))
      invariant WellFormed(Vocab(words, ids, df))
      invariant Tallied(words, df, docs[..i], [])
    {
      ghost var before := words;
      DistinctMembers(Flatten(docs[..i]));
      words, ids, df := CountDocument(words, ids, df, docs[..i], docs[i]);
      DocStep(docs, i);
      AppendNewConcat([], Flatten(docs[..i]), docs[i]);
      i := i + 1;
    }
    assert docs[..i] == docs;
    v := Vocab(words, ids, df);
    CountedCharacterized(docs, v);
  }

  /** One pass of the inner loop: the distinct tokens of `doc`, given the vocabulary built
      from the documents `prior` before it. */
  method CountDocument(words: seq<string>, ids: map<string, nat>, df: map<nat, nat>,
                       ghost prior: seq<seq<string>>, doc: seq<string>)
    returns (words': seq<string>, ids': map<string, nat>, df': map<nat, nat>)
    requires WellFormed(Vocab(words, ids, df)) && Tallied(words, df, prior, [])
    requires forall x :: x in words <==> x in Flatten(prior)
    ensures words' == AppendNew(words, doc)
    ensures WellFormed(Vocab(words', ids', df')) && Tallied(words', df', prior + [doc], [])
  {
    var u := Distinct(doc);
    DistinctNoDup(doc);
    words', ids', df' := words, ids, df;
    var t := 0;
    while t < |u|
      invariant 0 <= t <= |u|
      invariant words' == AppendNew(words, u[..t])
      invariant WellFormed(Vocab(words', ids', df'))
      invariant Tallied(words', df', prior, u[..t])
    {
      var x := u[t];
      assert u[..t + 1] == u[..t] + [x];
      assert x !in u[..t];
      if x in ids' {
        var id := ids'[x];
        IncrementWellFormed(words', ids', df', id);
        TallyKnown(words', ids', df', prior, u[..t], x);
        df' := df'[id := df'[id] + 1];
      } else {
        AppendNewMembers(words, u[..t], x);
        DFZero(prior, x);
        InsertWellFormed(words', ids', df', x);
        TallyNew(words', ids', df', prior, u[..t], x);
        ids' := ids'[x := |words'|];
        df' := df'[|words'| := 1];
        words' := words' + [x];
      }
      t := t + 1;
    }
    assert u[..t] == u;
    DistinctMembers(doc);
    TallyDocument(words', df', prior, u, doc);
    AppendNewDistinct(words, doc);
  }

  /** Every id counts the documents of `prior` holding its token, plus one if the token is
      among the distinct tokens `seen` so far in the current document. */
  ghost predicate Tallied(words: seq<string>, df: map<nat, nat>, prior: seq<seq<string>>, seen: seq<string>) {
    forall k :: 0 <= k < |words| ==>
      k in df && df[k] == DF(prior, words[k]) + (if words[k] in seen then 1 else 0)
  }

  lemma TallyKnown(words: seq<string>, ids: map<string, nat>, df: map<nat, nat>,
                   prior: seq<seq<string>>, seen: seq<string>, x: string)
    requires WellFormed(Vocab(words, ids, df)) && Tallied(words, df, prior, seen)
    requires x in ids && x !in seen
    ensures Tallied(words, df[ids[x] := df[ids[x]] + 1], prior, seen + [x])
  {
  }

  lemma TallyNew(words: seq<string>, ids: map<string, nat>, df: map<nat, nat>,
                 prior: seq<seq<string>>, seen: seq<string>, x: string)
    requires WellFormed(Vocab(words, ids, df)) && Tallied(words, df, prior, seen)
    requires x !in ids && x !in seen && DF(prior, x) == 0
    ensures Tallied(words + [x], df[|words| := 1], prior, seen + [x])
  {
    assert x !in words;
  }

  lemma TallyDocument(words: seq<string>, df: map<nat, nat>, prior: seq<seq<string>>,
                      u: seq<string>, doc: seq<string>)
    requires Tallied(words, df, prior, u)
    requires forall x :: x in u <==> x in doc
    ensures Tallied(words, df, prior + [doc], [])
  {
    assert (prior + [doc])[..|prior|] == prior;
  }

  lemma IncrementWellFormed(words: seq<string>, ids: map<string, nat>, df: map<nat, nat>, id: nat)
    requires WellFormed(Vocab(words, ids, df)) && id in df
    ensures WellFormed(Vocab(words, ids, df[id := df[id] + 1]))
  {
  }

  lemma InsertWellFormed(words: seq<string>, ids: map<string, nat>, df: map<nat, nat>, x: string)
    requires WellFormed(Vocab(words, ids, df)) && x !in ids
    ensures WellFormed(Vocab(words + [x], ids[x := |words|], df[|words| := 1]))
  {
    assert x !in words;
  }

  /** A well-formed vocabulary listing the corpus's tokens in first-encounter order, with
      their document frequencies, is the one `Counted` describes. */
  lemma CountedCharacterized(docs: seq<seq<string>>, v: Vocab)
    requires WellFormed(v) && v.words == Distinct(Flatten(docs))
    requires forall k :: 0 <= k < |v.words| ==> v.df[k] == DF(docs, v.words[k])
    ensures v == Counted(docs)
  {
    SameIds(docs, v);
    SameDf(docs, v);
  }

  lemma SameIds(docs: seq<seq<string>>, v: Vocab)
    requires WellFormed(v) && v.words == Distinct(Flatten(docs))
    ensures v.ids == Counted(docs).ids
  {
    var ids := IndexMap(v.words);
    assert v.ids.Keys == ids.Keys;
    forall x | x in v.ids ensures v.ids[x] == ids[x] {
      FirstIndexNoDup(v.words, v.ids[x]);
    }
  }

  lemma SameDf(docs: seq<seq<string>>, v: Vocab)
    requires WellFormed(v) && v.words == Distinct(Flatten(docs))
    requires forall k :: 0 <= k < |v.words| ==> v.df[k] == DF(docs, v.words[k])
    ensures v.df == Counted(docs).df
  {
    var df := map k: nat | k < |v.words| :: DF(docs, v.words[k]);
    assert v.df.Keys == df.Keys;
  }

  lemma DocStep(docs: seq<seq<string>>, i: nat)
    requires i < |docs|
    ensures docs[..i + 1] == docs[..i] + [docs[i]]
    ensures Flatten(docs[..i + 1]) == Flatten(docs[..i]) + docs[i]
  {
    assert docs[..i + 1][..i] == docs[..i];
  }

  /** A token of no document has document frequency zero, and one of some document a
      positive frequency bounded by the corpus size. */
  lemma {:induction false} DFBounds(docs: seq<seq<string>>, x: string)
    ensures DF(docs, x) <= |docs|
    ensures DF(docs, x) >= 1 <==> x in Flatten(docs)
    decreases |docs|
  {
    if docs != [] {
      DFBounds(docs[..|docs| - 1], x);
    }
  }

  lemma DFZero(docs: seq<seq<string>>, x: string)
    requires x !in Flatten(docs)
    ensures DF(docs, x) == 0
  {
    DFBounds(docs, x);
  }

  // ---------------------------------------------------------------------------
  // Properties of the unfiltered vocabulary

  /** Before filtering the ids are exactly 0 .. n-1, the vocabulary is exactly the set of
      tokens of the corpus, and the weight of each id is the document frequency of its
      token, at least one and at most the number of documents. */
  lemma CountedIsVocabulary(docs: seq<seq<string>>)
    ensures WellFormed(Counted(docs))
    ensures forall x :: x in Counted(docs).ids <==> x in Flatten(docs)
    ensures forall x :: x in Counted(docs).ids ==>
              Counted(docs).df[Counted(docs).ids[x]] == DF(docs, x) <= |docs|
  {
    var v := Counted(docs);
    DistinctNoDup(Flatten(docs));
    DistinctMembers(Flatten(docs));
    forall x | x in v.words ensures 1 <= DF(docs, x) <= |docs| {
      DFBounds(docs, x);
    }
    forall k | 0 <= k < |v.words| ensures v.ids[v.words[k]] == k {
      FirstIndexNoDup(v.words, k);
    }
  }

  /** Ids follow first-encounter order: a token gets a smaller id than another exactly
      when it occurs first in the corpus read document after document. */
  lemma CountedFirstEncounterOrder(docs: seq<seq<string>>, x: string, y: string)
    requires x in Counted(docs).ids && y in Counted(docs).ids
    ensures x in Flatten(docs) && y in Flatten(docs)
    ensures Counted(docs).ids[x] < Counted(docs).ids[y]
            <==> FirstIndex(Flatten(docs), x) < FirstIndex(Flatten(docs), y)
  {
    var v := Counted(docs);
    CountedIsVocabulary(docs);
    var i, j := v.ids[x], v.ids[y];
    if i < j {
      DistinctFirstOccurrenceOrder(Flatten(docs), i, j);
    } else if j < i {
      DistinctFirstOccurrenceOrder(Flatten(docs), j, i);
    }
  }

  /** The weight table's keys are exactly the ids, and there are as many ids as tokens
      and as weights (`len(wordWeight) == len(_w2id)`, `num_terms == len(word2id)`). */
  lemma KeySets(v: Vocab)
    requires WellFormed(v)
    ensures v.ids.Values == v.df.Keys
    ensures |v.ids| == |v.words| == |v.df|
  {
    forall k | k in v.df.Keys ensures k in v.ids.Values {
      assert v.words[k] in v.ids;
    }
    var n := |v.words|;
    assert v.ids.Keys == set k | 0 <= k < n :: v.words[k];
    IndexSetSize(v.words);
    var iota := seq(n, i => i);
    assert v.df.Keys == set k | 0 <= k < n :: iota[k] by {
      forall k | k in v.df.Keys ensures k in set j | 0 <= j < n :: iota[j] {
        assert iota[k] == k;
      }
    }
    IndexSetSize(iota);
  }

  lemma {:induction false} IndexSetSize<T>(ws: seq<T>)
    requires NoDup(ws)
    ensures |set k | 0 <= k < |ws| :: ws[k]| == |ws|
    decreases |ws|
  {
    if ws != [] {
      var init := ws[..|ws| - 1];
      IndexSetSize(init);
      var s0 := set k | 0 <= k < |init| :: init[k];
      assert (set k | 0 <= k < |ws| :: ws[k]) == s0 + {ws[|ws| - 1]};
      assert ws[|ws| - 1] !in s0;
    }
  }

  // ---------------------------------------------------------------------------
  // Filtering (microtc/weighting.py:56-70)

  /** Python's `int()` on a float: truncation toward zero. */
  function Trunc(x: real): (r: int)
    ensures x >= 0.0 ==> r as real <= x < r as real + 1.0
    ensures x < 0.0 ==> r as real - 1.0 < x <= r as real
  {
    if x >= 0.0 then x.Floor else -((-x).Floor)
  }

  /** Filtering happens when a minimum above 0 or a maximum other than 1 was given. */
  predicate FilterActive(minF: real, maxF: real) {
    minF > 0.0 || maxF != 1.0
  }

  /** The effective minimum: a value below 1 is a proportion of the `n` documents,
      truncated, and never below 1. */
  function MinThreshold(n: nat, minF: real): (t: real)
    ensures t >= 1.0
    ensures minF >= 1.0 ==> t == minF
  {
    if minF < 1.0 then
      var t := Trunc(n as real * minF);
      if t < 1 then 1.0 else t as real
    else minF
  }

  /** A minimum below 1 is the truncated proportion `n * minF`, floored at 1; so the
      minimum is 1 whenever that product is below 2, whatever its sign. */
  lemma MinThresholdOfProportion(n: nat, minF: real)
    requires minF < 1.0
    ensures MinThreshold(n, minF) ==
              if n as real * minF < 2.0 then 1.0 else (n as real * minF).Floor as real
  {
  }

  /** The effective maximum: a value below 1 is a proportion of the `n` documents, truncated
      and, unlike the minimum, not raised to 1; so a proportion below one document gives a
      maximum of at most 0. */
  function MaxThreshold(n: nat, maxF: real): (t: real)
    ensures maxF >= 1.0 ==> t == maxF
    ensures maxF < 1.0 && n as real * maxF >= 0.0 ==> t <= n as real * maxF < t + 1.0
    ensures maxF < 1.0 && n as real * maxF < 1.0 ==> t <= 0.0
  {
    if maxF < 1.0 then Trunc(n as real * maxF) as real else maxF
  }

  /** The effective thresholds of an active filter: keep a document frequency strictly
      above `lo` and, when `upper`, strictly below `hi`. */
  datatype Bounds = Bounds(lo: real, upper: bool, hi: real)

  function Thresholds(n: nat, minF: real, maxF: real): (b: Bounds)
    ensures b.lo >= 1.0
    ensures b.upper <==> maxF != 1.0
  {
    Bounds(MinThreshold(n, minF), maxF != 1.0, MaxThreshold(n, maxF))
  }

  predicate Within(d: nat, b: Bounds) {
    d as real > b.lo && (b.upper ==> d as real < b.hi)
  }

  /** The surviving tokens among the first `m` ids, in ascending id order. */
  function Survivors(v: Vocab, b: Bounds, m: nat): seq<string>
    requires WellFormed(v) && m <= |v.words|
  {
    if m == 0 then []
    else Survivors(v, b, m - 1) + (if Within(v.df[m - 1], b) then [v.words[m - 1]] else [])
  }

  lemma {:induction false} SurvivorsAscending(v: Vocab, b: Bounds, m: nat)
    requires WellFormed(v) && m <= |v.words|
    ensures AscendingIds(v, Survivors(v, b, m))
    ensures forall a :: 0 <= a < |Survivors(v, b, m)| ==> v.ids[Survivors(v, b, m)[a]] < m
  {
    if m > 0 {
      SurvivorsAscending(v, b, m - 1);
    }
  }

  lemma {:induction false} SurvivorsMembers(v: Vocab, b: Bounds, m: nat, x: string)
    requires WellFormed(v) && m <= |v.words|
    ensures x in Survivors(v, b, m) <==> x in v.ids && v.ids[x] < m && Within(v.df[v.ids[x]], b)
  {
    if m > 0 {
      SurvivorsMembers(v, b, m - 1, x);
    }
  }

  /** `s` lists tokens of `v` in strictly ascending id order. */
  ghost predicate AscendingIds(v: Vocab, s: seq<string>) {
    && (forall a :: 0 <= a < |s| ==> s[a] in v.ids)
    && (forall a, b :: 0 <= a < b < |s| ==> v.ids[s[a]] < v.ids[s[b]])
  }

  /** Dense renumbering of `s`, a list of tokens of `v` in ascending original id: the
      token at position k gets id k and keeps its document frequency. */
  function Renumber(v: Vocab, s: seq<string>): (r: Vocab)
    requires WellFormed(v) && AscendingIds(v, s)
    ensures WellFormed(r)
  {
    assert NoDup(s) by {
      forall a, b | 0 <= a < b < |s| ensures s[a] != s[b] {
        assert v.ids[s[a]] < v.ids[s[b]];
      }
    }
    var r := Vocab(s, IndexMap(s), map k: nat | k < |s| :: v.df[v.ids[s[k]]]);
    forall k | 0 <= k < |s| ensures r.ids[s[k]] == k {
      FirstIndexNoDup(s, k);
    }
    r
  }

  /** The tokens whose frequency lies within `b`, renumbered densely by original id. */
  function Select(v: Vocab, b: Bounds): (r: Vocab)
    requires WellFormed(v)
    ensures WellFormed(r)
  {
    SurvivorsAscending(v, b, |v.words|);
    Renumber(v, Survivors(v, b, |v.words|))
  }

  /** The vocabulary after the optional filter of microtc/weighting.py:56-70. */
  function Filter(v: Vocab, n: nat, minF: real, maxF: real): (r: Vocab)
    requires WellFormed(v)
    ensures WellFormed(r)
  {
    if FilterActive(minF, maxF) then Select(v, Thresholds(n, minF, maxF)) else v
  }

  /** A token survives exactly when it was in the vocabulary and, if the filter is active,
      its document frequency lies strictly between the effective thresholds. */
  lemma FilterMembers(v: Vocab, n: nat, minF: real, maxF: real, x: string)
    requires WellFormed(v)
    ensures x in Filter(v, n, minF, maxF).ids <==>
              x in v.ids && (FilterActive(minF, maxF) ==> Within(v.df[v.ids[x]], Thresholds(n, minF, maxF)))
  {
    if FilterActive(minF, maxF) {
      SurvivorsMembers(v, Thresholds(n, minF, maxF), |v.words|, x);
    }
  }

  /** A maximum proportion that stands for less than one document removes every token, since
      every document frequency is at least 1. */
  lemma SmallMaximumEmpties(v: Vocab, n: nat, minF: real, maxF: real)
    requires WellFormed(v) && maxF < 1.0 && n as real * maxF < 1.0
    ensures Filter(v, n, minF, maxF).words == []
  {
    var r := Filter(v, n, minF, maxF);
    if r.words != [] {
      assert r.words[0] in r.ids;
      SmallMaximumRemoves(v, n, minF, maxF, r.words[0]);
    }
  }

  lemma SmallMaximumRemoves(v: Vocab, n: nat, minF: real, maxF: real, x: string)
    requires WellFormed(v) && maxF < 1.0 && n as real * maxF < 1.0
    ensures x !in Filter(v, n, minF, maxF).ids
  {
    FilterMembers(v, n, minF, maxF, x);
    if x in v.ids {
      assert v.ids[x] in v.df;
      assert Thresholds(n, minF, maxF).hi <= 0.0;
    }
  }

  /** Renumbering keeps each survivor's document frequency. */
  lemma FilterKeepsDf(v: Vocab, n: nat, minF: real, maxF: real, x: string)
    requires WellFormed(v)
    requires x in Filter(v, n, minF, maxF).ids
    ensures x in v.ids
    ensures Filter(v, n, minF, maxF).df[Filter(v, n, minF, maxF).ids[x]] == v.df[v.ids[x]]
  {
    if FilterActive(minF, maxF) {
      SelectKeepsDf(v, Thresholds(n, minF, maxF), x);
    }
  }

  /** Renumbering keeps the relative order of the original ids (ascending original id,
      i.e. first-encounter order, not frequency order). */
  lemma FilterKeepsOrder(v: Vocab, n: nat, minF: real, maxF: real, x: string, y: string)
    requires WellFormed(v)
    requires x in Filter(v, n, minF, maxF).ids && y in Filter(v, n, minF, maxF).ids
    ensures x in v.ids && y in v.ids
    ensures Filter(v, n, minF, maxF).ids[x] < Filter(v, n, minF, maxF).ids[y] <==> v.ids[x] < v.ids[y]
  {
    if FilterActive(minF, maxF) {
      SelectKeepsOrder(v, Thresholds(n, minF, maxF), x, y);
    }
  }

  lemma SelectKeepsDf(v: Vocab, b: Bounds, x: string)
    requires WellFormed(v) && x in Select(v, b).ids
    ensures x in v.ids && Select(v, b).df[Select(v, b).ids[x]] == v.df[v.ids[x]]
  {
    SurvivorsAscending(v, b, |v.words|);
    RenumberKeepsDf(v, Survivors(v, b, |v.words|), x);
  }

  lemma SelectKeepsOrder(v: Vocab, b: Bounds, x: string, y: string)
    requires WellFormed(v) && x in Select(v, b).ids && y in Select(v, b).ids
    ensures x in v.ids && y in v.ids
    ensures Select(v, b).ids[x] < Select(v, b).ids[y] <==> v.ids[x] < v.ids[y]
  {
    SurvivorsAscending(v, b, |v.words|);
    RenumberKeepsOrder(v, Survivors(v, b, |v.words|), x, y);
  }

  lemma RenumberKeepsDf(v: Vocab, s: seq<string>, x: string)
    requires WellFormed(v) && AscendingIds(v, s)
    requires x in Renumber(v, s).ids
    ensures x in v.ids
    ensures Renumber(v, s).df[Renumber(v, s).ids[x]] == v.df[v.ids[x]]
  {
    var r := Renumber(v, s);
    assert s[r.ids[x]] == x;
  }

  lemma RenumberKeepsOrder(v: Vocab, s: seq<string>, x: string, y: string)
    requires WellFormed(v) && AscendingIds(v, s)
    requires x in Renumber(v, s).ids && y in Renumber(v, s).ids
    ensures x in v.ids && y in v.ids
    ensures Renumber(v, s).ids[x] < Renumber(v, s).ids[y] <==> v.ids[x] < v.ids[y]
  {
    var r := Renumber(v, s);
    var a, b := r.ids[x], r.ids[y];
    assert s[a] == x && s[b] == y;
    if a < b {
      assert v.ids[s[a]] < v.ids[s[b]];
    } else if b < a {
      assert v.ids[s[b]] < v.ids[s[a]];
    }
  }
}
