# microtc weighting schemes in Dafny

This project models the term-weighting core of microtc, `microtc/weighting.py`. That
file has three vector-space models:

- `TFIDF` builds a vocabulary from a tokenised corpus. It counts the document frequency
  of each token, optionally drops tokens that are too rare or too common, and renumbers
  the rest densely. It then stores `log2(N / df)` as each token's weight. `doc2weight`
  turns a token list into ids, normalised term frequencies and weights, and
  `__getitem__` returns the L2-normalised `tf * idf` vector.
- `TF` keeps the same vocabulary, weights every token 1 and returns the term frequencies.
- `Entropy` reweights the vocabulary using document labels. For every token it counts
  the documents of each class that contain the token and normalises those counts to a
  distribution `p` over the classes. The weight is `1 + sum p log2 p`, where each
  `log2 p` is first divided by `log2(#classes)` when there are more than two classes.
  `__getitem__` returns these weights.

The project has four modules:

- `Counting` (`counting.dfy`): generic helpers for the distinct elements of a
  list in first-occurrence order (`Counter(...).keys()`), occurrence counts, the
  in-vocabulary ids of a token list, sums, and relative frequencies.
- `Vocabulary` (`vocabulary.dfy`): the counting loop of `TFIDF.__init__`, as an
  imperative method proved against a functional specification `Counted`. Also the
  threshold arithmetic and the filter with its dense renumbering.
- `ClassEntropy` (`entropy.dfy`): `Entropy.entropy`. It covers `np.unique` on the
  labels, the class-by-token count matrix filled in place in an `array2`, the per-column
  normalisation and the entropy weight.
- `Weighting` (`weighting.dfy`): one `class Model` whose `scheme` field says whether
  the object is a `TFIDF`, a `TF` or an `Entropy`. It has the fields `_ndocs`, `_w2id`,
  `_weight` and `_num_terms`, the constructor, the property setters, `doc2weight` and
  the three `__getitem__` methods.

numpy's `log2` and `sqrt` are parameters of the model (`Numerics`). Where a property
needs a fact about them, such as `log2(1) == 0` or `sqrt(s) * sqrt(s) == s`, that fact
is a precondition of the lemma. Floats are modelled as reals. A division by a zero norm
yields `NonFinite` (NaN).

Where the code and its documentation differ, the model follows the code:

- A proportional minimum or maximum (`< 1`) becomes a count through Python's `int()`,
  which truncates. It is not rounded up.
- Both comparisons are strict: a token is kept when `df > min` and `df < max`.
- After filtering, the surviving tokens are renumbered in the order of their original
  ids, which is first-encounter order. Document frequency does not affect the order.
- `TFIDF.__getitem__` does not guard its division. A document with no known token gives
  an empty vector. A document whose products are all zero gives NaN values, not an
  empty vector.
- `Entropy` needs labels. Without `X` its constructor fails an assertion. With an empty
  label list, `1.0 / nklasses` divides by zero. Both cases are modelled as no object
  (`None`).

## Model

| member | source | states |
|---|---|---|
| Vocabulary.CountDocumentFrequency | microtc/weighting.py:44-55 | the counting loop produces exactly `Counted(docs)`: the distinct tokens of the corpus in first-encounter order, each with its document frequency |
| Vocabulary.CountDocument | microtc/weighting.py:48-55 | one pass of the inner loop appends the document's new tokens to the vocabulary in first-occurrence order, keeps it well formed, and adds one to the count of every token the document holds |
| Vocabulary.CountedIsVocabulary | microtc/weighting.py:44-55 | before filtering, ids are exactly 0..n-1 and inverse to the token list; the vocabulary is exactly the set of corpus tokens; each weight is the token's document frequency, between 1 and the number of documents |
| Vocabulary.CountedFirstEncounterOrder | microtc/weighting.py:47-54 | a token has a smaller id than another exactly when it occurs earlier in the corpus read document after document |
| Vocabulary.DFBounds | microtc/weighting.py:48-55 | a document frequency is at most the number of documents, and at least 1 exactly when the token occurs in the corpus |
| Vocabulary.KeySets | microtc/weighting.py:70-72 | the weight table's keys are exactly the ids of `w2id`, and there are as many tokens as ids as weights (`len(wordWeight) == len(_w2id)`) |
| Vocabulary.Trunc | microtc/weighting.py:58 | Python's `int()` on a float truncates toward zero: within one below a non-negative value, within one above a negative one |
| Vocabulary.MinThreshold | microtc/weighting.py:57-60 | the effective minimum is never below 1, and a minimum of at least 1 is used as given |
| Vocabulary.MinThresholdOfProportion | microtc/weighting.py:57-60 | a proportional minimum is `floor(N * min)` when that is at least 2, and 1 otherwise, including negative proportions |
| Vocabulary.MaxThreshold | microtc/weighting.py:63-65 | a maximum of at least 1 is used as given; a proportion below 1 becomes the truncated `N * max`, which, unlike the minimum, is not raised to 1, so a proportion under one document gives a maximum of at most 0 |
| Vocabulary.SmallMaximumEmpties | microtc/weighting.py:63-66 | a maximum proportion that stands for less than one document removes every token |
| Vocabulary.Thresholds | microtc/weighting.py:56-66 | the lower bound is at least 1, and the upper bound applies exactly when the maximum differs from 1 |
| Vocabulary.SurvivorsMembers | microtc/weighting.py:62-66 | a token survives exactly when its df lies strictly within the bounds |
| Vocabulary.SurvivorsAscending | microtc/weighting.py:62-67 | the survivors are listed in strictly ascending original id |
| Vocabulary.Renumber | microtc/weighting.py:67-70 | dense renumbering of tokens listed in ascending id yields a well-formed vocabulary |
| Vocabulary.Filter | microtc/weighting.py:56-70 | the filter's output is a well-formed vocabulary: dense ids 0..n-1, one weight per id |
| Vocabulary.FilterMembers | microtc/weighting.py:56-66 | a token is kept exactly when it was in the vocabulary and, if the filter is active, its df lies strictly between the effective minimum and maximum |
| Vocabulary.FilterKeepsDf | microtc/weighting.py:68-70 | a kept token's new id carries the document frequency of its old id |
| Vocabulary.FilterKeepsOrder | microtc/weighting.py:67-69 | new ids are in the same relative order as the old ids |
| Weighting.Fitted | microtc/weighting.py:43-70 | the vocabulary the constructor leaves is well formed |
| Weighting.FittedMembers | microtc/weighting.py:43-70 | a token is in `word2id` exactly when it occurs in the corpus and, if the filter is active, its df passes the thresholds; its count is its df |
| Weighting.FittedOrder | microtc/weighting.py:44-70 | fitted ids follow the order in which tokens are first met in the corpus, whatever the filter removed |
| Weighting.Model.Init | microtc/weighting.py:43-72 | `_ndocs` is the corpus size, `word2id` is the fitted vocabulary and `_num_terms` its size; each id's weight is the scheme's setter applied to its df; the object is consistent |
| Weighting.Model.SetWord2Id | microtc/weighting.py:86-89 | the map is stored and `_num_terms` becomes its size; nothing else changes |
| Weighting.Model.SetWordWeight | microtc/weighting.py:104-105 | the weight of every key is the scheme's weight of its value: `log2(N / v)` (TFIDF, lines 104-105), 1 (TF, line 162) or the value itself (Entropy given a dict, lines 209-210) |
| Weighting.Model.SetEntropyWeights | microtc/weighting.py:211-212 | the `Entropy` setter given an array maps exactly the positions 0..n-1 to the array's values |
| Weighting.Weigh | microtc/weighting.py:115-130 | the three lists of `doc2weight` have one entry per id, and each weight is the stored weight of its id |
| Weighting.Model.Doc2Weight | microtc/weighting.py:115-130 | the loop that collects known ids, then the counting, returns exactly `Weigh` of the current `word2id` and weights |
| Weighting.BagIds | microtc/weighting.py:118-126 | the returned ids have no duplicates; an id appears exactly when some token of the document maps to it; ids come in the order of first occurrence |
| Weighting.BagFrequencies | microtc/weighting.py:124-128 | the counts add up to the number of in-vocabulary tokens, and the term frequencies add up to 1 when there is one |
| Counting.TermFrequenciesSumToOne | microtc/weighting.py:127-128 | `tf / tf.sum()` over a non-empty list adds up to 1 |
| Counting.CountsOfDistinctSum | microtc/weighting.py:124 | the counts of `Counter(lst)` add up to the length of `lst` |
| Counting.DistinctFirstOccurrenceOrder | microtc/weighting.py:124 | the keys of a `Counter` come in order of first occurrence |
| Counting.KnownMembers | microtc/weighting.py:118-123 | an id is collected exactly when some token maps to it; unknown tokens are skipped |
| Weighting.Model.Get | microtc/weighting.py:142-145 | `__getitem__` returns the vector of the object's class (TFIDF lines 142-145, TF lines 174-176, Entropy lines 261-263) for the bag of `doc2weight` |
| Weighting.VectorPairsIds | microtc/weighting.py:143 | every class's vector has one pair per id of `doc2weight`, in the same order (also lines 175 and 262) |
| Weighting.Quotient | microtc/weighting.py:145 | `x / n` is a number exactly when the norm is not zero |
| Weighting.TfIdfUnitNorm | microtc/weighting.py:142-145 | with a non-zero norm every value is a number and the squared values add up to 1 |
| Weighting.TfIdfZeroNorm | microtc/weighting.py:144-145 | when every `tf * idf` product is zero, every value is NaN |
| Weighting.TfVectorSumsToOne | microtc/weighting.py:174-176 | the TF vector of a document with a known token is a distribution: the values add up to 1 |
| Weighting.EntropyVectorIsWeight | microtc/weighting.py:261-263 | the Entropy vector pairs each id with that id's stored weight |
| Weighting.Model.NewEntropy | microtc/weighting.py:191-194 | no object without labels or with an empty label list; otherwise the vocabulary is the fitted one and the weight of id j is the entropy weight of column j of the class count matrix |
| Weighting.EntropyColumnsNonEmpty | microtc/weighting.py:234-244 | when every document has a label, the column of a fitted token adds up to its df, which is at least 1, so the uniform fallback never applies |
| ClassEntropy.Unique | microtc/weighting.py:230 | `np.unique(y)` is strictly ascending, holds exactly the labels of `y`, and is empty only for empty `y` |
| ClassEntropy.InsertSorted | microtc/weighting.py:230 | inserting a label keeps the list strictly ascending and adds exactly that label |
| ClassEntropy.Pairs | microtc/weighting.py:235 | `zip(y, corpus)` stops at the shorter list |
| ClassEntropy.CountMatrix | microtc/weighting.py:233-242 | the matrix is new, `#classes x #tokens`, and cell (k, j) is the count of column j for class k over the zipped pairs |
| ClassEntropy.CountClass | microtc/weighting.py:234-242 | filling row `ki` visits the pairs whose label is that class; no other row changes |
| ClassEntropy.AddDocument | microtc/weighting.py:238-242 | each distinct known token of a document adds one to its cell in row `ki`; unknown tokens are skipped; nothing else changes |
| ClassEntropy.HitsOfVocabulary | microtc/weighting.py:238-242 | with the constructor's vocabulary a document adds exactly one to a token's column when it contains the token, however often |
| ClassEntropy.ClassCountIsClassDF | microtc/weighting.py:234-242 | each cell is the number of documents of that class that contain the column's token |
| ClassEntropy.ColumnSumIsDF | microtc/weighting.py:233-243 | the column of a token adds up to its document frequency over the labelled documents |
| ClassEntropy.ColumnSumIsCorpusDF | microtc/weighting.py:233-243 | with a label for every document, the column adds up to the document frequency of the whole corpus |
| ClassEntropy.DistributionIsProbability | microtc/weighting.py:243-244 | after normalisation, and after the uniform `1/nklasses` fallback for an all-zero column, each column lies in [0, 1] and adds up to 1 |
| ClassEntropy.EntropyWeightAtMostOne | microtc/weighting.py:243-249 | given that `log2` is at most 0 on (0, 1] and positive at the number of classes above two, every term `p * log2(p)` (with `log2(0)` read as 0, each logarithm divided by `log2(nklasses)` when there are more than two classes) is at most 0, so the weight is at most 1 |
| ClassEntropy.OneClassWeight | microtc/weighting.py:243-249 | a token met in a single class gets weight 1 |
| ClassEntropy.EvenSpreadWeight | microtc/weighting.py:243-249 | a token spread evenly over all of at least two classes (equal counts in every class, or met in none) gets weight 0 |
| ClassEntropy.EntropyWeights | microtc/weighting.py:228-249 | no result exactly when there are no labels; otherwise one weight per token, and the weight of id j is `EntropyWeight` of column j |

## Left out

- Floating point is modelled by reals. `log2` and `sqrt` are uninterpreted parameters,
  and NaN and infinity are one value, `NonFinite`. Rounding in `N * proportion` and in
  the sums is not modelled.
- ClassEntropy.Scale: divides by `log2(nklasses)` only when that value is non-zero.
  The real `log2` is never zero above two classes, but the uninterpreted parameter
  could be.
- Weighting.Model.SetWordWeight: requires non-zero counts for TF-IDF. A zero count
  would make `N / v` raise. The constructor never passes one, since every df is at
  least 1.
- Weighting.Model.NewEntropy: an `X` without labels is modelled as `None`, the failed
  `assert X is not None`. The empty label list is also `None`, the ZeroDivisionError of
  `1.0 / nklasses`. Exceptions are not modelled otherwise.
- Labels are integers, and `X` is reduced to the list of its labels. The `KLASS` key,
  read from an environment variable in `microtc/utils.py`, is not modelled. Labels of
  other comparable types, such as strings, are not modelled. microtc/utils.py is not part
  of this model.
- Weighting.Model.Init: called with the `Entropy` scheme, it leaves an object weighted by
  raw document frequencies. Python never returns such an object: `Entropy.__init__`
  replaces the weights at once, which `NewEntropy` models.
- ClassEntropy.EntropyWeightAtMostOne: only the upper end of the weight range is proved.
  The lower end, 0, needs the entropy bound `-sum p log2 p <= log2(#classes)`, which
  does not follow from the facts about `log2` stated here.
- Python's run-time dispatch among `TFIDF`, `TF` and `Entropy` is modelled by the
  `scheme` field of one class.
- The `num_terms`, `word2id` and `wordWeight` getters only return fields, so they are
  the fields of `Model`.
- Dicts are modelled by maps. Their insertion order is kept by sequences where it
  matters: the token list of a vocabulary and the ids of `doc2weight`.
- `doc2weight` returns numpy arrays; here they are sequences.
- Tokenisation and the text model that calls these classes are not part of this model
  (microtc/textmodel.py).
- `Entropy.entropy` given a `word2id` whose ids are not below its size is excluded by
  `IdsInRange`. numpy would raise an index error there, and the constructor never
  produces such a map.
