# Tu_NLP core, modelled in Dafny

Tu_NLP is a teaching toolkit for natural-language processing in Python. This
project models its classical core and proves properties of the model:

- the two tokenizers:
  - `SimpleTokenizer`: lower-case, pad `. , ! ?` with spaces, collapse
    whitespace, strip, split on the space;
  - `RegexTokenizer`: lower-case, then `findall` of `\w+|[^\w\s]` or of a
    caller-supplied pattern;
- the vectorizer contract `fit_transform = fit; transform`;
- the two bag-of-words vectorizers:
  - `CountVectorizer`: a sorted vocabulary and count vectors;
  - `TfidfVectorizer`: smoothed IDF `ln(N / (df + 1)) + 1`, TF·IDF weights
    and L2 normalisation;
- the n-gram language model:
  - `fit` pads each document with `n - 1` copies of `<s>` and one `</s>`,
    then counts every window;
  - `predict_next_word` normalises the context and returns relative
    frequencies;
  - `generate_text` samples until an unseen context, `</s>` or the length
    bound;
- the word embedder's lookup with a zero-vector fallback, and the mean of
  the non-zero vectors of a document;
- the text clusterer: grouping texts by label, and the not-fitted guards of
  `predict` and `calculate_silhouette_score`.

Modules follow the Python files:

| Dafny file | What it holds |
|---|---|
| `text.dfy` | ASCII character classes, `lower`, `join`, `split` |
| `wrappers.dfy` | `Option`/`Result` and the raised errors |
| `interfaces.dfy` | the tokenizer type and the set of corpus tokens |
| `vocabulary.dfy` | Python string order, `sorted(set)` and the index map shared by both vectorizers |
| `tally.dfy` | sums over dictionary values |

The remaining files each model one source file.

The Python classes whose methods update fields are Dafny classes with those
fields. Their methods are proved against specification functions:

- `CountVectorizer`, `TfidfVectorizer` and `RegexTokenizer`
- `NgramLanguageModel`: the counters `_ngram_counts` and `_context_counts`
  are maps, read as `defaultdict`s;
- `TextClusterer`.

The loops of the source are `while` loops with invariants. Code that only
computes is a function, and lemmas state its properties:

- tokenization;
- vocabulary order;
- TF-IDF;
- n-gram prediction and generation;
- embedding.

Where the documented design and the code differ, the model follows the
code:

- For `n = 1`, `predict_next_word` slices `context[-0:]`, which is the whole
  context rather than the empty one. Any non-empty context is therefore
  unseen and predicts `{}`. `generate_text` alone passes `[]` and samples
  from the unigram counts (`NgramLanguageModel.UnigramNeedsEmptyContext`).
- `SimpleTokenizer` emits one empty token for a blank input, because
  `''.split(' ')` is `['']`. It emits no empty token otherwise
  (`SimpleTokenizer.TokenizeBlank`, `SimpleTokenizer.TokenizeNonEmpty`).
- `transform` raises the not-fitted error whenever the vocabulary is empty.
  That includes after `fit` on a corpus that yields no tokens
  (`CountVectorizer.EmptyVocabulary`).
- `RegexTokenizer.tokenize` with a pattern replaces the instance's pattern
  for all later calls. A tokenizer therefore has state.

## Model

| member | source | states |
|---|---|---|
| SimpleTokenizer.NormalizeFacts | src/preprocessing/simple_tokenizer.py:14-19 | the normalised text keeps exactly the non-space characters of the lower-cased input. The only whitespace left is the single space; it neither starts nor ends the text, no two spaces are adjacent, and every punctuation mark has a space on each side (or sits at an end) |
| SimpleTokenizer.PadPunctuationFacts | src/preprocessing/simple_tokenizer.py:17 | padding adds only whitespace. Afterwards every `.,!?` has whitespace beside it; the result is empty iff the input is; it neither starts nor ends with punctuation |
| SimpleTokenizer.CollapseSpaceRemoveSpace | src/preprocessing/simple_tokenizer.py:19 | collapsing whitespace runs keeps every non-space character, in order |
| SimpleTokenizer.CollapseSpaceSingle | src/preprocessing/simple_tokenizer.py:19 | after `re.sub(r'\s+', ' ', …)` the only whitespace is `' '`, and no two whitespace characters are adjacent |
| SimpleTokenizer.CollapseSpaceSpaced | src/preprocessing/simple_tokenizer.py:19 | collapsing keeps punctuation separated by whitespace |
| SimpleTokenizer.CollapseSpaceFirst | src/preprocessing/simple_tokenizer.py:19 | the collapsed text is empty iff the input is, and its first character is the input's first one, with whitespace turned into `' '` |
| SimpleTokenizer.DropLeadingSpaceFacts | src/preprocessing/simple_tokenizer.py:19 | `lstrip` returns a suffix that has no leading whitespace and the same non-space characters |
| SimpleTokenizer.DropTrailingSpaceFacts | src/preprocessing/simple_tokenizer.py:19 | `rstrip` returns a prefix that has no trailing whitespace and the same non-space characters |
| SimpleTokenizer.StripFacts | src/preprocessing/simple_tokenizer.py:19 | `strip` of a collapsed text keeps its non-space characters and its spacing invariants, and leaves no whitespace at either end |
| SimpleTokenizer.ConcatSplit | src/preprocessing/simple_tokenizer.py:21 | when the only whitespace is `' '`, the pieces of `split(' ')` concatenate to the text without whitespace |
| SimpleTokenizer.SplitNonEmpty | src/preprocessing/simple_tokenizer.py:21 | splitting a text with no space at the ends and no adjacent spaces gives no empty piece |
| SimpleTokenizer.TokenizeConcat | src/preprocessing/simple_tokenizer.py:9-22 | the tokens, concatenated, are the lower-cased input without its whitespace: nothing is lost, added or reordered |
| SimpleTokenizer.TokenizeCharacters | src/preprocessing/simple_tokenizer.py:9-22 | no token contains whitespace or an upper-case letter |
| SimpleTokenizer.TokenizePunctuation | src/preprocessing/simple_tokenizer.py:9-22 | a token that contains one of `.,!?` is exactly that one character |
| SimpleTokenizer.TokenizeNonEmpty | src/preprocessing/simple_tokenizer.py:9-22 | when the input has a non-space character, no token is empty |
| SimpleTokenizer.TokenizeBlank | src/preprocessing/simple_tokenizer.py:19-21 | an empty or all-whitespace input gives `['']`, since `''.split(' ')` is `['']` |
| SimpleTokenizer.TokenizePunctuationCount | src/preprocessing/simple_tokenizer.py:9-22 | each occurrence of a punctuation mark in the input becomes exactly one token of its own |
| Text.JoinSplit | src/preprocessing/simple_tokenizer.py:21 | joining the pieces of `split(sep)` with `sep` gives the text back |
| Text.SplitJoin | src/preprocessing/simple_tokenizer.py:21 | splitting the join of separator-free tokens gives the tokens back |
| Text.Lower | src/preprocessing/simple_tokenizer.py:14 | `lower()` keeps the length and maps each character on its own; `LowerChar` leaves no upper-case letter and keeps the character classes |
| RegexTokenizer.RegexTokenizer.constructor | src/preprocessing/regex_tokenizer.py:12 | a new tokenizer matches with the class-wide default pattern (word runs or single symbols) and keeps the matching engine it is given |
| RegexTokenizer.RegexTokenizer.Tokenize | src/preprocessing/regex_tokenizer.py:14-22 | a non-empty pattern argument replaces the instance's pattern; an absent (the default) or empty one keeps it. The tokens are the matches of the current pattern in the lower-cased text |
| RegexTokenizer.SeparateInstances | src/preprocessing/regex_tokenizer.py:18-19 | a pattern set on one instance does not affect another: a fresh instance still uses the class default |
| RegexTokenizer.TokenizeDefaultFacts | src/preprocessing/regex_tokenizer.py:20-21 | with the default pattern, the concatenated tokens are the lower-cased text without whitespace. Every token is a word run or one non-word, non-space character, and no token holds whitespace or upper case |
| RegexTokenizer.FindAllShape | src/preprocessing/regex_tokenizer.py:12 | each match is a word run or a single symbol |
| RegexTokenizer.FindAllConcat | src/preprocessing/regex_tokenizer.py:12 | the matches concatenate to the text without whitespace |
| RegexTokenizer.FindAllAppend | src/preprocessing/regex_tokenizer.py:12 | matching distributes over concatenation unless the boundary falls between two word characters |
| RegexTokenizer.FindAllMerge | src/preprocessing/regex_tokenizer.py:12 | at a boundary between two word characters, the last match of the left part and the first match of the right part fuse, because `\w+` is greedy |
| RegexTokenizer.GapsWeave | src/preprocessing/regex_tokenizer.py:12 | the text is its matches interleaved with the skipped gaps |
| RegexTokenizer.GapsAreSpace | src/preprocessing/regex_tokenizer.py:12 | every skipped gap is whitespace |
| RegexTokenizer.GapsSeparateWords | src/preprocessing/regex_tokenizer.py:12 | two consecutive word matches always have whitespace between them |
| RegexTokenizer.WordRun | src/preprocessing/regex_tokenizer.py:12 | `\w+` is greedy: the run consists of word characters and stops only at the end or at a non-word character |
| CountVectorizer.CountVectorizer.constructor | src/representations/count_vectorizer.py:9-11 | a new vectorizer has an empty vocabulary |
| CountVectorizer.CountVectorizer.Fit | src/representations/count_vectorizer.py:13-26 | the vocabulary numbers the corpus's distinct tokens `0 .. k-1` in sorted order |
| CountVectorizer.CountVectorizer.Transform | src/representations/count_vectorizer.py:28-47 | the not-fitted error for an empty vocabulary; otherwise one count vector per document |
| CountVectorizer.CountVectorizer.FitTransform | src/core/interfaces.py:50-61 | `fit_transform` leaves the state of `fit(corpus)` and returns what `transform(corpus)` returns |
| CountVectorizer.CountTokens | src/representations/count_vectorizer.py:39-44 | the inner loop builds the count vector of one token list |
| CountVectorizer.FitVocabulary | src/representations/count_vectorizer.py:17-26 | a token is in the vocabulary iff some document yields it. Indices are below the vocabulary size and distinct, and index order is string order |
| CountVectorizer.EmptyVocabulary | src/representations/count_vectorizer.py:17-33 | the vocabulary is empty, so `transform` raises, iff every document tokenizes to nothing |
| CountVectorizer.TransformVectors | src/representations/count_vectorizer.py:35-47 | for a fitted vocabulary, `transform` succeeds with one vector per document of the vocabulary's length. Entry `vocabulary_[w]` is the number of occurrences of `w`, and the entries sum to the number of in-vocabulary tokens |
| CountVectorizer.TransformIgnoresUnknown | src/representations/count_vectorizer.py:41-44 | inserting an out-of-vocabulary token anywhere leaves the vector unchanged |
| Vocabulary.SortTokens | src/representations/count_vectorizer.py:24 | `sorted(list(all_tokens))` is the unique strictly increasing sequence of the set |
| Vocabulary.SortFacts | src/representations/count_vectorizer.py:24 | the sorted sequence is strictly increasing in Python string order and holds exactly the set |
| Vocabulary.SortedUnique | src/representations/count_vectorizer.py:24 | two strictly sorted sequences with the same elements are equal, so the order is well defined |
| Vocabulary.LexLessTransitive | src/representations/count_vectorizer.py:24 | Python's string `<` is transitive (with LexLessIrreflexive, LexLessTotal and LexLessAsymmetric it is a strict total order) |
| Vocabulary.LexLessTotal | src/representations/count_vectorizer.py:24 | any two distinct strings are ordered one way or the other |
| Vocabulary.InsertFacts | src/representations/count_vectorizer.py:24 | insertion into a sorted sequence keeps it sorted and adds exactly the new element |
| Vocabulary.IndexMapFacts | src/representations/count_vectorizer.py:26 | `{token: i for i, token in enumerate(keys)}` maps each key to its position and has one entry per key |
| Vocabulary.IndexMapOrder | src/representations/count_vectorizer.py:26 | over sorted keys, index order is string order |
| Vocabulary.VocabularyFacts | src/representations/count_vectorizer.py:24-26 | the vocabulary of a token set has exactly those keys and distinct indices below its size, in string order |
| Vocabulary.CountVectorEntry | src/representations/count_vectorizer.py:39-44 | entry `vocabulary_[w]` of a count vector is the number of occurrences of `w` |
| Vocabulary.CountVectorSum | src/representations/count_vectorizer.py:39-44 | a count vector sums to the number of in-vocabulary tokens |
| Vocabulary.CountVectorIgnoresUnknown | src/representations/count_vectorizer.py:41-44 | an unknown token changes no count |
| Interfaces.CorpusTokensMembership | src/representations/count_vectorizer.py:17-21 | a token is in the collected set iff some document produces it |
| TfidfVectorizer.TfidfVectorizer.constructor | src/representations/tfidf_vectorizer.py:10-13 | a new vectorizer has an empty vocabulary and an empty IDF table |
| TfidfVectorizer.TfidfVectorizer.Fit | src/representations/tfidf_vectorizer.py:15-41 | the vocabulary is the sorted index of the corpus tokens, with that key order. The IDF table is the previous one overwritten with `ln(N / (df + 1)) + 1` for every corpus token |
| TfidfVectorizer.TfidfVectorizer.StoreIdf | src/representations/tfidf_vectorizer.py:39-41 | the IDF loop sets the entry of each listed token from its document frequency and keeps every other entry |
| TfidfVectorizer.TfidfVectorizer.Transform | src/representations/tfidf_vectorizer.py:43-73 | the not-fitted error when either table is empty; otherwise one normalised TF-IDF vector per document |
| TfidfVectorizer.TfidfVectorizer.FitTransform | src/core/interfaces.py:50-61 | the state of `fit`, and the result of `transform`, on the same corpus |
| TfidfVectorizer.CollectTokens | src/representations/tfidf_vectorizer.py:20-26 | the first loop gathers the corpus tokens and one `{t: tokens.count(t)}` table per document |
| TfidfVectorizer.DocumentFrequencies | src/representations/tfidf_vectorizer.py:33-37 | `doc_freq[t]` is the number of documents whose table has `t` |
| TfidfVectorizer.ContainingIsFrequency | src/representations/tfidf_vectorizer.py:33-37 | counting the per-document tables that contain `t` is counting the documents that yield `t` |
| TfidfVectorizer.FitIdfTable | src/representations/tfidf_vectorizer.py:32-41 | the stored IDF table is the old one overwritten by the IDF of each corpus token |
| TfidfVectorizer.DocumentFrequencyBounds | src/representations/tfidf_vectorizer.py:33-37 | a document frequency is at most the number of documents, and at least 1 iff the token occurs in the corpus |
| TfidfVectorizer.IdfPositive | src/representations/tfidf_vectorizer.py:41 | whenever `ln(x) > -1` for `x >= 1/2`, every vocabulary token has a positive IDF (`N / (df + 1) >= 1/2`) |
| TfidfVectorizer.WeighEntry | src/representations/tfidf_vectorizer.py:55-63 | entry `vocabulary_[w]` of the unnormalised vector is `count(w) * idf_[w]` |
| TfidfVectorizer.TfidfZeroIff | src/representations/tfidf_vectorizer.py:55-71 | when `w`'s IDF is non-zero, `w`'s entry of the output is zero iff `w` does not occur in the document |
| TfidfVectorizer.TfidfOutOfVocabulary | src/representations/tfidf_vectorizer.py:57-71 | a document with no vocabulary token gets the zero vector, returned unnormalised |
| TfidfVectorizer.TfidfUnitLength | src/representations/tfidf_vectorizer.py:66-69 | with a sound square root, a document with a vocabulary token of non-zero IDF gets a vector of Euclidean length 1 |
| TfidfVectorizer.NormalizeUnit | src/representations/tfidf_vectorizer.py:66-69 | dividing a non-zero vector by its norm gives squared length 1 |
| TfidfVectorizer.NormPositive | src/representations/tfidf_vectorizer.py:66-67 | the norm is positive iff some entry is non-zero |
| TfidfVectorizer.NormalizeZeros | src/representations/tfidf_vectorizer.py:66-71 | normalisation keeps the length and the zero pattern |
| TfidfVectorizer.NormalizeZero | src/representations/tfidf_vectorizer.py:70-71 | the zero vector is returned as it is |
| TfidfVectorizer.SumSquaresZeroIff | src/representations/tfidf_vectorizer.py:66 | `sum(x*x)` is zero iff every entry is zero |
| TfidfVectorizer.TransformFailsIffEmpty | src/representations/tfidf_vectorizer.py:47-48 | `transform` raises iff the vocabulary or the IDF table is empty, and otherwise returns one vector per document |
| NgramLanguageModel.Create | src/models/ngram_language_model.py:11-25 | construction fails with a configuration error iff `n < 1` (`n` defaults to 2); otherwise the counters and the vocabulary start empty |
| NgramLanguageModel.NgramLanguageModel.constructor | src/models/ngram_language_model.py:11-25 | a model has the given tokenizer and `n` (default 2), empty counters and an empty vocabulary |
| NgramLanguageModel.NgramLanguageModel.Fit | src/models/ngram_language_model.py:34-45 | the counters become those of the old counters with every window of every padded document observed in order. The vocabulary gains the padded tokens, and the consistency invariant holds |
| NgramLanguageModel.NgramLanguageModel.CountWindows | src/models/ngram_language_model.py:39-45 | the window loop of one document observes its `len(tokens) - n + 1` windows in order |
| NgramLanguageModel.NgramLanguageModel.PredictNextWord | src/models/ngram_language_model.py:57-76 | the result is the relative-frequency distribution of the normalised context, or `{}` when that context was never seen |
| NgramLanguageModel.FillDistribution | src/models/ngram_language_model.py:70-74 | the loop produces `count / total` for exactly the followers of the context |
| NgramLanguageModel.NgramLanguageModel.GenerateText | src/models/ngram_language_model.py:78-108 | the generated text is the specification `GeneratedText`: up to `length` (default 20) rounds of choosing from the prediction, then the `<s>`-free tokens joined by spaces |
| NgramLanguageModel.ObserveWindowsConsistent | src/models/ngram_language_model.py:39-45 | observing windows keeps the counters consistent: every context has length `n - 1` and followers, its total is the sum of its follower counts, and every count is at least 1 |
| NgramLanguageModel.FitCorpusConsistent | src/models/ngram_language_model.py:34-45 | fitting any corpus keeps the counters consistent |
| NgramLanguageModel.ObserveConsistent | src/models/ngram_language_model.py:44-45 | one window keeps the counters consistent |
| NgramLanguageModel.ConsistentTotals | src/models/ngram_language_model.py:65-74 | consistent counters have a positive total for every seen context, so the division never divides by zero |
| NgramLanguageModel.ObserveWindowsTotal | src/models/ngram_language_model.py:39-45 | the context totals grow by exactly the number of windows |
| NgramLanguageModel.FitCorpusTotal | src/models/ngram_language_model.py:34-45 | after `fit`, the context totals sum to the old sum plus the number of windows: `len(tokens) - n + 1` per document, that is the document's tokens plus one |
| NgramLanguageModel.FitCorpusAppend | src/models/ngram_language_model.py:34 | fitting on `a` then on `b` equals fitting on `a + b` |
| NgramLanguageModel.FitSentinels | src/models/ngram_language_model.py:36-45 | every next word is a corpus token or `</s>` and every context token is a corpus token or `<s>`. Unless the tokenizer emits them, `<s>` is never predicted and `</s>` never appears in a context |
| NgramLanguageModel.FitVocabulary | src/models/ngram_language_model.py:36-37 | the vocabulary of a non-empty corpus is its tokens plus `</s>`, plus `<s>` when `n >= 2` |
| NgramLanguageModel.SliceFromEnd | src/models/ngram_language_model.py:61 | `s[-k:]` is the whole list for `k = 0` and the last `min(k, len(s))` items otherwise |
| NgramLanguageModel.NormalizeContextShape | src/models/ngram_language_model.py:58-61 | for `n >= 2` the normalised context has `n - 1` tokens: the context's own last tokens, preceded by `<s>` padding when it was shorter |
| NgramLanguageModel.NormalizeContextIdempotent | src/models/ngram_language_model.py:58-61 | normalising twice is normalising once |
| NgramLanguageModel.UnigramNeedsEmptyContext | src/models/ngram_language_model.py:58-65 | for `n = 1`, `context[-0:]` is the whole context, so any non-empty context is unseen and predicts `{}` |
| NgramLanguageModel.PredictDistribution | src/models/ngram_language_model.py:65-76 | the prediction is `{}` iff the normalised context is unseen. Otherwise its keys are the observed followers, each probability is `count / total` in `(0, 1]`, and the probabilities sum to 1 |
| NgramLanguageModel.DistributionSum | src/models/ngram_language_model.py:70-74 | the probabilities sum to the follower counts' sum over the total |
| NgramLanguageModel.PredictedObserved | src/models/ngram_language_model.py:65-76 | a predicted word was observed after the normalised context |
| NgramLanguageModel.GeneratePrefix | src/models/ngram_language_model.py:89-105 | generation only appends, at most `length` tokens; nothing is appended when `length <= 0` or the first context is unseen |
| NgramLanguageModel.GenerateAppended | src/models/ngram_language_model.py:91-105 | every appended token is a word the model predicted for the context before it, and none is `</s>` |
| NgramLanguageModel.GenerateObserved | src/models/ngram_language_model.py:91-105 | every appended token was observed after its context in the training data |
| NgramLanguageModel.WithoutStartFacts | src/models/ngram_language_model.py:108 | the output has no `<s>`, and a list without `<s>` is unchanged |
| NgramLanguageModel.WithoutStartCount | src/models/ngram_language_model.py:108 | every other token keeps its number of occurrences |
| NgramLanguageModel.WithoutStartAppend | src/models/ngram_language_model.py:108 | the filter distributes over concatenation |
| WordEmbedder.GetVectorFacts | src/representations/word_embedder.py:37-41 | a stored word gets its own vector; any other word gets the all-zero vector of the model's size |
| WordEmbedder.EmbedTokensFacts | src/representations/word_embedder.py:72-82 | the embedding has the model's dimension. It is the zero vector when every token's vector is zero (the empty document included), and otherwise the entry-wise mean of the non-zero vectors |
| WordEmbedder.EmbedIgnoresUnknown | src/representations/word_embedder.py:73-76 | inserting an out-of-vocabulary token anywhere leaves the embedding unchanged |
| WordEmbedder.EmbedSingleWord | src/representations/word_embedder.py:76-82 | a document whose only known word is `w`, however often it occurs, is embedded as `w`'s vector |
| WordEmbedder.NonZeroFacts | src/representations/word_embedder.py:76 | the filter keeps exactly the vectors with a non-zero entry, and all-zero input gives `[]` |
| WordEmbedder.MeanConstant | src/representations/word_embedder.py:82 | the mean of copies of one vector is that vector |
| TextClustering.TextClusterer.constructor | src/tasks/text_clustering.py:13-24 | a new clusterer keeps `num_clusters` (default 3) and has neither a model nor labels |
| TextClustering.TextClusterer.Fit | src/tasks/text_clustering.py:34-39 | after `fit` there is a model, and the labels are those k-means assigned to the texts |
| TextClustering.TextClusterer.Predict | src/tasks/text_clustering.py:51-55 | the not-fitted error iff there is no model; otherwise the model's labels |
| TextClustering.TextClusterer.CalculateSilhouetteScore | src/tasks/text_clustering.py:85-89 | the not-fitted error iff the model or the labels are missing; otherwise the score of the stored labels |
| TextClustering.TextClusterer.GetClusterInfo | src/tasks/text_clustering.py:67-73 | the not-fitted error without labels, and an index error when there are more texts than labels. Otherwise text `i` goes to the group of `labels[i]`, in order |
| TextClustering.ClustersAreLabelled | src/tasks/text_clustering.py:70-73 | the group keys are exactly the labels of the texts. Each group holds, in order and with duplicates, the texts with that label, and no group is empty |
| TextClustering.ClusterSizes | src/tasks/text_clustering.py:70-73 | the group sizes add up to the number of texts |

## Left out

- Everything outside the classical core is not part of this model:
  - the LLM wrappers, spaCy and gensim training;
  - named-entity recognition, POS tagging, translation;
  - the pipelines and the tests.
- Python's Unicode semantics are not modelled:
  - Characters are ASCII-classified: `\w` is `[A-Za-z0-9_]` and `\s` is
    the ASCII whitespace set.
  - `lower()` only maps `A`–`Z`.
  - Non-ASCII letters, digits and whitespace are treated as symbols.
- The `re` engine is not modelled:
  - `RegexTokenizer.Tokenize` interprets the default pattern itself.
  - Any other pattern is handed to the `engine` the tokenizer is constructed
    with, because general regular expressions are out of scope.
  - An invalid pattern, which makes `re.compile` raise, is not modelled.
- Floating point is range-free real arithmetic. `math.log` and `math.sqrt`
  are the `ln` and `sqrt` fields of `TfidfVectorizer`, and the lemmas assume
  only what they use of them:
  - `ln(x) > -1` for `x >= 1/2`;
  - `sqrt(x)` is non-negative and squares back to `x`.
- `num_docs / (df + 1)` is real division. Rounding, and `ln` of values
  Python cannot represent, are not modelled.
- `TfidfVectorizer.IdfPositive` is proved only under the `ln` assumption
  above.
- `TfidfVectorizer.TfidfUnitLength` holds exactly for reals. With floats the
  norm is 1 only up to rounding.
- `random.choices` in `generate_text` is a `Chooser` parameter: a function
  of the distribution and the round number. The generation lemmas assume
  only that it returns a key of a non-empty distribution. Which key is
  chosen, and with which probability, is not modelled.
- `NgramLanguageModel.FitSentinels` states `<s>`/`</s>` placement only for
  tokenizers that do not themselves emit `<s>` or `</s>`. A tokenizer may
  emit them, and then they are ordinary tokens.
- `WordEmbedder`:
  - Loading the gensim model in `__init__` is left out: I/O and the
    network. The model is a read-only `table` from words to vectors with a
    `vectorSize`.
  - `EmbedTokens` requires every stored vector to have that size, which
    gensim guarantees.
  - `get_similarity` and `get_most_similar` are not part of this model:
    they call into gensim.
- `TextClusterer`:
  - Vectorizing and k-means are left out. `fit` takes a `cluster` function
    that stands for both.
  - `predict` and `calculate_silhouette_score` take the model's `predict`
    and sklearn's `silhouette_score` as functions. The model checks their
    guards and what they return, not the numbers.
  - sklearn's own errors are not modelled, such as too few texts for
    `num_clusters` or a single cluster for the silhouette score.
- `TextClusterer.GetClusterInfo` models `self._labels[i]` with Python list
  indexing. A negative index cannot occur; a text beyond the last label is
  the `IndexError` path.
- The vectorizers take their tokenizer as a pure function
  `string -> seq<string>`. Every tokenizer of the core is deterministic on
  its input.
- The pattern replacement in `RegexTokenizer.tokenize` mutates the
  tokenizer. When a vectorizer holds a `RegexTokenizer`, its tokenizer
  function stands for the tokenizer's behaviour under its fixed pattern.
- In `SimpleTokenizer`, the model keeps Python's `''.split(' ') == ['']`.
  A blank input therefore gives one empty token, as
  `SimpleTokenizer.TokenizeBlank` states.
