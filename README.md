# Skill/knowledge extractor and long-text chunker, modelled in Dafny

The repository wraps two pretrained token-classification pipelines (skills and
knowledge) behind the class `SkillKnowledgeExtractor`, and ships a helper
`long_chunk` that splits a long text into chunks of at most `context_length`
words. The only logic of its own is in three places, and this project models
all three:

- **Relabelling** (`extract_skills`, `extract_knowledge`): every record that
  carries an `entity_group` key gets `entity` set to the fixed label `"Skill"`
  or `"Knowledge"`, and `entity_group` is removed.
- **Span aggregation** (`_aggregate_span`): a left-to-right scan keeps one
  accumulating span. The next span is merged into it when its `start` is the
  accumulating span's `end` plus one. A merge joins the words with one space
  and takes the new `end`. Otherwise the accumulating span is emitted and the
  next one takes its place. `extract_all` keeps only the `word` of each merged
  span.
- **Chunking** (`long_chunk`): the text is split into maximal runs of word
  characters (`\w+`). It then produces `ceil(total / context_length)` chunks.
  Chunk `i` is the space-joined slice `words[i*n : (i+1)*n]`.

Files:

- `wrappers.dfy`: `Option` (an absent dictionary key) and `Result` (a raised error).
- `strings.dfy`: `Join` (Python's `" ".join`), `TotalLength` and `Flatten`, with lemmas about joining and flattening.
- `skill_knowledge_extractor.dfy`: module `SkillKnowledgeExtractor`, for
  `NER_skill_extractor.py`.
- `chunking.dfy`: module `Chunking`, for `chunking.py`.

The class has no state of its own apart from the two pipeline objects, which
are external. Its methods are therefore module-level methods here. What a
pipeline returned for the text is passed in as a parameter. A Python value
that may or may not be a `str` is the datatype `TextArg`.

The loops of the source are methods with loops: `AggregateSpan`, `Relabel`
and `LongChunk`. Each is proved against a specification function
(`Aggregate`, `RelabelAll`, `Window`) or states its result outright. The
lemmas state what the source promises about those functions.

`long_chunk` raises `ZeroDivisionError` when `context_length` is `0`
(chunking.py:10); the model returns `Failure(ZeroDivision)`. A negative length
makes `math.ceil` non-positive, so `range` is empty and the result is `[]`;
the model returns `Success([])`. When the caller gives no length, it is `512`
(chunking.py:4), the default of `LongChunk`'s `contextLength` too.

## Model

| member | source | states |
|---|---|---|
| `SkillKnowledgeExtractor.Relabelled` | NER_skill_extractor.py:56-58 | One record: afterwards it has no `entity_group`. `start`, `end`, `word` and `score` are kept. A record that had a group gets `entity` = the label. A record without one is returned unchanged. |
| `SkillKnowledgeExtractor.RelabelAll` | NER_skill_extractor.py:55-58 | Length is kept. A record with `entity_group` gets `entity` = the label and loses `entity_group`, and nothing else changes. A record without it is unchanged. Afterwards no record has `entity_group`. Lines 71-74 are the same loop with `"Knowledge"`. |
| `SkillKnowledgeExtractor.Relabel` | NER_skill_extractor.py:55-58 | The in-place loop over the records yields exactly `RelabelAll` of the pipeline output. |
| `SkillKnowledgeExtractor.RelabelIdempotent` | NER_skill_extractor.py:56-58 | Relabelling an already relabelled list, with any label, changes nothing, because no `entity_group` is left. |
| `SkillKnowledgeExtractor.Adjacent` | NER_skill_extractor.py:36 | The merge test holds exactly when the next span starts after the current one's `end` and no later than `end + 1`. |
| `SkillKnowledgeExtractor.Merge` | NER_skill_extractor.py:37-38 | The merged word is the space-join of the two words. `start`, `entity`, `entity_group` and `score` come from `current`, `end` from the next span. The merged span is adjacent to exactly the spans the next one was adjacent to, so the scan can go on merging. |
| `SkillKnowledgeExtractor.AggregateFrom` | NER_skill_extractor.py:33-43 | From an accumulating span and the rest of the input, the scan emits between 1 and 1+`len(rest)` spans. |
| `SkillKnowledgeExtractor.AggregateFromEnds` | NER_skill_extractor.py:33-43 | The first span the scan emits keeps the accumulating span's `start`. The last ends at the `end` of the last span consumed: after every merge, `current.end` is the `end` of the last span read. |
| `SkillKnowledgeExtractor.Aggregate` | NER_skill_extractor.py:29-44 | Empty input gives empty output, and only empty input does. The output is never longer than the input. |
| `SkillKnowledgeExtractor.AggregateEnds` | NER_skill_extractor.py:33-43 | For non-empty input, the first output `start` is the first input `start`, and the last output `end` is the last input `end`. |
| `SkillKnowledgeExtractor.AggregateFromCons` | NER_skill_extractor.py:35-41 | One loop iteration: an adjacent next span is merged into `current`. Otherwise `current` is emitted and the next span takes its place. |
| `SkillKnowledgeExtractor.AggregateSpan` | NER_skill_extractor.py:25-44 | The loop with one `current` span and the `aggregated` list returns exactly `Aggregate(results)`. The invariant is: emitted so far ++ what the scan from `current` still emits == the whole result. |
| `SkillKnowledgeExtractor.AggregateStep` | NER_skill_extractor.py:36-41 | One step of the scan. If the first two spans are adjacent, the result is that of the list with those two merged. Otherwise it is the first span followed by the result for the rest. |
| `SkillKnowledgeExtractor.AggregateLength` | NER_skill_extractor.py:35-43 | For non-empty input, the output length is 1 plus the number of consecutive pairs with `start != prev.end + 1`. It lies between 1 and the input length. |
| `SkillKnowledgeExtractor.AggregateIdentity` | NER_skill_extractor.py:35-43 | When no consecutive pair is adjacent, the output equals the input. |
| `SkillKnowledgeExtractor.AggregateRun` | NER_skill_extractor.py:36-38 | A run of k pairwise-adjacent spans becomes one span. It has the first span's `start`/`entity`/`score`, the k words space-joined in order, and the last span's `end`. |
| `SkillKnowledgeExtractor.AggregateSplit` | NER_skill_extractor.py:39-41 | At a non-adjacent boundary the two halves aggregate independently and their outputs concatenate. With `AggregateRun`, this means one merged span per maximal run, in order. |
| `SkillKnowledgeExtractor.AggregateStarts` | NER_skill_extractor.py:40-43 | The output `start`s are a subsequence of the input `start`s: order is kept. |
| `SkillKnowledgeExtractor.AggregateRelabel` | NER_skill_extractor.py:36-41 | Aggregating relabelled records equals relabelling the aggregated records. Merging reads only offsets and words, and a run keeps its first record's labels. |
| `SkillKnowledgeExtractor.Words` | NER_skill_extractor.py:85-86 | The projection keeps one `word` per span, in order. |
| `SkillKnowledgeExtractor.WordsRelabel` | NER_skill_extractor.py:85-86 | Relabelling does not change any word. |
| `SkillKnowledgeExtractor.ExtractLabelled` | NER_skill_extractor.py:50-60 | A non-`str` argument gives `[]`. A `str` gives the aggregate of the relabelled pipeline output. |
| `SkillKnowledgeExtractor.ExtractSkills` | NER_skill_extractor.py:46-60 | Non-`str` gives `[]`. Otherwise the result is the aggregate of the output relabelled with `"Skill"`. |
| `SkillKnowledgeExtractor.ExtractKnowledge` | NER_skill_extractor.py:62-76 | Non-`str` gives `[]`. Otherwise the result is the aggregate of the output relabelled with `"Knowledge"`. |
| `SkillKnowledgeExtractor.ExtractAll` | NER_skill_extractor.py:78-87 | Non-`str` gives two empty lists. Otherwise each list holds the words of the aggregated output of its pipeline, one per merged span, in order. |
| `Strings.Join` | chunking.py:17 | `' '.join`: an empty list gives `""`. Otherwise the text starts with the first word, a space follows it when there is a second word, and its length is the words' total length plus one per gap. |
| `Chunking.RunLength` | chunking.py:8 | The leading run of word characters: all of its characters are word characters, and the character after it is not. |
| `Chunking.Tokenize` | chunking.py:8 | Every token is non-empty and made only of word characters. |
| `Chunking.TokenizeSplit` | chunking.py:8 | Tokens are maximal runs: a non-word character splits the text, and the tokens of the two sides concatenate. No token spans a separator. |
| `Chunking.TokenizeEmpty` | chunking.py:8-10 | A text has no tokens if and only if it has no word character. |
| `Chunking.TokenizeKeepsWordChars` | chunking.py:8 | The tokens' characters, concatenated in order, are exactly the word characters of the text. Only separators are dropped. |
| `Chunking.TokenizeJoin` | chunking.py:8-17 | When the space is not a word character, tokenizing the space-join of tokens gives back those tokens. A chunk holds no separator except the single joining spaces. |
| `Chunking.CeilDiv` | chunking.py:10 | `k * n >= total`, `(k - 1) * n < total` when `total > 0`, and `k == 0` exactly when `total == 0`. |
| `Chunking.WindowStartInRange` | chunking.py:13-17 | The start index `i * n` of every chunk is below the word count. |
| `Chunking.LongChunk` | chunking.py:4-21 | `context_length` defaults to `512`. `context_length == 0` raises. A negative length gives `[]`. A positive one gives exactly `ceil(total / n)` chunks, and chunk `i` is the space-join of `words[i*n : min((i+1)*n, total)]`. The loop invariant is `tracker == i * n` with `i` chunks built. |
| `Chunking.WindowSize` | chunking.py:15-17 | Every chunk but the last has exactly `n` words. The last has between 1 and `n`. |
| `Chunking.WindowsPrefix` | chunking.py:13-19 | The first `m` windows, concatenated, are `words[:min(m*n, total)]`. |
| `Chunking.WindowsCover` | chunking.py:13-19 | All windows, concatenated in order, are the word list: no gap and no overlap. |
| `Chunking.ChunksReconstructTokens` | chunking.py:8-19 | Re-tokenizing every chunk and concatenating the results in order reproduces the tokens of the text. |
| `Chunking.NoWordsNoChunks` | chunking.py:8-15 | An empty text, or one without word characters, gives zero chunks. |
| `Chunking.SingleChunk` | chunking.py:10-17 | A text of between 1 and `n` words (exactly `n`, say) gives a single chunk: its words joined by single spaces. |
| `Chunking.CeilDivOfAtMost` | chunking.py:10 | Between 1 and `n` words need exactly one repeat. |

## Left out

- Building the two Hugging Face pipelines, the inference they run and the `RuntimeError` raised when building fails (NER_skill_extractor.py:11-23, 54, 70). These are an external library. The list a pipeline returns is an arbitrary parameter.
- `warnings.warn` on a non-`str` argument. Only the `[]` result is modelled.
- Aliasing of the pipeline's dictionaries. The source mutates the caller's records in place: the relabelling loop, and the first record of each run during aggregation. The model works on values, so it does not say that the pipeline's own list is changed.
- Dictionary keys other than `start`, `end`, `word`, `score`, `entity` and `entity_group`, and the `KeyError` a record without `start`/`end`/`word` would raise. The pipeline always supplies these keys.
- The score is a Python float, carried as a `real` and never inspected.
- Python's `\w` is Unicode-aware. The model takes the set of word characters as a parameter `isWord` and does not fix which characters are in it.
- `Chunking.CeilDiv`: does not model floating-point `total / n` inside `math.ceil`. Integer ceiling division is used instead, which agrees with it while the word count is below 2^53.
- A non-`str` `text` makes `re.findall` raise `TypeError` (chunking.py:8). The model types `text` as a string, so that case cannot arise.
- A non-integer `context_length` (a float, say) is not modelled. `contextLength` is an integer.
