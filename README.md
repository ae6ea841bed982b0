# omnilingo question pipeline, modelled in Dafny

This project models the offline question pipeline of omnilingo's `question_loader.py` and the
small clip server of `main.py`. Omnilingo is a listening game built on a speech corpus:
players hear a clip and must pick the word they heard among distractors.

**question_loader.py**
- Each corpus row becomes a *question*. Its clip's duration gives the speech rate
  (`chars_sec`).
- Its sentence is split into tokens by a tokenizer chosen by the locale. Chinese and Thai
  go to foreign segmenters. Turkish protects its suffix apostrophes. Every other locale
  uses the `re.split("(\\w+)")` filter.
- Every token is tallied in the language's word-frequency `Counter`.
- Each question then receives, for each of its tokens, the distractor words that the
  generator produced.
- Per language, the most common word is picked. The questions are stable-sorted by a
  difficulty key: the speech rate times minus the relative frequency of the rarest word.
- The ranked questions are cached under `cache/questions__{language}.pickle.gz`. The
  language is read back from that file name.

**main.py**
- Each sentence is split on whitespace.
- `/get_clips` draws random questions until it holds three distinct ones.

Modules, one per concern:

| file | module | what it holds |
|---|---|---|
| errors.dfy | `Errors` | the Python exceptions the code raises, as values (`Result`) |
| text.dfy | `Text` | `str.isspace`, `x.strip()` as a test, `"".join`, `str.replace` of one character |
| regex_split.dfy | `RegexSplit` | `re.split("(\\w+)", s)`, with `\w` as a parameter |
| tokenizer.dfy | `Tokenizer` | `tokenize_sentence` of question_loader.py |
| frequency.dfy | `Frequency` | the `Counter`, a class updated in place, and its specification `Tally` |
| questions.dfy | `Questions` | rows and question records |
| loader.dfy | `Loader` | `process_question`, the row loop and the distractor loop of `load_questions` |
| difficulty.dfy | `Difficulty` | `difficulty_function` |
| stable_sort.dfy | `StableSort` | `list.sort(key=…)`: a stable sort and its properties |
| ranking.dfy | `Ranking` | `load_all_languages` |
| cache_names.dfy | `CacheNames` | the cache file name written at line 125 and parsed at line 143 |
| server.dfy | `ClipServer` | main.py: `str.split()`, `process_question`, `get_clips` |

Collaborators that the code calls but that are not part of this model are parameters:
- the `\w` character class and the two foreign segmenters (`Tokenizer.Segmenters`);
- the clip duration that `mutagen` reads (`duration: string -> real`, keyed by the clip's path);
- the corpus rows of each language (`corpus: string -> seq<Row>`);
- `get_distractors` (`generate`);
- the successive results of `random.choice` (`draws`).

Lemmas that need facts about `\w` take them as preconditions. Two such facts are that
U+02BC is a word character and that whitespace is not.

How the difficulty key behaves in the code:
- **Speech rate.** For a question with tokens, the rate is multiplied by a non-positive
  factor. So with the same non-empty tokens, the key never increases as the speech rate
  rises (`Difficulty.FasterSpeechScoresLower`). A question without tokens falls back to the
  rate itself as its key, so that key rises with the rate (`Difficulty.ScoreFormula`).
- **Rarer words.** At the same speech rate, the key moves toward 0 as the rarest word gets
  rarer (`Difficulty.RarerWordScoresHigher`).
- **Durations.** Only a duration of exactly 0 raises (ZeroDivisionError). A negative
  duration gives a non-positive speech rate (`Loader.CharsPerSecond`).

## Model

| member | source | states |
|---|---|---|
| RegexSplit.SplitConcat | question_loader.py:32 | the pieces of `re.split("(\\w+)", s)`, whitespace pieces included, concatenate back to `s` |
| RegexSplit.SplitAlternates | question_loader.py:32 | the pieces alternate between runs free of word characters and non-empty word runs, odd in number. Inner non-word runs are non-empty, so every run is maximal and no two word runs are adjacent. The first piece is the leading non-word run |
| Text.KeepNonBlankSpec | question_loader.py:32 | `[x for x in pieces if x.strip()]` keeps exactly the non-blank pieces, each as often as it occurs, in their order (a subsequence) |
| Tokenizer.Tokenize | question_loader.py:22-33 | outside the `zh-` and `th` branches, no token is empty or whitespace-only |
| Tokenizer.DefaultTokensSpec | question_loader.py:31-33 | default branch: the pieces concatenate to the sentence and alternate. The tokens are the non-blank pieces, each as often as it occurs, in sentence order, so a repeated word gives repeated tokens. There are no tokens exactly when the sentence is whitespace-only |
| Tokenizer.TurkishTokensSpec | question_loader.py:27-29 | Turkish branch: no token is empty, whitespace-only or holds `ʼ`. The restored pieces concatenate to the sentence with every `ʼ` written `'` |
| Tokenizer.TurkishIsDefaultWithApostrophe | question_loader.py:27-29 | when `\w` matches `ʼ` and the sentence holds no `ʼ`, the Turkish tokens are the default tokens with `'` counted as a word character. So an apostrophe between letters never splits a word, anywhere in the sentence |
| Tokenizer.TurkishApostropheKeepsWord | question_loader.py:28 | when `\w` matches `ʼ` and not whitespace, a sentence of word characters and `'` is one token, its `'` restored |
| Tokenizer.AnkaraDaIsOneToken | question_loader.py:27-29 | "Ankara'da" under locale `tr` is the single token "Ankara'da" |
| Frequency.WordCounter.constructor | question_loader.py:46 | `collections.Counter()` starts empty |
| Frequency.WordCounter.Increment | question_loader.py:39 | `counter[w] += 1`: only `w` changes, by one, from 0 when absent |
| Frequency.TallyCounts | question_loader.py:38-39 | after tallying a token list, each word's count has risen by exactly its number of occurrences. Every other key is unchanged, and the keys gained are the list's words |
| Frequency.TallyPositive | question_loader.py:38-39 | a table whose entries are all positive keeps that property, so every stored count is positive |
| Frequency.TallyAllCounts | question_loader.py:52-60 | over a corpus, a word's count is its number of occurrences summed over all sentences, and every token is a key |
| Frequency.WordCounter.MostCommon | question_loader.py:109 | `most_common(1)[0]` is an entry of the table with a positive count at least every count. An empty table raises IndexError |
| Loader.CharsPerSecond | question_loader.py:56-58 | `len(sentence) / audio_length`: ZeroDivisionError exactly when the duration is 0, otherwise rate × duration = length |
| Loader.ProcessQuestion | question_loader.py:36-41 | `tokenized` becomes the tokenizer's output and no other field changes. The counter becomes the old counter tallied with those tokens |
| Loader.Enrich | question_loader.py:54-59 | one row's question: ZeroDivisionError exactly on a silent clip, otherwise duration, speech rate and tokens built from the row |
| Loader.EnrichAllSpec | question_loader.py:52-60 | the row loop fails exactly when some clip is silent (ZeroDivisionError). Otherwise it yields one question per row, in row order, each built from its row |
| Loader.EnrichRow | question_loader.py:54-60 | the loop body gives that row's question. The counter is tallied with its tokens, and is untouched on failure |
| Loader.EnrichRows | question_loader.py:52-60 | the row loop returns the row-by-row questions, and the counter holds the old table tallied with every question's tokens in order |
| Loader.AssignDistractors | question_loader.py:69-72 | succeeds exactly when every token is a key of the global table, else KeyError naming a missing token. Each question's `distractors` then has exactly its distinct tokens as keys with the global values, and nothing else of it changes |
| Loader.LoadQuestions | question_loader.py:44-76 | succeeds exactly when no clip is silent and the generator's table has an entry for every token. Otherwise it raises ZeroDivisionError, which happens exactly on a silent clip, or a KeyError naming a counted word the generator left out. On success: one question per row, the counter is the corpus table (every token with multiplicity), and the distractors are the generator's table restricted to each question's tokens |
| Difficulty.MinSpec | question_loader.py:87 | `min` returns an element of the list that is at most every element |
| Difficulty.RarestCountSpec | question_loader.py:81-84 | the rarest count is some token's count and at most every token's count |
| Difficulty.MinRelative | question_loader.py:81-87 | the smallest relative frequency is the rarest token's count over the most common count |
| Difficulty.ScoreFormula | question_loader.py:79-92 | the key is `chars_sec` for a question without tokens, else `chars_sec * -(m / most_common_count)` |
| Difficulty.ScoreNonPositive | question_loader.py:86-87 | with a non-negative speech rate, a question with tokens has a key of at most 0 |
| Difficulty.RarerWordScoresHigher | question_loader.py:79-92 | at equal non-negative speech rate, the question whose rarest word is rarer gets a key that is larger or equal, so when the keys differ it sorts no earlier |
| Difficulty.FasterSpeechScoresLower | question_loader.py:86-87 | with the same non-empty tokens, a faster clip gets a key that is smaller or equal. Without tokens the key is the rate itself (line 92) and rises with it |
| StableSort.SortBySpec | question_loader.py:110-114 | the sorted list is ordered by the key and is a permutation of the input. For every key value, the elements with that key keep their input order |
| StableSort.SmallestKeyFirst | question_loader.py:110-114 | an element whose key is below every other element's comes first |
| Ranking.RankedIsStableSort | question_loader.py:110-114 | a ranked language's list is ordered by difficulty, a permutation of its loaded questions, stable on ties |
| Ranking.GoFastStopSlowTable | question_loader.py:36-41 | the token lists ["go"], ["go", "fast"], ["stop", "slow"] give the table go:2, fast:1, stop:1, slow:1, whose most common entry is ("go", 2) |
| Ranking.CommonWordsRankFirst | question_loader.py:109-114 | for questions with the token lists ["go"], ["go", "fast"], ["stop", "slow"] at equal positive speech rate, "go" gets a smaller key than "go fast" and "stop slow" and is ranked first |
| Ranking.RanksExcludesSilentAndEmpty | question_loader.py:54-58 | a language that ranks has no silent clip and at least one row |
| Ranking.LoadEach | question_loader.py:103-106 | `p.map(load_questions, languages)` succeeds exactly when `load_questions` succeeds on every language. Otherwise it raises the error of a language that fails to load: ZeroDivisionError exactly when that language has a silent clip, else KeyError. On success: one entry per language, in order, each what `load_questions` builds from that language's corpus |
| Ranking.RankEach | question_loader.py:107-114 | raises IndexError exactly when some language's table is empty. Otherwise, per language: the most common entry of its table and its questions stable-sorted by difficulty, stored under its name |
| Ranking.LoadAllLanguages | question_loader.py:95-115 | succeeds exactly when every requested language loads and has a non-empty table. It raises IndexError exactly when every language loads but some table is empty. Otherwise it raises the error of a language that fails to load: ZeroDivisionError exactly when that language has a silent clip, else KeyError. A silent clip anywhere, or a language without rows, makes it fail. On success: one entry per requested language, each the stable difficulty sort of the questions loaded from its corpus |
| CacheNames.LanguageOf | question_loader.py:143 | `name.split("__")[1].split(".")[0]`: IndexError exactly when the name holds no `__`. Otherwise the result holds no `.` |
| CacheNames.SplitOnJoin | question_loader.py:143 | `sep.join(s.split(sep)) == s` |
| CacheNames.SplitOnPartsFree | question_loader.py:143 | the first part of `s.split(sep)` holds no `sep` |
| CacheNames.SplitOnFirst | question_loader.py:143 | when the first `sep` is at `n`, `s.split(sep)` is `s[:n]` followed by the split of the rest |
| CacheNames.BaseNameOfCachePath | question_loader.py:138-143 | `Path("cache/" + name).name` is `name` when `name` holds no `/` |
| CacheNames.FileNameParts | question_loader.py:125 | a cache file name splits on `__` into `questions` and `{language}.pickle.gz` when the language holds no `__` |
| CacheNames.CacheNameRoundTrip | question_loader.py:125-143 | for a language holding no `/`, `.` or `__`, the language parsed from its cache file's name is the language itself |
| CacheNames.LanguageOfFileName | question_loader.py:125-143 | for a language without `__`, what is parsed back is the language up to its first `.` |
| CacheNames.DottedLanguageIsCut | question_loader.py:125-143 | the language "sv.SE" comes back as "sv" |
| ClipServer.WordsShape | main.py:12-13 | `s.split()`: no token is empty or holds whitespace, and there are none exactly when the sentence is whitespace-only |
| ClipServer.WordsConcat | main.py:12-13 | the tokens concatenate to the sentence with its whitespace deleted, so they are in sentence order |
| ClipServer.WordsStrip | main.py:13 | stripping the sentence does not change its tokens |
| ClipServer.WordsNormalize | main.py:13 | `" ".join(s.split())` is `s` stripped, with every inner whitespace run collapsed to one space |
| ClipServer.ProcessQuestion | main.py:16-18 | `sentence` becomes `sentence.split()`, whose tokens are non-empty and free of whitespace, concatenate to the sentence without its whitespace, and join with single spaces to its normalised form. Every other field is kept, and a record without `sentence` raises KeyError |
| ClipServer.DedupSpec | main.py:45-46 | the first-occurrence list is free of repeats and holds exactly the drawn elements |
| ClipServer.DedupPrefix | main.py:43-46 | drawing more never changes the distinct elements already held |
| ClipServer.DistinctBound | main.py:43-46 | a repeat-free list drawn from a set is no longer than the set |
| ClipServer.GetClips | main.py:36-47 | `random.choice([])` raises IndexError. Otherwise the loop returns exactly when three distinct questions have been drawn: the first three distinct draws, each a corpus question, which needs three distinct questions. Otherwise it is still drawing, holding fewer than three |

## Left out

- File and corpus I/O: reading `validated.tsv` with `csv` (question_loader.py:48-53) and main.py's `load_questions` (main.py:21-30). Rows are given as values.
- MP3 parsing with `mutagen`: the duration is the parameter `duration`, looked up by the clip's path.
- `jieba.lcut` and `thai_segmenter.tokenize`: opaque function parameters with no contract.
- The `\w` class of Python's `re`: a parameter. The tokenizer lemmas assume only what they state.
- `get_distractors`: a function parameter `generate` from the word table to the global distractor table.
- `multiprocessing.Pool`: the languages load one after another. The first failing language stops the load, so which of several errors is reported is not modelled.
- Picking the languages from the corpus directory when `languages` is None (question_loader.py:99-102): the list is a parameter.
- Pickle/gzip reads and writes, `os.mkdir`, the directory glob and the `FileNotFoundError` fallback (question_loader.py:118-151): only the file-name round trip is modelled.
- `tqdm` and `sys.stderr` output, including the warning for a question without tokens: no semantic content.
- Flask routes, `render_template`, `send_from_directory` and `app.run` in main.py: web plumbing.
- Randomness: `random.choice` results are the sequence `draws`. A loop that never ends is shown as `StillDrawing` when the draws run out.
- IEEE floating point: durations, speech rates and keys are `real`.
- Frequency.WordCounter.MostCommon: returns some maximal entry. A `Counter`'s insertion order, which decides ties in `most_common`, is not modelled.
- StableSort.SortBy: `list.sort` sorts in place. Here it is a function on sequences, because the key function reads only values and no other reference sees the list during the sort.
- Question records are Dafny values. Python updates the same dict objects in place, and aliasing between them is not modelled. Only `tokenized`, `distractors`, `sentence`, `path`, `locale`, `audio_length` and `chars_sec` are named; other TSV columns are carried in `Row.columns`.
- CacheNames.SplitOn: requires a non-empty separator, which both calls at line 143 have.
- CacheNames.BaseName: models `Path.name` as the text after the last `/`. Trailing slashes and `.`/`..` components are not modelled.
- client/task.js: DOM and `fetch` code.
