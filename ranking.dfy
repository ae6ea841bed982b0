/**
 * `load_all_languages` of question_loader.py: load every language, then, per language,
 * take the most common word of its table and stable-sort its questions by difficulty.
 * The worker pool of the source is run here as a sequential loop over the languages.
 */
module Ranking {
  import opened Errors
  import opened Tokenizer
  import opened Frequency
  import opened Questions
  import opened Difficulty
  import opened StableSort
  import opened Loader

  /** `lambda question: difficulty_function(question, word_frequency[lng], most_common_word[lng])` */
  function RankKey(freq: map<string, nat>, mostCommon: (string, nat)): Question -> real
    requires mostCommon.1 > 0
  {
    q => Score(q, freq, mostCommon)
  }

  /** `mostCommon` is an entry of `freq` whose count is positive and maximal. */
  predicate IsMostCommon(mostCommon: (string, nat), freq: map<string, nat>)
  {
    && mostCommon.0 in freq && freq[mostCommon.0] == mostCommon.1 > 0
    && forall w :: w in freq ==> freq[w] <= mostCommon.1
  }

  /**
   * What one language's entry of the result is: `loaded` are its questions as
   * `load_questions` built them from its corpus, `freq` its word table, `mostCommon` the
   * table's most common entry, and `ranked` the questions stable-sorted by difficulty.
   */
  predicate RankedLanguage(
    language: string, ranked: seq<Question>, loaded: seq<Question>, freq: map<string, nat>,
    mostCommon: (string, nat), rows: seq<Row>, duration: string -> real, seg: Segmenters,
    generate: map<string, nat> -> map<string, set<string>>)
  {
    && IsMostCommon(mostCommon, freq)
    && ranked == SortBy(loaded, RankKey(freq, mostCommon))
    && freq == TallyAll(map[], TokenLists(loaded))
    && |loaded| == |rows|
    && forall i :: 0 <= i < |rows| ==>
      && Enriched(loaded[i], rows[i], language, duration, seg)
      && Restricts(loaded[i].distractors, loaded[i].tokenized, generate(freq))
  }

  /**
   * A ranked language's list is ordered by difficulty, is a permutation of the loaded
   * questions, and keeps questions of equal difficulty in corpus order.
   */
  lemma RankedIsStableSort(
    language: string, ranked: seq<Question>, loaded: seq<Question>, freq: map<string, nat>,
    mostCommon: (string, nat), rows: seq<Row>, duration: string -> real, seg: Segmenters,
    generate: map<string, nat> -> map<string, set<string>>)
    requires RankedLanguage(language, ranked, loaded, freq, mostCommon, rows, duration, seg, generate)
    ensures SortedBy(ranked, RankKey(freq, mostCommon))
    ensures multiset(ranked) == multiset(loaded)
    ensures forall k :: WithKey(ranked, RankKey(freq, mostCommon), k) == WithKey(loaded, RankKey(freq, mostCommon), k)
  {
    SortBySpec(loaded, RankKey(freq, mostCommon));
  }

  /** The table of questions whose token lists are ["go"], ["go", "fast"] and ["stop", "slow"]. */
  lemma GoFastStopSlowTable(q1: Question, q2: Question, q3: Question)
    requires q1.tokenized == ["go"] && q2.tokenized == ["go", "fast"] && q3.tokenized == ["stop", "slow"]
    ensures var freq := TallyAll(map[], TokenLists([q1, q2, q3]));
      && Get(freq, "go") == 2 && Get(freq, "fast") == 1 && Get(freq, "stop") == 1 && Get(freq, "slow") == 1
      && IsMostCommon(("go", 2), freq)
  {
    var lists := TokenLists([q1, q2, q3]);
    assert lists == [["go"], ["go", "fast"], ["stop", "slow"]];
    var freq := TallyAll(map[], lists);
    TallyAllCounts(map[], lists);
    assert lists[..2][..1] == [["go"]] && lists[..2] == [["go"], ["go", "fast"]] && lists[..1] == [["go"]];
    forall w ensures Get(freq, w) == multiset(["go"])[w] + multiset(["go", "fast"])[w] + multiset(["stop", "slow"])[w] {
      assert Occurrences(lists, w) == Occurrences(lists[..2], w) + multiset(["stop", "slow"])[w];
      assert Occurrences(lists[..2], w) == Occurrences(lists[..1], w) + multiset(["go", "fast"])[w];
      assert Occurrences(lists[..1], w) == Occurrences([], w) + multiset(["go"])[w];
    }
    assert Get(freq, "go") == 2 && Get(freq, "fast") == 1 && Get(freq, "stop") == 1 && Get(freq, "slow") == 1;
    forall w | w in freq ensures freq[w] <= 2 {
      assert Get(freq, w) == freq[w];
    }
  }

  /**
   * Three questions of one language with the token lists ["go"], ["go", "fast"] and
   * ["stop", "slow"], spoken at the same positive rate: ("go", 2) is the table's most
   * common entry, and ["go"], whose only word is the common one, gets the smallest key
   * and is ranked first.
   */
  lemma CommonWordsRankFirst(q1: Question, q2: Question, q3: Question, c: real)
    requires c > 0.0
    requires q1.tokenized == ["go"] && q2.tokenized == ["go", "fast"] && q3.tokenized == ["stop", "slow"]
    requires q1.charsSec == c && q2.charsSec == c && q3.charsSec == c
    ensures IsMostCommon(("go", 2), TallyAll(map[], TokenLists([q1, q2, q3])))
    ensures var freq := TallyAll(map[], TokenLists([q1, q2, q3]));
      && Score(q1, freq, ("go", 2)) < Score(q2, freq, ("go", 2))
      && Score(q1, freq, ("go", 2)) < Score(q3, freq, ("go", 2))
      && SortBy([q1, q2, q3], RankKey(freq, ("go", 2)))[0] == q1
  {
    GoFastStopSlowTable(q1, q2, q3);
    var freq := TallyAll(map[], TokenLists([q1, q2, q3]));
    var top := ("go", 2);
    assert RarestCount(q1.tokenized, freq) == 2;
    assert RarestCount(q2.tokenized, freq) == 1;
    assert RarestCount(q3.tokenized, freq) == 1;
    ScoreNegatedProduct(q1, freq, top);
    ScoreNegatedProduct(q2, freq, top);
    ScoreNegatedProduct(q3, freq, top);
    assert RarestRelative(q1, freq, top) == 1.0;
    assert RarestRelative(q2, freq, top) == 0.5;
    assert RarestRelative(q3, freq, top) == 0.5;
    var key := RankKey(freq, top);
    assert key(q1) < key(q2) && key(q1) < key(q3);
    SmallestKeyFirst([q1, q2, q3], key, q1);
  }

  /** One entry of `p.map(load_questions, languages)`. */
  datatype Loaded = Loaded(language: string, questions: seq<Question>, counter: WordCounter)

  /**
   * `questions` and `counts` are what `load_questions` builds for `language` from its
   * corpus `rows`.
   */
  ghost predicate BuiltFrom(
    language: string, questions: seq<Question>, counts: map<string, nat>, rows: seq<Row>,
    duration: string -> real, seg: Segmenters, generate: map<string, nat> -> map<string, set<string>>)
  {
    && counts == TallyAll(map[], TokenLists(questions)) == CorpusTable(language, rows, duration, seg)
    && |questions| == |rows|
    && forall j :: 0 <= j < |rows| ==>
      && Enriched(questions[j], rows[j], language, duration, seg)
      && Restricts(questions[j].distractors, questions[j].tokenized, generate(counts))
  }

  /**
   * `entry` and `table` are what a successful `load_questions` call returns for
   * `language`, whose corpus is `rows`.
   */
  ghost predicate LoadedEntry(
    entry: Loaded, table: map<string, nat>, language: string, rows: seq<Row>,
    duration: string -> real, seg: Segmenters, generate: map<string, nat> -> map<string, set<string>>)
  {
    && entry.language == language
    && Loads(language, rows, duration, seg, generate)
    && BuiltFrom(language, entry.questions, table, rows, duration, seg, generate)
  }

  /** One call of `load_questions`, its results packed as an entry of the pool's output. */
  method LoadOne(
    language: string,
    rows: seq<Row>,
    duration: string -> real,
    seg: Segmenters,
    generate: map<string, nat> -> map<string, set<string>>)
    returns (r: Result<Loaded>)
    ensures r.Ok? <==> Loads(language, rows, duration, seg, generate)
    ensures r.Err? ==> r.error == ZeroDivisionError || r.error.KeyError?
    ensures r.Err? ==> (r.error == ZeroDivisionError <==> HasSilentClip(language, rows, duration))
    ensures r.Ok? ==> fresh(r.value.counter) && r.value.counter.Valid()
    ensures r.Ok? ==> LoadedEntry(r.value, r.value.counter.counts, language, rows, duration, seg, generate)
  {
    var questions, counter := LoadQuestions(language, rows, duration, seg, generate);
    if questions.Err? {
      return Err(questions.error);
    }
    r := Ok(Loaded(language, questions.value, counter));
  }

  /** A language is ranked: `load_questions` succeeds on its rows and its table is not empty. */
  predicate Ranks(
    language: string, rows: seq<Row>, duration: string -> real, seg: Segmenters,
    generate: map<string, nat> -> map<string, set<string>>)
  {
    Loads(language, rows, duration, seg, generate) && CorpusTable(language, rows, duration, seg) != map[]
  }

  /** A language that ranks has no silent clip and at least one row. */
  lemma RanksExcludesSilentAndEmpty(
    language: string, rows: seq<Row>, duration: string -> real, seg: Segmenters,
    generate: map<string, nat> -> map<string, set<string>>)
    requires Ranks(language, rows, duration, seg, generate)
    ensures !HasSilentClip(language, rows, duration) && rows != []
  {
    EnrichAllSpec(language, rows, duration, seg);
    assert TokenLists([]) == [];
    assert CorpusTable(language, [], duration, seg) == map[];
  }

  /**
   * Every language ranks exactly when every language loads and every table is non-empty.
   * The solver sees this unaided; the lemma only keeps `LoadAllLanguages`'s proof cheap.
   */
  lemma RanksEvery(
    languages: seq<string>, corpus: string -> seq<Row>, duration: string -> real, seg: Segmenters,
    generate: map<string, nat> -> map<string, set<string>>)
    ensures (forall i :: 0 <= i < |languages| ==> Ranks(languages[i], corpus(languages[i]), duration, seg, generate))
        <==> (&& (forall i :: 0 <= i < |languages| ==> Loads(languages[i], corpus(languages[i]), duration, seg, generate))
              && (forall i :: 0 <= i < |languages| ==> CorpusTable(languages[i], corpus(languages[i]), duration, seg) != map[]))
  {
  }

  /** `p.map(load_questions, languages)`, run in order; the first failure aborts. */
  method LoadEach(
    languages: seq<string>,
    corpus: string -> seq<Row>,
    duration: string -> real,
    seg: Segmenters,
    generate: map<string, nat> -> map<string, set<string>>)
    returns (r: Result<seq<Loaded>>)
    ensures r.Ok? <==> forall i :: 0 <= i < |languages| ==> Loads(languages[i], corpus(languages[i]), duration, seg, generate)
    ensures r.Err? ==> r.error == ZeroDivisionError || r.error.KeyError?
    ensures r.Err? ==>
      exists i :: 0 <= i < |languages| && !Loads(languages[i], corpus(languages[i]), duration, seg, generate)
        && (r.error == ZeroDivisionError <==> HasSilentClip(languages[i], corpus(languages[i]), duration))
    ensures r.Ok? ==> |r.value| == |languages|
    ensures r.Ok? ==> forall i :: 0 <= i < |languages| ==>
      && r.value[i].counter.Valid()
      && LoadedEntry(r.value[i], r.value[i].counter.counts, languages[i], corpus(languages[i]), duration, seg, generate)
  {
    var results: seq<Loaded> := [];
    ghost var tables: seq<map<string, nat>> := [];
    var k := 0;
    while k < |languages|
      invariant 0 <= k <= |languages| && |results| == k && |tables| == k
      invariant forall i :: 0 <= i < k ==> results[i].counter.Valid() && results[i].counter.counts == tables[i]
      invariant forall i :: 0 <= i < k ==>
        LoadedEntry(results[i], tables[i], languages[i], corpus(languages[i]), duration, seg, generate)
    {
      var entry := LoadOne(languages[k], corpus(languages[k]), duration, seg, generate);
      if entry.Err? {
        return Err(entry.error);
      }
      results := results + [entry.value];
      tables := tables + [entry.value.counter.counts];
      k := k + 1;
    }
    return Ok(results);
  }

  /**
   * The ranking loop of `load_all_languages`: per loaded language, in order, the most
   * common entry of its table and its questions stable-sorted by difficulty, stored under
   * the language's name (a repeated language keeps its last entry); an empty table raises
   * IndexError. `pick[l]` is the position whose entry language `l` holds.
   */
  method RankEach(languages: seq<string>, results: seq<Loaded>)
    returns (
      r: Result<map<string, seq<Question>>>,
      ghost pick: map<string, nat>,
      ghost tops: map<string, (string, nat)>)
    requires |results| == |languages|
    requires forall i :: 0 <= i < |results| ==> results[i].counter.Valid()
    ensures r.Err? <==> exists i :: 0 <= i < |results| && results[i].counter.counts == map[]
    ensures r.Err? ==> r.error == IndexError
    ensures r.Ok? ==> r.value.Keys == set l | l in languages
    ensures r.Ok? ==> forall l :: l in r.value ==>
      && l in pick && l in tops && pick[l] < |languages| && languages[pick[l]] == l
      && IsMostCommon(tops[l], results[pick[l]].counter.counts)
      && r.value[l] == SortBy(results[pick[l]].questions, RankKey(results[pick[l]].counter.counts, tops[l]))
  {
    pick, tops := map[], map[];
    var ranked: map<string, seq<Question>> := map[];
    var k := 0;
    while k < |languages|
      invariant 0 <= k <= |languages|
      invariant ranked.Keys == set l | l in languages[..k]
      invariant forall i :: 0 <= i < k ==> results[i].counter.counts != map[]
      invariant forall l :: l in ranked ==>
        && l in pick && l in tops && pick[l] < k && languages[pick[l]] == l
        && IsMostCommon(tops[l], results[pick[l]].counter.counts)
        && ranked[l] == SortBy(results[pick[l]].questions, RankKey(results[pick[l]].counter.counts, tops[l]))
    {
      var entry := results[k];
      var lng := languages[k];
      var top := entry.counter.MostCommon();
      if top.Err? {
        return Err(top.error), pick, tops;
      }
      var seen, next := languages[..k], languages[..k + 1];
      assert next == seen + [lng];
      assert (set l | l in next) == (set l | l in seen) + {lng};
      ranked := ranked[lng := SortBy(entry.questions, RankKey(entry.counter.counts, top.value))];
      pick := pick[lng := k];
      tops := tops[lng := top.value];
      k := k + 1;
    }
    assert languages[..k] == languages;
    return Ok(ranked), pick, tops;
  }

  /**
   * `load_all_languages`: on success the result has one entry per requested language,
   * each as `RankedLanguage` describes (the ghost outputs name its intermediate values).
   * A silent clip in any language, or a language with no rows (its table is empty),
   * makes the whole load fail.
   */
  method LoadAllLanguages(
    languages: seq<string>,
    corpus: string -> seq<Row>,
    duration: string -> real,
    seg: Segmenters,
    generate: map<string, nat> -> map<string, set<string>>)
    returns (
      r: Result<map<string, seq<Question>>>,
      ghost loaded: map<string, seq<Question>>,
      ghost freqs: map<string, map<string, nat>>,
      ghost tops: map<string, (string, nat)>)
    ensures r.Ok? <==> forall i :: 0 <= i < |languages| ==> Ranks(languages[i], corpus(languages[i]), duration, seg, generate)
    ensures r.Err? ==> r.error == ZeroDivisionError || r.error.KeyError? || r.error == IndexError
    ensures r.Err? ==> (r.error == IndexError <==>
      forall i :: 0 <= i < |languages| ==> Loads(languages[i], corpus(languages[i]), duration, seg, generate))
    ensures r.Err? && r.error != IndexError ==>
      exists i :: 0 <= i < |languages| && !Loads(languages[i], corpus(languages[i]), duration, seg, generate)
        && (r.error == ZeroDivisionError <==> HasSilentClip(languages[i], corpus(languages[i]), duration))
    ensures (exists i :: 0 <= i < |languages| && HasSilentClip(languages[i], corpus(languages[i]), duration)) ==> r.Err?
    ensures (exists i :: 0 <= i < |languages| && corpus(languages[i]) == []) ==> r.Err?
    ensures r.Ok? ==> r.value.Keys == set l | l in languages
    ensures r.Ok? ==> forall l :: l in r.value ==>
      && l in loaded && l in freqs && l in tops
      && RankedLanguage(l, r.value[l], loaded[l], freqs[l], tops[l], corpus(l), duration, seg, generate)
  {
    loaded, freqs, tops := map[], map[], map[];
    forall i | 0 <= i < |languages| && Ranks(languages[i], corpus(languages[i]), duration, seg, generate)
      ensures !HasSilentClip(languages[i], corpus(languages[i]), duration) && corpus(languages[i]) != []
    {
      RanksExcludesSilentAndEmpty(languages[i], corpus(languages[i]), duration, seg, generate);
    }
    var results := LoadEach(languages, corpus, duration, seg, generate);
    if results.Err? {
      RanksEvery(languages, corpus, duration, seg, generate);
      return Err(results.error), loaded, freqs, tops;
    }
    var entries := results.value;
    forall i | 0 <= i < |languages|
      ensures entries[i].counter.counts == CorpusTable(languages[i], corpus(languages[i]), duration, seg)
    {
      assert LoadedEntry(entries[i], entries[i].counter.counts, languages[i], corpus(languages[i]), duration, seg, generate);
    }
    ghost var pick;
    r, pick, tops := RankEach(languages, entries);
    RanksEvery(languages, corpus, duration, seg, generate);
    if r.Ok? {
      loaded := map l | l in r.value :: entries[pick[l]].questions;
      freqs := map l | l in r.value :: entries[pick[l]].counter.counts;
      forall l | l in r.value
        ensures RankedLanguage(l, r.value[l], loaded[l], freqs[l], tops[l], corpus(l), duration, seg, generate)
      {
        var i := pick[l];
        assert LoadedEntry(entries[i], entries[i].counter.counts, languages[i], corpus(languages[i]), duration, seg, generate);
      }
    }
  }
}
