/**
 * The per-language pipeline of question_loader.py: each corpus row becomes a question
 * (clip duration, speech rate, tokens, frequency update), then every question receives the
 * distractors of its tokens, then the questions are ranked by difficulty.
 */
module Loader {
  import opened Errors
  import opened Text
  import opened Tokenizer
  import opened Frequency
  import opened Questions
  import opened Difficulty
  import opened StableSort

  const Prefix: string := "templates/cv-corpus-6.1-2020-12-11/"

  /** The clip file whose duration a row's question records. */
  function ClipPath(language: string, path: string): string
  {
    Prefix + language + "/clips/" + path
  }

  /**
   * `len(sentence) / float(audio_length)`: the characters per second of the clip; a zero
   * duration raises ZeroDivisionError.
   */
  function CharsPerSecond(sentence: string, audioLength: real): (r: Result<real>)
    ensures r.Err? <==> audioLength == 0.0
    ensures r.Err? ==> r.error == ZeroDivisionError
    ensures r.Ok? ==> r.value * audioLength == |sentence| as real
  {
    if audioLength == 0.0 then Err(ZeroDivisionError) else Ok(|sentence| as real / audioLength)
  }

  /**
   * `process_question`: the question's `tokenized` field becomes its tokens and nothing
   * else of it changes; the counter is the old one tallied with those tokens.
   */
  method ProcessQuestion(q: Question, counter: WordCounter, seg: Segmenters) returns (r: Question)
    requires counter.Valid()
    modifies counter
    ensures counter.Valid()
    ensures r == q.(tokenized := Tokenize(q.row.sentence, q.row.locale, seg))
    ensures counter.counts == Tally(old(counter.counts), r.tokenized)
  {
    var words := Tokenize(q.row.sentence, q.row.locale, seg);
    var i := 0;
    while i < |words|
      invariant 0 <= i <= |words|
      invariant counter.Valid()
      invariant counter.counts == Tally(old(counter.counts), words[..i])
    {
      counter.Increment(words[i]);
      assert words[..i + 1][..i] == words[..i];
      i := i + 1;
    }
    assert words[..|words|] == words;
    r := q.(tokenized := words);
  }

  /** `d` holds exactly the question's distinct tokens, each with its entry of `global`. */
  predicate Restricts(d: map<string, set<string>>, tokens: seq<string>, global: map<string, set<string>>)
  {
    && d.Keys == (set t | t in tokens)
    && forall t :: t in d ==> t in global && d[t] == global[t]
  }

  /** Every token of every question is a key of `global`. */
  predicate Covers(global: map<string, set<string>>, questions: seq<Question>)
  {
    forall i, j :: 0 <= i < |questions| && 0 <= j < |questions[i].tokenized| ==> questions[i].tokenized[j] in global
  }

  /**
   * The distractor loop of `load_questions`: each question's `distractors` becomes the
   * global table restricted to its tokens and nothing else of it changes; a token missing
   * from the global table raises KeyError.
   */
  method AssignDistractors(questions: seq<Question>, global: map<string, set<string>>) returns (r: Result<seq<Question>>)
    ensures r.Ok? <==> Covers(global, questions)
    ensures r.Err? ==> r.error.KeyError? && r.error.key !in global
    ensures r.Err? ==> exists i :: 0 <= i < |questions| && r.error.key in questions[i].tokenized
    ensures r.Ok? ==> |r.value| == |questions|
    ensures r.Ok? ==> forall i :: 0 <= i < |questions| ==>
      && r.value[i] == questions[i].(distractors := r.value[i].distractors)
      && Restricts(r.value[i].distractors, questions[i].tokenized, global)
  {
    var out: seq<Question> := [];
    var i := 0;
    while i < |questions|
      invariant 0 <= i <= |questions| && |out| == i
      invariant forall a, j :: 0 <= a < i && 0 <= j < |questions[a].tokenized| ==> questions[a].tokenized[j] in global
      invariant forall a :: 0 <= a < i ==>
        && out[a] == questions[a].(distractors := out[a].distractors)
        && Restricts(out[a].distractors, questions[a].tokenized, global)
    {
      var q := questions[i];
      var d: map<string, set<string>> := map[];
      var j := 0;
      while j < |q.tokenized|
        invariant 0 <= j <= |q.tokenized|
        invariant forall b :: 0 <= b < j ==> q.tokenized[b] in global
        invariant Restricts(d, q.tokenized[..j], global)
      {
        var t := q.tokenized[j];
        if t !in global {
          return Err(KeyError(t));
        }
        var seen, next := q.tokenized[..j], q.tokenized[..j + 1];
        assert next == seen + [t];
        assert (set x | x in next) == (set x | x in seen) + {t};
        d := d[t := global[t]];
        j := j + 1;
      }
      assert q.tokenized[..j] == q.tokenized;
      out := out + [q.(distractors := d)];
      i := i + 1;
    }
    return Ok(out);
  }

  /** The tokens of each question, in order. */
  function TokenLists(questions: seq<Question>): (lists: seq<seq<string>>)
    ensures |lists| == |questions|
    ensures forall i :: 0 <= i < |questions| ==> lists[i] == questions[i].tokenized
  {
    seq(|questions|, i requires 0 <= i < |questions| => questions[i].tokenized)
  }

  /** A question built from `row` before distractors: duration, speech rate and tokens. */
  predicate Enriched(q: Question, row: Row, language: string, duration: string -> real, seg: Segmenters)
  {
    && q.row == row
    && q.audioLength == duration(ClipPath(language, row.path))
    && CharsPerSecond(row.sentence, q.audioLength) == Ok(q.charsSec)
    && q.tokenized == Tokenize(row.sentence, row.locale, seg)
  }

  /** Some row's clip has zero duration. */
  predicate HasSilentClip(language: string, rows: seq<Row>, duration: string -> real)
  {
    exists i :: 0 <= i < |rows| && duration(ClipPath(language, rows[i].path)) == 0.0
  }

  /** Adding a question adds its tokens to the table of the questions before it. */
  lemma TallyAllSnoc(counts: map<string, nat>, questions: seq<Question>, q: Question)
    ensures TallyAll(counts, TokenLists(questions + [q])) == Tally(TallyAll(counts, TokenLists(questions)), q.tokenized)
  {
    assert TokenLists(questions + [q])[..|questions|] == TokenLists(questions);
  }

  /**
   * The question of one row before distractors: its clip's duration, speech rate and
   * tokens; a silent clip raises ZeroDivisionError.
   */
  function Enrich(language: string, row: Row, duration: string -> real, seg: Segmenters): (r: Result<Question>)
    ensures r.Err? <==> duration(ClipPath(language, row.path)) == 0.0
    ensures r.Err? ==> r.error == ZeroDivisionError
    ensures r.Ok? ==> Enriched(r.value, row, language, duration, seg)
  {
    var audio := duration(ClipPath(language, row.path));
    match CharsPerSecond(row.sentence, audio)
    case Err(e) => Err(e)
    case Ok(rate) => Ok(Question(row, audio, rate, Tokenize(row.sentence, row.locale, seg), map[]))
  }

  /** The questions of all rows, in row order; the first silent clip stops the loop. */
  function EnrichAll(language: string, rows: seq<Row>, duration: string -> real, seg: Segmenters): Result<seq<Question>>
  {
    if rows == [] then Ok([])
    else
      match EnrichAll(language, rows[..|rows| - 1], duration, seg)
      case Err(e) => Err(e)
      case Ok(questions) =>
        match Enrich(language, rows[|rows| - 1], duration, seg)
        case Err(e) => Err(e)
        case Ok(q) => Ok(questions + [q])
  }

  /**
   * The row loop fails exactly when some clip is silent, and then with ZeroDivisionError;
   * otherwise it yields one question per row, each built from its own row.
   */
  lemma EnrichAllSpec(language: string, rows: seq<Row>, duration: string -> real, seg: Segmenters)
    ensures EnrichAll(language, rows, duration, seg).Err? <==> HasSilentClip(language, rows, duration)
    ensures EnrichAll(language, rows, duration, seg).Err? ==> EnrichAll(language, rows, duration, seg).error == ZeroDivisionError
    ensures EnrichAll(language, rows, duration, seg).Ok? ==>
      var questions := EnrichAll(language, rows, duration, seg).value;
      && |questions| == |rows|
      && forall i :: 0 <= i < |rows| ==> Enriched(questions[i], rows[i], language, duration, seg)
  {
    EnrichAllErr(language, rows, duration, seg);
    EnrichAllOk(language, rows, duration, seg);
  }

  lemma {:induction false} EnrichAllErr(language: string, rows: seq<Row>, duration: string -> real, seg: Segmenters)
    ensures EnrichAll(language, rows, duration, seg).Err? <==> HasSilentClip(language, rows, duration)
    ensures EnrichAll(language, rows, duration, seg).Err? ==> EnrichAll(language, rows, duration, seg).error == ZeroDivisionError
  {
    if rows != [] {
      var init := rows[..|rows| - 1];
      var last := rows[|rows| - 1];
      EnrichAllErr(language, init, duration, seg);
      if HasSilentClip(language, init, duration) {
        var i :| 0 <= i < |init| && duration(ClipPath(language, init[i].path)) == 0.0;
        assert rows[i] == init[i];
      }
      if HasSilentClip(language, rows, duration) {
        var i :| 0 <= i < |rows| && duration(ClipPath(language, rows[i].path)) == 0.0;
        if i < |init| {
          assert init[i] == rows[i];
        }
      }
    }
  }

  lemma {:induction false} EnrichAllOk(language: string, rows: seq<Row>, duration: string -> real, seg: Segmenters)
    ensures EnrichAll(language, rows, duration, seg).Ok? ==>
      var questions := EnrichAll(language, rows, duration, seg).value;
      && |questions| == |rows|
      && forall i :: 0 <= i < |rows| ==> Enriched(questions[i], rows[i], language, duration, seg)
  {
    if rows != [] && EnrichAll(language, rows, duration, seg).Ok? {
      var init := rows[..|rows| - 1];
      EnrichAllOk(language, init, duration, seg);
      var before := EnrichAll(language, init, duration, seg).value;
      var questions := EnrichAll(language, rows, duration, seg).value;
      assert questions[..|before|] == before;
      forall i | 0 <= i < |rows| ensures Enriched(questions[i], rows[i], language, duration, seg) {
        if i < |init| {
          assert questions[i] == before[i] && rows[i] == init[i];
        }
      }
    }
  }

  /**
   * The body of the row loop of `load_questions`: the question of one row, and the counter
   * tallied with its tokens; a silent clip raises ZeroDivisionError before the counter is
   * touched.
   */
  method EnrichRow(language: string, row: Row, duration: string -> real, seg: Segmenters, counter: WordCounter)
    returns (r: Result<Question>)
    requires counter.Valid()
    modifies counter
    ensures counter.Valid()
    ensures r == Enrich(language, row, duration, seg)
    ensures r.Err? ==> counter.counts == old(counter.counts)
    ensures r.Ok? ==> counter.counts == Tally(old(counter.counts), r.value.tokenized)
  {
    var audio := duration(ClipPath(language, row.path));
    var rate := CharsPerSecond(row.sentence, audio);
    if rate.Err? {
      return Err(rate.error);
    }
    var q := Question(row, audio, rate.value, [], map[]);
    q := ProcessQuestion(q, counter, seg);
    return Ok(q);
  }

  /**
   * The row loop of `load_questions`: the questions of all rows, the counter tallied with
   * every question's tokens in order.
   */
  method EnrichRows(language: string, rows: seq<Row>, duration: string -> real, seg: Segmenters, counter: WordCounter)
    returns (r: Result<seq<Question>>)
    requires counter.Valid()
    modifies counter
    ensures counter.Valid()
    ensures r == EnrichAll(language, rows, duration, seg)
    ensures r.Ok? ==> counter.counts == TallyAll(old(counter.counts), TokenLists(r.value))
  {
    var questions: seq<Question> := [];
    var i := 0;
    while i < |rows|
      invariant 0 <= i <= |rows|
      invariant counter.Valid()
      invariant EnrichAll(language, rows[..i], duration, seg) == Ok(questions)
      invariant counter.counts == TallyAll(old(counter.counts), TokenLists(questions))
    {
      var q := EnrichRow(language, rows[i], duration, seg, counter);
      assert rows[..i + 1][..i] == rows[..i];
      if q.Err? {
        EnrichAllFails(language, rows, duration, seg, i + 1);
        return Err(q.error);
      }
      TallyAllSnoc(old(counter.counts), questions, q.value);
      questions := questions + [q.value];
      i := i + 1;
    }
    assert rows[..i] == rows;
    return Ok(questions);
  }

  /** Once a prefix of the rows fails, so do all the rows. */
  lemma {:induction false} EnrichAllFails(language: string, rows: seq<Row>, duration: string -> real, seg: Segmenters, k: nat)
    requires k <= |rows| && EnrichAll(language, rows[..k], duration, seg).Err?
    ensures EnrichAll(language, rows, duration, seg) == EnrichAll(language, rows[..k], duration, seg)
    decreases |rows| - k
  {
    if k < |rows| {
      assert rows[..k + 1][..k] == rows[..k];
      EnrichAllFails(language, rows, duration, seg, k + 1);
    } else {
      assert rows[..k] == rows;
    }
  }

  /** The word table `load_questions` builds from `rows`; empty when a clip is silent. */
  function CorpusTable(language: string, rows: seq<Row>, duration: string -> real, seg: Segmenters): map<string, nat>
  {
    match EnrichAll(language, rows, duration, seg)
    case Err(_) => map[]
    case Ok(questions) => TallyAll(map[], TokenLists(questions))
  }

  /**
   * `load_questions` succeeds on `rows`: no clip is silent, and the generator's table,
   * computed from the corpus table, has an entry for every token of every question.
   */
  predicate Loads(
    language: string, rows: seq<Row>, duration: string -> real, seg: Segmenters,
    generate: map<string, nat> -> map<string, set<string>>)
  {
    && EnrichAll(language, rows, duration, seg).Ok?
    && Covers(generate(CorpusTable(language, rows, duration, seg)), EnrichAll(language, rows, duration, seg).value)
  }

  /**
   * `load_questions`: one question per row, in row order; the counter holds every token
   * of every question, counted with multiplicity; each question's distractors are the
   * generator's table restricted to its tokens. A silent clip raises ZeroDivisionError,
   * and a KeyError can only name a counted word the generator left out.
   */
  method LoadQuestions(
    language: string,
    rows: seq<Row>,
    duration: string -> real,
    seg: Segmenters,
    generate: map<string, nat> -> map<string, set<string>>)
    returns (r: Result<seq<Question>>, counter: WordCounter)
    ensures fresh(counter) && counter.Valid()
    ensures r.Ok? <==> Loads(language, rows, duration, seg, generate)
    ensures r.Err? ==> r.error == ZeroDivisionError || r.error.KeyError?
    ensures (r.Err? && r.error == ZeroDivisionError) <==> HasSilentClip(language, rows, duration)
    ensures r.Err? && r.error.KeyError? ==>
      r.error.key in counter.counts && r.error.key !in generate(counter.counts)
    ensures r.Ok? ==> |r.value| == |rows|
    ensures r.Ok? ==> counter.counts == TallyAll(map[], TokenLists(r.value)) == CorpusTable(language, rows, duration, seg)
    ensures r.Ok? ==> forall i :: 0 <= i < |rows| ==>
      && Enriched(r.value[i], rows[i], language, duration, seg)
      && Restricts(r.value[i].distractors, r.value[i].tokenized, generate(counter.counts))
  {
    counter := new WordCounter();
    var enriched := EnrichRows(language, rows, duration, seg, counter);
    EnrichAllSpec(language, rows, duration, seg);
    if enriched.Err? {
      return enriched, counter;
    }
    var questions := enriched.value;
    var global := generate(counter.counts);
    TallyAllCounts(map[], TokenLists(questions));
    r := AssignDistractors(questions, global);
    if r.Ok? {
      forall i | 0 <= i < |rows|
        ensures Enriched(r.value[i], rows[i], language, duration, seg)
      {
        assert r.value[i].tokenized == questions[i].tokenized;
      }
      assert TokenLists(r.value) == TokenLists(questions);
    } else {
      var i :| 0 <= i < |questions| && r.error.key in questions[i].tokenized;
      var j :| 0 <= j < |questions[i].tokenized| && questions[i].tokenized[j] == r.error.key;
      assert TokenLists(questions)[i][j] in counter.counts;
    }
  }
}
