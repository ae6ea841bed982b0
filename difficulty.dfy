/**
 * `difficulty_function` of question_loader.py, the sort key of a language's questions:
 * the speech rate times minus the relative frequency of the rarest word.
 */
module Difficulty {
  import opened Questions
  import opened Frequency

  /** `[word_frequency[word] / most_common_word[1] for word in tokens]` */
  function RelativeFrequencies(tokens: seq<string>, freq: map<string, nat>, top: nat): seq<real>
    requires top > 0
  {
    seq(|tokens|, i requires 0 <= i < |tokens| => Get(freq, tokens[i]) as real / top as real)
  }

  /** Python's `min` of a non-empty list. */
  function Min(xs: seq<real>): real
    requires |xs| > 0
  {
    if |xs| == 1 then xs[0]
    else
      var rest := Min(xs[1..]);
      if xs[0] <= rest then xs[0] else rest
  }

  /** The minimum is an element of the list and at most every element. */
  lemma {:induction false} MinSpec(xs: seq<real>)
    requires |xs| > 0
    ensures Min(xs) in xs
    ensures forall i :: 0 <= i < |xs| ==> Min(xs) <= xs[i]
  {
    if |xs| > 1 {
      MinSpec(xs[1..]);
      assert forall i :: 1 <= i < |xs| ==> xs[i] == xs[1..][i - 1];
    }
  }

  /** The difficulty key; an empty token list falls back to the speech rate. */
  function Score(q: Question, freq: map<string, nat>, mostCommon: (string, nat)): real
    requires mostCommon.1 > 0
  {
    var rel := RelativeFrequencies(q.tokenized, freq, mostCommon.1);
    if |rel| > 0 then q.charsSec * -Min(rel) else q.charsSec
  }

  /** The count of the rarest token. */
  function RarestCount(tokens: seq<string>, freq: map<string, nat>): nat
    requires |tokens| > 0
  {
    if |tokens| == 1 then Get(freq, tokens[0])
    else
      var rest := RarestCount(tokens[1..], freq);
      if Get(freq, tokens[0]) <= rest then Get(freq, tokens[0]) else rest
  }

  /** The rarest count is attained by some token and is at most every token's count. */
  lemma {:induction false} RarestCountSpec(tokens: seq<string>, freq: map<string, nat>)
    requires |tokens| > 0
    ensures exists i :: 0 <= i < |tokens| && RarestCount(tokens, freq) == Get(freq, tokens[i])
    ensures forall i :: 0 <= i < |tokens| ==> RarestCount(tokens, freq) <= Get(freq, tokens[i])
  {
    if |tokens| > 1 {
      RarestCountSpec(tokens[1..], freq);
      assert forall i :: 1 <= i < |tokens| ==> tokens[i] == tokens[1..][i - 1];
      var j :| 0 <= j < |tokens[1..]| && RarestCount(tokens[1..], freq) == Get(freq, tokens[1..][j]);
      assert tokens[1..][j] == tokens[j + 1];
      if Get(freq, tokens[0]) > RarestCount(tokens[1..], freq) {
        assert RarestCount(tokens, freq) == Get(freq, tokens[j + 1]);
      } else {
        assert RarestCount(tokens, freq) == Get(freq, tokens[0]);
      }
    } else {
      assert RarestCount(tokens, freq) == Get(freq, tokens[0]);
    }
  }

  lemma DivMonotone(a: real, b: real, d: real)
    requires a <= b && d > 0.0
    ensures a / d <= b / d
  {
    assert b / d - a / d == (b - a) / d;
  }

  lemma MulMonotone(c: real, x: real, y: real)
    requires c >= 0.0 && x <= y
    ensures c * x <= c * y
  {
    assert c * y - c * x == c * (y - x);
  }

  lemma MulNegate(c: real, x: real)
    ensures c * -x == -(c * x)
  {
  }

  /** The smallest relative frequency belongs to the rarest token. */
  lemma MinRelative(tokens: seq<string>, freq: map<string, nat>, top: nat)
    requires top > 0 && |tokens| > 0
    ensures Min(RelativeFrequencies(tokens, freq, top)) == RarestCount(tokens, freq) as real / top as real
  {
    var d := top as real;
    var rel := RelativeFrequencies(tokens, freq, top);
    var m := RarestCount(tokens, freq);
    RarestCountSpec(tokens, freq);
    MinSpec(rel);
    var i :| 0 <= i < |tokens| && m == Get(freq, tokens[i]);
    var k :| 0 <= k < |rel| && Min(rel) == rel[k];
    assert Min(rel) <= rel[i];
    assert rel[i] == m as real / d;
    assert rel[k] == Get(freq, tokens[k]) as real / d;
    DivMonotone(m as real, Get(freq, tokens[k]) as real, d);
  }

  /** The rarest word's relative frequency, `m / most_common_count`. */
  function RarestRelative(q: Question, freq: map<string, nat>, mostCommon: (string, nat)): (x: real)
    requires mostCommon.1 > 0 && |q.tokenized| > 0
    ensures x >= 0.0
  {
    DivMonotone(0.0, RarestCount(q.tokenized, freq) as real, mostCommon.1 as real);
    RarestCount(q.tokenized, freq) as real / mostCommon.1 as real
  }

  /**
   * The key is `chars_sec * -(m / most_common_count)`, with `m` the count of the rarest
   * token; with no tokens it is `chars_sec`.
   */
  lemma ScoreFormula(q: Question, freq: map<string, nat>, mostCommon: (string, nat))
    requires mostCommon.1 > 0
    ensures |q.tokenized| == 0 ==> Score(q, freq, mostCommon) == q.charsSec
    ensures |q.tokenized| > 0 ==> Score(q, freq, mostCommon) == q.charsSec * -RarestRelative(q, freq, mostCommon)
  {
    if |q.tokenized| > 0 {
      MinRelative(q.tokenized, freq, mostCommon.1);
    }
  }

  /** The key of a question that has tokens, as a negated product. */
  lemma ScoreNegatedProduct(q: Question, freq: map<string, nat>, mostCommon: (string, nat))
    requires mostCommon.1 > 0 && |q.tokenized| > 0
    ensures Score(q, freq, mostCommon) == -(q.charsSec * RarestRelative(q, freq, mostCommon))
  {
    ScoreFormula(q, freq, mostCommon);
    MulNegate(q.charsSec, RarestRelative(q, freq, mostCommon));
  }

  /** With a non-negative speech rate, a question that has tokens never scores above 0. */
  lemma ScoreNonPositive(q: Question, freq: map<string, nat>, mostCommon: (string, nat))
    requires mostCommon.1 > 0 && |q.tokenized| > 0 && q.charsSec >= 0.0
    ensures Score(q, freq, mostCommon) <= 0.0
  {
    ScoreNegatedProduct(q, freq, mostCommon);
    MulMonotone(q.charsSec, 0.0, RarestRelative(q, freq, mostCommon));
  }

  /** A rarer rarest word has the smaller relative frequency. */
  lemma RarestRelativeMonotone(q1: Question, q2: Question, freq: map<string, nat>, mostCommon: (string, nat))
    requires mostCommon.1 > 0 && |q1.tokenized| > 0 && |q2.tokenized| > 0
    requires RarestCount(q1.tokenized, freq) <= RarestCount(q2.tokenized, freq)
    ensures RarestRelative(q1, freq, mostCommon) <= RarestRelative(q2, freq, mostCommon)
  {
    DivMonotone(RarestCount(q1.tokenized, freq) as real, RarestCount(q2.tokenized, freq) as real, mostCommon.1 as real);
  }

  lemma NegMulMonotone(c: real, x: real, y: real)
    requires c >= 0.0 && x <= y
    ensures -(c * y) <= -(c * x)
  {
    MulMonotone(c, x, y);
  }

  /** At the same speech rate, the key falls as the rarest word's relative frequency rises. */
  lemma ScoreFallsWithRarestRelative(q1: Question, q2: Question, freq: map<string, nat>, mostCommon: (string, nat))
    requires mostCommon.1 > 0 && |q1.tokenized| > 0 && |q2.tokenized| > 0
    requires q1.charsSec == q2.charsSec >= 0.0
    requires RarestRelative(q1, freq, mostCommon) <= RarestRelative(q2, freq, mostCommon)
    ensures Score(q2, freq, mostCommon) <= Score(q1, freq, mostCommon)
  {
    var c, x, y := q1.charsSec, RarestRelative(q1, freq, mostCommon), RarestRelative(q2, freq, mostCommon);
    calc {
      Score(q2, freq, mostCommon);
    == { ScoreNegatedProduct(q2, freq, mostCommon); }
      -(q2.charsSec * y);
    ==
      -(c * y);
    <= { NegMulMonotone(c, x, y); }
      -(c * x);
    == { ScoreNegatedProduct(q1, freq, mostCommon); }
      Score(q1, freq, mostCommon);
    }
  }

  /**
   * At the same speech rate, the question whose rarest word is rarer gets a key at least as
   * large, so when the keys differ it sorts no earlier.
   */
  lemma RarerWordScoresHigher(q1: Question, q2: Question, freq: map<string, nat>, mostCommon: (string, nat))
    requires mostCommon.1 > 0 && |q1.tokenized| > 0 && |q2.tokenized| > 0
    requires q1.charsSec == q2.charsSec >= 0.0
    requires RarestCount(q1.tokenized, freq) <= RarestCount(q2.tokenized, freq)
    ensures Score(q2, freq, mostCommon) <= Score(q1, freq, mostCommon)
  {
    RarestRelativeMonotone(q1, q2, freq, mostCommon);
    ScoreFallsWithRarestRelative(q1, q2, freq, mostCommon);
  }

  /**
   * With the same tokens, the faster clip gets the smaller (or equal) key: the key does
   * not grow with the speech rate.
   */
  lemma FasterSpeechScoresLower(q1: Question, q2: Question, freq: map<string, nat>, mostCommon: (string, nat))
    requires mostCommon.1 > 0 && |q1.tokenized| > 0
    requires q1.tokenized == q2.tokenized && q1.charsSec <= q2.charsSec
    ensures Score(q2, freq, mostCommon) <= Score(q1, freq, mostCommon)
  {
    var x := RarestRelative(q1, freq, mostCommon);
    calc {
      Score(q2, freq, mostCommon);
    == { ScoreNegatedProduct(q2, freq, mostCommon); }
      -(q2.charsSec * x);
    <= { MulMonotone(x, q1.charsSec, q2.charsSec); }
      -(q1.charsSec * x);
    == { ScoreNegatedProduct(q1, freq, mostCommon); }
      Score(q1, freq, mostCommon);
    }
  }
}
