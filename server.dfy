/**
 * The clip server of main.py: each corpus row's sentence is split on whitespace, and
 * `/get_clips` keeps drawing random questions until it holds three distinct ones.
 */
module ClipServer {
  import opened Errors
  import opened Text

  /** The string holds no whitespace character. */
  predicate NoSpace(s: string)
  {
    forall i :: 0 <= i < |s| ==> !IsSpace(s[i])
  }

  /** Length of the leading run of whitespace. */
  function SpaceRun(s: string): (n: nat)
    ensures n <= |s| && IsBlank(s[..n])
    ensures n < |s| ==> !IsSpace(s[n])
  {
    Run(s, IsSpace)
  }

  /** Length of the leading run of non-whitespace characters. */
  function WordLength(s: string): (n: nat)
    ensures n <= |s| && NoSpace(s[..n])
    ensures n < |s| ==> IsSpace(s[n])
  {
    Run(s, c => !IsSpace(c))
  }

  /** `s.split()`: the maximal runs of non-whitespace characters, in order. */
  function Words(s: string): seq<string>
    decreases |s|
  {
    if s == [] then []
    else if IsSpace(s[0]) then Words(s[1..])
    else
      var n := WordLength(s);
      [s[..n]] + Words(s[n..])
  }

  /** `" ".join(words)` */
  function JoinSpace(words: seq<string>): string
  {
    if words == [] then ""
    else if |words| == 1 then words[0]
    else words[0] + " " + JoinSpace(words[1..])
  }

  /** Every run of whitespace replaced by a single space. */
  function Collapse(s: string): string
    decreases |s|
  {
    if s == [] then ""
    else if IsSpace(s[0]) then " " + Collapse(s[SpaceRun(s)..])
    else [s[0]] + Collapse(s[1..])
  }

  /** Length of the trailing run of whitespace. */
  function TrailingSpace(s: string): (n: nat)
    ensures n <= |s|
  {
    if s == [] || !IsSpace(s[|s| - 1]) then 0 else TrailingSpace(s[..|s| - 1]) + 1
  }

  /** The trailing run is whitespace only and maximal. */
  lemma {:induction false} TrailingSpaceSpec(s: string)
    ensures IsBlank(s[|s| - TrailingSpace(s)..])
    ensures TrailingSpace(s) < |s| ==> !IsSpace(s[|s| - TrailingSpace(s) - 1])
  {
    if s != [] && IsSpace(s[|s| - 1]) {
      var init := s[..|s| - 1];
      var m := TrailingSpace(init);
      TrailingSpaceSpec(init);
      assert s[|s| - (m + 1)..] == init[|init| - m..] + [s[|s| - 1]];
      if m + 1 < |s| {
        assert s[|s| - (m + 1) - 1] == init[|init| - m - 1];
      }
    }
  }

  /** `s.strip()` */
  function Strip(s: string): string
  {
    var left := s[SpaceRun(s)..];
    left[..|left| - TrailingSpace(left)]
  }

  /** `s` neither starts nor ends with whitespace. */
  predicate Trimmed(s: string)
  {
    s != [] ==> !IsSpace(s[0]) && !IsSpace(s[|s| - 1])
  }

  /** The string with its whitespace characters deleted. */
  function RemoveSpace(s: string): string
  {
    if s == [] then "" else (if IsSpace(s[0]) then "" else [s[0]]) + RemoveSpace(s[1..])
  }

  /** No word is empty or holds whitespace; there are none exactly when the sentence is blank. */
  lemma {:induction false} WordsShape(s: string)
    ensures forall t :: t in Words(s) ==> t != [] && NoSpace(t)
    ensures Words(s) == [] <==> IsBlank(s)
    decreases |s|
  {
    if s != [] {
      if IsSpace(s[0]) {
        WordsShape(s[1..]);
        if IsBlank(s[1..]) {
          forall i | 0 <= i < |s| ensures IsSpace(s[i]) {
            if i > 0 { assert s[i] == s[1..][i - 1]; }
          }
        } else {
          var i :| 0 <= i < |s[1..]| && !IsSpace(s[1..][i]);
          assert !IsSpace(s[i + 1]);
        }
      } else {
        WordsShape(s[WordLength(s)..]);
      }
    }
  }

  lemma {:induction false} RemoveSpaceAppend(a: string, b: string)
    ensures RemoveSpace(a + b) == RemoveSpace(a) + RemoveSpace(b)
  {
    if a != [] {
      assert (a + b)[1..] == a[1..] + b;
      RemoveSpaceAppend(a[1..], b);
    } else {
      assert a + b == b;
    }
  }

  lemma {:induction false} RemoveSpaceNone(a: string)
    requires NoSpace(a)
    ensures RemoveSpace(a) == a
  {
    if a != [] {
      RemoveSpaceNone(a[1..]);
    }
  }

  /** The words hold exactly the sentence's non-whitespace characters, in sentence order. */
  lemma {:induction false} WordsConcat(s: string)
    ensures Concat(Words(s)) == RemoveSpace(s)
    decreases |s|
  {
    if s != [] {
      if IsSpace(s[0]) {
        WordsConcat(s[1..]);
      } else {
        var n := WordLength(s);
        WordsConcat(s[n..]);
        var words := [s[..n]] + Words(s[n..]);
        assert words[1..] == Words(s[n..]);
        RemoveSpaceAppend(s[..n], s[n..]);
        RemoveSpaceNone(s[..n]);
        assert s[..n] + s[n..] == s;
      }
    }
  }

  /** Leading whitespace does not change the words. */
  lemma {:induction false} WordsStripLeft(s: string)
    ensures Words(s[SpaceRun(s)..]) == Words(s)
    decreases |s|
  {
    if s != [] && IsSpace(s[0]) {
      WordsStripLeft(s[1..]);
      RunIs(s[1..], IsSpace, SpaceRun(s) - 1);
      assert s[1..][SpaceRun(s) - 1..] == s[SpaceRun(s)..];
    }
  }

  /** Trailing whitespace does not change the words. */
  lemma {:induction false} WordsAppendBlank(s: string, b: string)
    requires IsBlank(b)
    ensures Words(s + b) == Words(s)
    decreases |s|
  {
    if s == [] {
      assert s + b == b;
      WordsShape(b);
    } else if IsSpace(s[0]) {
      assert (s + b)[1..] == s[1..] + b;
      WordsAppendBlank(s[1..], b);
    } else {
      var n := WordLength(s);
      var sb := s + b;
      assert sb[..n] == s[..n];
      if n < |s| {
        assert sb[n] == s[n];
      } else if n < |sb| {
        assert sb[n] == b[0];
      }
      RunIs(sb, c => !IsSpace(c), n);
      assert sb[n..] == s[n..] + b;
      WordsAppendBlank(s[n..], b);
    }
  }

  /** Stripping leaves no whitespace at either end. */
  lemma StripTrimmed(s: string)
    ensures Trimmed(Strip(s))
  {
    var left := s[SpaceRun(s)..];
    var t := Strip(s);
    TrailingSpaceSpec(left);
    if t != [] {
      assert t[0] == left[0] == s[SpaceRun(s)];
      assert t[|t| - 1] == left[|left| - TrailingSpace(left) - 1];
    }
  }

  /** Stripping does not change the words, and leaves no whitespace at either end. */
  lemma WordsStrip(s: string)
    ensures Words(Strip(s)) == Words(s)
    ensures Trimmed(Strip(s))
  {
    StripTrimmed(s);
    WordsStripLeft(s);
    WordsStripRight(s[SpaceRun(s)..]);
  }

  /** Trailing whitespace does not change the words. */
  lemma WordsStripRight(t: string)
    ensures Words(t[..|t| - TrailingSpace(t)]) == Words(t)
  {
    TrailingSpaceSpec(t);
    WordsBlankSuffix(t, |t| - TrailingSpace(t));
  }

  /** Cutting off a whitespace-only suffix does not change the words. */
  lemma WordsBlankSuffix(t: string, m: nat)
    requires m <= |t| && IsBlank(t[m..])
    ensures Words(t[..m]) == Words(t)
  {
    assert t[..m] + t[m..] == t;
    WordsAppendBlank(t[..m], t[m..]);
  }

  /** A leading word is copied unchanged by `Collapse`. */
  lemma {:induction false} CollapseWord(s: string, n: nat)
    requires n <= |s| && NoSpace(s[..n])
    ensures Collapse(s) == s[..n] + Collapse(s[n..])
  {
    if n > 0 {
      assert !IsSpace(s[..n][0]);
      CollapseWord(s[1..], n - 1);
      assert s[1..][n - 1..] == s[n..];
      assert [s[0]] + s[1..][..n - 1] == s[..n];
    }
  }

  lemma JoinSpaceCons(w: string, words: seq<string>)
    requires words != []
    ensures JoinSpace([w] + words) == w + " " + JoinSpace(words)
  {
    assert ([w] + words)[1..] == words;
  }

  /**
   * A trimmed string that is more than one word is its first word, one whitespace run,
   * and a shorter trimmed rest `v` that holds at least one word.
   */
  lemma WordThenSpace(t: string) returns (v: string)
    requires Trimmed(t) && t != [] && WordLength(t) < |t|
    ensures |v| < |t| && Trimmed(v) && v != []
    ensures Words(t) == [t[..WordLength(t)]] + Words(v)
    ensures Collapse(t) == t[..WordLength(t)] + " " + Collapse(v)
    ensures Words(v) != []
  {
    var n := WordLength(t);
    CollapseWord(t, n);
    var u := t[n..];
    var k := SpaceRun(u);
    assert u[|u| - 1] == t[|t| - 1];
    v := u[k..];
    assert v[|v| - 1] == t[|t| - 1];
    WordsStripLeft(u);
    assert Words(v) == [v[..WordLength(v)]] + Words(v[WordLength(v)..]);
  }

  /** On a trimmed string, joining the words with single spaces is collapsing its whitespace runs. */
  lemma {:induction false} JoinTrimmed(t: string)
    requires Trimmed(t)
    ensures JoinSpace(Words(t)) == Collapse(t)
    decreases |t|
  {
    if t != [] {
      var n := WordLength(t);
      if n < |t| {
        var v := WordThenSpace(t);
        JoinTrimmed(v);
        JoinSpaceCons(t[..n], Words(v));
      } else {
        CollapseWord(t, n);
        assert t[..n] == t && t[n..] == [];
      }
    }
  }

  /**
   * Joining the words with single spaces gives the sentence stripped of leading and
   * trailing whitespace, with every inner whitespace run collapsed to one space.
   */
  lemma WordsNormalize(s: string)
    ensures JoinSpace(Words(s)) == Collapse(Strip(s))
  {
    WordsStrip(s);
    JoinTrimmed(Strip(s));
  }

  /** A field of a question record: a text column of the corpus, or the token list. */
  datatype Field = Text(text: string) | Tokens(tokens: seq<string>)

  const SentenceKey: string := "sentence"

  /**
   * `process_question` of main.py: the `sentence` field becomes `sentence.split()`, whose
   * tokens are non-empty, free of whitespace, and spell the sentence without its whitespace;
   * every other field keeps its text; a row without a `sentence` column raises KeyError.
   */
  function ProcessQuestion(question: map<string, string>): (r: Result<map<string, Field>>)
    ensures r.Err? <==> SentenceKey !in question
    ensures r.Err? ==> r.error == KeyError(SentenceKey)
    ensures r.Ok? ==> r.value.Keys == question.Keys
    ensures r.Ok? ==> r.value[SentenceKey] == Tokens(Words(question[SentenceKey]))
    ensures r.Ok? ==> forall t :: t in r.value[SentenceKey].tokens ==> t != [] && NoSpace(t)
    ensures r.Ok? ==> Concat(r.value[SentenceKey].tokens) == RemoveSpace(question[SentenceKey])
    ensures r.Ok? ==> JoinSpace(r.value[SentenceKey].tokens) == Collapse(Strip(question[SentenceKey]))
    ensures r.Ok? ==> forall k :: k in question && k != SentenceKey ==> r.value[k] == Text(question[k])
  {
    if SentenceKey !in question then Err(KeyError(SentenceKey))
    else
      WordsNormalize(question[SentenceKey]);
      WordsShape(question[SentenceKey]);
      WordsConcat(question[SentenceKey]);
      Ok(map k | k in question :: if k == SentenceKey then Tokens(Words(question[k])) else Text(question[k]))
  }

  /** The first occurrence of each element of `s`, in order. */
  function Dedup<T(==)>(s: seq<T>): seq<T>
  {
    if s == [] then []
    else
      var before := Dedup(s[..|s| - 1]);
      var x := s[|s| - 1];
      if x in before then before else before + [x]
  }

  predicate Distinct<T(==)>(s: seq<T>)
  {
    forall i, j :: 0 <= i < j < |s| ==> s[i] != s[j]
  }

  /** `Dedup` keeps every element once and nothing else. */
  lemma {:induction false} DedupSpec<T>(s: seq<T>)
    ensures Distinct(Dedup(s))
    ensures forall x :: x in Dedup(s) <==> x in s
  {
    if s != [] {
      DedupSpec(s[..|s| - 1]);
      assert s == s[..|s| - 1] + [s[|s| - 1]];
    }
  }

  /** `DedupSpec` for one element; it only keeps `GetClips`'s proof cheap. */
  lemma DedupMember<T>(s: seq<T>, x: T)
    ensures x in Dedup(s) <==> x in s
  {
    DedupSpec(s);
  }

  /** Drawing more never changes the distinct elements already seen. */
  lemma {:induction false} DedupPrefix<T>(s: seq<T>, n: nat)
    requires n <= |s|
    ensures |Dedup(s[..n])| <= |Dedup(s)| && Dedup(s[..n]) == Dedup(s)[..|Dedup(s[..n])|]
    decreases |s| - n
  {
    if n < |s| {
      DedupPrefix(s, n + 1);
      assert s[..n + 1][..n] == s[..n];
    } else {
      assert s[..n] == s;
    }
  }

  /** A sequence without repeats is no longer than the set it draws from. */
  lemma {:induction false} DistinctBound<T>(s: seq<T>, pool: set<T>)
    requires Distinct(s) && forall x :: x in s ==> x in pool
    ensures |s| <= |pool|
  {
    if s != [] {
      var last := s[|s| - 1];
      var init := s[..|s| - 1];
      assert forall x :: x in init ==> x in pool - {last} by {
        forall x | x in init ensures x in pool - {last} {
          var i :| 0 <= i < |init| && init[i] == x;
          assert s[i] == x;
        }
      }
      DistinctBound(init, pool - {last});
    }
  }

  /** What one call of `get_clips` ends in. */
  datatype Clips<T> =
    | Selected(clips: seq<T>)    // three distinct questions
    | Failed(error: Error)       // `random.choice` of an empty list
    | StillDrawing(held: seq<T>) // the draws ran out before three distinct questions came up

  /**
   * `get_clips`: draws questions (the successive results of `random.choice`, given as
   * `draws`) until three distinct ones are held. It returns the first three distinct
   * draws, each a question of the corpus; that needs at least three distinct questions,
   * and with fewer the loop never stops, whatever is drawn.
   */
  method GetClips<T(==)>(questions: seq<T>, draws: seq<T>) returns (r: Clips<T>)
    requires forall x :: x in draws ==> x in questions
    ensures r.Failed? <==> questions == []
    ensures r.Failed? ==> r.error == IndexError
    ensures r.Selected? <==> questions != [] && |Dedup(draws)| >= 3
    ensures r.Selected? ==> |r.clips| == 3 && r.clips == Dedup(draws)[..3] && Distinct(r.clips)
    ensures r.Selected? ==> forall x :: x in r.clips ==> x in questions
    ensures r.Selected? ==> |set x | x in questions| >= 3
    ensures r.StillDrawing? ==> r.held == Dedup(draws) && |r.held| < 3
  {
    var selected: seq<T> := [];
    var d := 0;
    DedupSpec(draws);
    ghost var pool := set x | x in questions;
    forall x | x in Dedup(draws) ensures x in pool {
      DedupMember(draws, x);
    }
    DistinctBound(Dedup(draws), pool);
    while |selected| < 3
      invariant 0 <= d <= |draws| && |selected| <= 3
      invariant selected == Dedup(draws[..d])
      decreases |draws| - d
    {
      if questions == [] {
        return Failed(IndexError);
      }
      if d == |draws| {
        assert draws[..d] == draws;
        return StillDrawing(selected);
      }
      var x := draws[d];
      assert draws[..d + 1] == draws[..d] + [x];
      assert draws[..d + 1][..d] == draws[..d];
      if x !in selected {
        selected := selected + [x];
      }
      d := d + 1;
    }
    DedupPrefix(draws, d);
    DedupSpec(draws[..d]);
    r := Selected(selected);
  }
}
