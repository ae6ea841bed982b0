/**
 * The per-language word-frequency table of question_loader.py, a `collections.Counter`
 * that `process_question` updates in place and `load_all_languages` asks for its most
 * common entry.
 */
module Frequency {
  import opened Errors

  /** `counter[w]`: a Counter answers 0 for a word it has not seen. */
  function Get(counts: map<string, nat>, w: string): nat
  {
    if w in counts then counts[w] else 0
  }

  /** The table after `counter[word] += 1` for each word of `words`, in order. */
  function Tally(counts: map<string, nat>, words: seq<string>): map<string, nat>
  {
    if words == [] then counts
    else
      var before := Tally(counts, words[..|words| - 1]);
      var w := words[|words| - 1];
      before[w := Get(before, w) + 1]
  }

  /**
   * Each word's count rises by exactly its number of occurrences in `words`; the keys
   * gained are the words themselves, and no other key appears.
   */
  lemma {:induction false} TallyCounts(counts: map<string, nat>, words: seq<string>)
    ensures forall w :: Get(Tally(counts, words), w) == Get(counts, w) + multiset(words)[w]
    ensures Tally(counts, words).Keys == counts.Keys + set w | w in words
  {
    if words != [] {
      var init := words[..|words| - 1];
      var last := words[|words| - 1];
      TallyCounts(counts, init);
      assert words == init + [last];
      assert multiset(words) == multiset(init) + multiset{last};
      assert (set w | w in words) == (set w | w in init) + {last};
    }
  }

  /** A table whose every entry is positive keeps that property under `Tally`. */
  lemma {:induction false} TallyPositive(counts: map<string, nat>, words: seq<string>)
    requires forall w :: w in counts ==> counts[w] > 0
    ensures forall w :: w in Tally(counts, words) ==> Tally(counts, words)[w] > 0
  {
    if words != [] {
      TallyPositive(counts, words[..|words| - 1]);
    }
  }

  /** The table after tallying every sentence of `sentences`, in order. */
  function TallyAll(counts: map<string, nat>, sentences: seq<seq<string>>): map<string, nat>
  {
    if sentences == [] then counts
    else Tally(TallyAll(counts, sentences[..|sentences| - 1]), sentences[|sentences| - 1])
  }

  /** Number of occurrences of `w` over all sentences. */
  function Occurrences(sentences: seq<seq<string>>, w: string): nat
  {
    if sentences == [] then 0
    else Occurrences(sentences[..|sentences| - 1], w) + multiset(sentences[|sentences| - 1])[w]
  }

  /**
   * Over a whole corpus, a word's count is the number of its occurrences summed over
   * all sentences, and every token of every sentence is a key of the table.
   */
  lemma {:induction false} TallyAllCounts(counts: map<string, nat>, sentences: seq<seq<string>>)
    ensures forall w :: Get(TallyAll(counts, sentences), w) == Get(counts, w) + Occurrences(sentences, w)
    ensures forall i, j :: 0 <= i < |sentences| && 0 <= j < |sentences[i]| ==> sentences[i][j] in TallyAll(counts, sentences)
  {
    if sentences != [] {
      var init := sentences[..|sentences| - 1];
      var last := sentences[|sentences| - 1];
      TallyAllCounts(counts, init);
      TallyCounts(TallyAll(counts, init), last);
      forall i, j | 0 <= i < |sentences| && 0 <= j < |sentences[i]|
        ensures sentences[i][j] in TallyAll(counts, sentences)
      {
        if i < |init| {
          assert sentences[i] == init[i];
        } else {
          assert sentences[i][j] in (set w | w in last);
        }
      }
    }
  }

  /** The Counter object. Only `+= 1` ever writes to it, so every stored count is positive. */
  class WordCounter {
    var counts: map<string, nat>

    ghost predicate Valid()
      reads this
    {
      forall w :: w in counts ==> counts[w] > 0
    }

    /** `collections.Counter()` */
    constructor ()
      ensures Valid() && counts == map[]
    {
      counts := map[];
    }

    /** `counter[w]` */
    function Count(w: string): nat
      reads this
    {
      Get(counts, w)
    }

    /** `counter[w] += 1` */
    method Increment(w: string)
      requires Valid()
      modifies this
      ensures Valid()
      ensures counts == old(counts)[w := old(Count(w)) + 1]
    {
      counts := counts[w := Count(w) + 1];
    }

    /**
     * `counter.most_common(1)[0]`: a (word, count) entry whose count is at least every
     * count of the table; an empty table has no first entry (IndexError).
     */
    method MostCommon() returns (r: Result<(string, nat)>)
      requires Valid()
      ensures r.Err? <==> counts == map[]
      ensures r.Err? ==> r.error == IndexError
      ensures r.Ok? ==> r.value.0 in counts && r.value.1 == counts[r.value.0] > 0
      ensures r.Ok? ==> forall w :: w in counts ==> counts[w] <= r.value.1
    {
      if counts == map[] {
        return Err(IndexError);
      }
      var best :| best in counts;
      var rest := counts.Keys - {best};
      while rest != {}
        invariant rest <= counts.Keys && best in counts
        invariant forall w :: w in counts && w !in rest ==> counts[w] <= counts[best]
        decreases rest
      {
        var w :| w in rest;
        if counts[w] > counts[best] {
          best := w;
        }
        rest := rest - {w};
      }
      r := Ok((best, counts[best]));
    }
  }
}
