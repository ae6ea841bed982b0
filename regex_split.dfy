/**
 * `re.split("(\\w+)", s)`: because the pattern has a capturing group, Python returns
 * the non-word runs and the captured word runs alternately,
 * `[nonword_0, word_1, nonword_1, ..., word_k, nonword_k]`, where only the first and
 * the last non-word run may be empty. The character class `\w` is the parameter `w`.
 */
module RegexSplit {
  import opened Text

  predicate AllWord(s: string, w: char -> bool)
  {
    forall i :: 0 <= i < |s| ==> w(s[i])
  }

  predicate NoWord(s: string, w: char -> bool)
  {
    forall i :: 0 <= i < |s| ==> !w(s[i])
  }

  /** Length of the leading run of non-word characters. */
  function NonWordRun(s: string, w: char -> bool): (n: nat)
    ensures n <= |s| && NoWord(s[..n], w)
    ensures n < |s| ==> w(s[n])
  {
    Run(s, c => !w(c))
  }

  /** Length of the leading run of word characters. */
  function WordRun(s: string, w: char -> bool): (n: nat)
    ensures n <= |s| && AllWord(s[..n], w)
    ensures n < |s| ==> !w(s[n])
  {
    Run(s, w)
  }

  function Split(s: string, w: char -> bool): seq<string>
    decreases |s|
  {
    var n := NonWordRun(s, w);
    if n == |s| then [s]
    else
      var rest := s[n..];
      var k := WordRun(rest, w);
      [s[..n], rest[..k]] + Split(rest[k..], w)
  }

  /**
   * The shape `re.split` gives with a capturing group: an odd number of pieces; even
   * positions hold runs free of word characters, odd positions non-empty runs of word
   * characters, and every non-word run but the first and the last is non-empty, so
   * every run is maximal and no two word runs are adjacent.
   */
  predicate Alternating(pieces: seq<string>, w: char -> bool)
  {
    && |pieces| % 2 == 1
    && (forall i :: 0 <= i < |pieces| && i % 2 == 0 ==> NoWord(pieces[i], w))
    && (forall i :: 0 <= i < |pieces| && i % 2 == 1 ==> pieces[i] != [] && AllWord(pieces[i], w))
    && (forall i :: 0 < i < |pieces| - 1 && i % 2 == 0 ==> pieces[i] != [])
  }

  /** When `wa` on `a` and `wb` on `b` agree position by position, the leading runs agree. */
  lemma RunsAgree(a: string, b: string, wa: char -> bool, wb: char -> bool)
    requires |a| == |b| && forall i :: 0 <= i < |a| ==> wa(a[i]) == wb(b[i])
    ensures NonWordRun(a, wa) == NonWordRun(b, wb)
    ensures WordRun(a, wa) == WordRun(b, wb)
  {
    var n1, n2 := NonWordRun(a, wa), NonWordRun(b, wb);
    forall i | 0 <= i < n2 ensures !wa(a[i]) { assert b[..n2][i] == b[i]; }
    forall i | 0 <= i < n1 ensures !wb(b[i]) { assert a[..n1][i] == a[i]; }
    var k1, k2 := WordRun(a, wa), WordRun(b, wb);
    forall i | 0 <= i < k2 ensures wa(a[i]) { assert b[..k2][i] == b[i]; }
    forall i | 0 <= i < k1 ensures wb(b[i]) { assert a[..k1][i] == a[i]; }
  }

  /** `w` on a character once `from` is replaced by `to` is `w2` on the original character. */
  predicate ClassesAgree(w: char -> bool, w2: char -> bool, from: char, to: char)
  {
    forall c :: w(if c == from then to else c) == w2(c)
  }

  /** The replaced sentence under `w` has the leading runs of the original under `w2`. */
  lemma ReplaceRuns(s: string, w: char -> bool, w2: char -> bool, from: char, to: char)
    requires ClassesAgree(w, w2, from, to)
    ensures NonWordRun(Replace(s, from, to), w) == NonWordRun(s, w2)
    ensures WordRun(Replace(s, from, to), w) == WordRun(s, w2)
  {
    var r := Replace(s, from, to);
    forall i | 0 <= i < |s| ensures w(r[i]) == w2(s[i]) {
      assert r[i] == if s[i] == from then to else s[i];
    }
    RunsAgree(r, s, w, w2);
  }

  /** Cutting a replaced sentence is replacing in the cut pieces. */
  lemma ReplaceCut(s: string, from: char, to: char, n: nat, k: nat)
    requires n <= |s| && k <= |s| - n
    ensures Replace(s, from, to)[..n] == Replace(s[..n], from, to)
    ensures Replace(s, from, to)[n..] == Replace(s[n..], from, to)
    ensures Replace(s[n..], from, to)[..k] == Replace(s[n..][..k], from, to)
    ensures Replace(s[n..], from, to)[k..] == Replace(s[n..][k..], from, to)
  {
  }

  /**
   * Splitting a sentence after replacing `from` by `to` gives the pieces of the original
   * sentence, each with the same replacement, when the two classes agree on every character
   * once it is replaced.
   */
  lemma {:induction false} SplitReplace(s: string, w: char -> bool, w2: char -> bool, from: char, to: char)
    requires ClassesAgree(w, w2, from, to)
    ensures Split(Replace(s, from, to), w) == ReplaceEach(Split(s, w2), from, to)
    decreases |s|
  {
    var r := Replace(s, from, to);
    ReplaceRuns(s, w, w2, from, to);
    var n := NonWordRun(s, w2);
    if n == |s| {
      assert ReplaceEach([s], from, to) == [r];
    } else {
      var rest := s[n..];
      var k := WordRun(rest, w2);
      ReplaceCut(s, from, to, n, k);
      ReplaceRuns(rest, w, w2, from, to);
      SplitReplace(rest[k..], w, w2, from, to);
      ReplaceEachAppend([s[..n], rest[..k]], Split(rest[k..], w2), from, to);
      assert ReplaceEach([s[..n], rest[..k]], from, to) == [r[..n], r[n..][..k]];
    }
  }

  /** The pieces concatenate back to the sentence. */
  lemma {:induction false} SplitConcat(s: string, w: char -> bool)
    ensures Concat(Split(s, w)) == s
    decreases |s|
  {
    var n := NonWordRun(s, w);
    if n == |s| {
      assert s[..n] == s;
    } else {
      var rest := s[n..];
      var k := WordRun(rest, w);
      var tail := Split(rest[k..], w);
      SplitConcat(rest[k..], w);
      ConcatCut(s, n, k, tail);
    }
  }

  /** Cutting `s` at `n` and `n + k` and joining the pieces gives `s` back. */
  lemma ConcatCut(s: string, n: nat, k: nat, tail: seq<string>)
    requires n <= |s| && k <= |s| - n && Concat(tail) == s[n..][k..]
    ensures Concat([s[..n], s[n..][..k]] + tail) == s
  {
    var a, b := s[..n], s[n..][..k];
    assert ([a, b] + tail)[1..] == [b] + tail;
    assert ([b] + tail)[1..] == tail;
    assert s == a + (b + s[n..][k..]);
  }

  lemma AlternatingCons(a: string, b: string, tail: seq<string>, w: char -> bool)
    requires Alternating(tail, w)
    requires NoWord(a, w) && b != [] && AllWord(b, w)
    requires |tail| > 1 ==> tail[0] != []
    ensures Alternating([a, b] + tail, w)
  {
    var pieces := [a, b] + tail;
    forall i | 2 <= i < |pieces|
      ensures pieces[i] == tail[i - 2]
    {
    }
  }

  /** `re.split("(\\w+)", s)` has the alternating shape, and its first piece is the leading non-word run. */
  lemma {:induction false} SplitAlternates(s: string, w: char -> bool)
    ensures Alternating(Split(s, w), w)
    ensures Split(s, w)[0] == s[..NonWordRun(s, w)]
    decreases |s|
  {
    var n := NonWordRun(s, w);
    if n == |s| {
      assert s[..n] == s;
    } else {
      var rest := s[n..];
      var k := WordRun(rest, w);
      var t := rest[k..];
      SplitAlternates(t, w);
      var tail := Split(t, w);
      if |tail| > 1 {
        assert t != [];
        assert !w(t[0]);
        assert NonWordRun(t, w) > 0;
      }
      AlternatingCons(s[..n], rest[..k], tail, w);
    }
  }
}
