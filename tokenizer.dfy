/**
 * `tokenize_sentence` of question_loader.py: a tokenizer chosen by the locale of the
 * question. Chinese (`zh-…`) and Thai (`th…`) go to dictionary segmenters that are not
 * part of this model; Turkish (`tr…`) protects its suffix apostrophes before the regex
 * split; every other locale splits on `\w` runs and drops whitespace-only pieces.
 */
module Tokenizer {
  import opened Text
  import opened RegexSplit

  const Apostrophe: char := '\''
  /** U+02BC MODIFIER LETTER APOSTROPHE, a letter, hence matched by `\w`. */
  const ModifierApostrophe: char := '\U{02BC}'

  /** The collaborators of the tokenizer: the `\w` class and the two foreign segmenters. */
  datatype Segmenters = Segmenters(
    isWord: char -> bool,                // Python's Unicode `\w`
    chinese: string -> seq<string>,      // `jieba.lcut`
    thai: string -> seq<string>)         // `thai_segmenter.tokenize`

  /** What Python's `\w` is known to satisfy: it never matches whitespace. */
  predicate WordExcludesSpace(w: char -> bool)
  {
    forall c :: IsSpace(c) ==> !w(c)
  }

  /** Default branch: `[x for x in re.split("(\\w+)", s) if x.strip()]`. */
  function DefaultTokens(s: string, w: char -> bool): seq<string>
  {
    KeepNonBlank(Split(s, w))
  }

  /** `[x.replace("ʼ", "'") for x in pieces]` */
  function RestoreApostrophes(pieces: seq<string>): seq<string>
  {
    ReplaceEach(pieces, ModifierApostrophe, Apostrophe)
  }

  /** Turkish branch: protect `'` as `ʼ`, split and filter as by default, then restore `'`. */
  function TurkishTokens(s: string, w: char -> bool): seq<string>
  {
    RestoreApostrophes(DefaultTokens(Replace(s, Apostrophe, ModifierApostrophe), w))
  }

  /** Outside the Chinese and Thai branches, no token is empty or whitespace-only. */
  function Tokenize(sentence: string, locale: string, seg: Segmenters): (tokens: seq<string>)
    ensures !("zh-" <= locale) && !("th" <= locale) ==> forall t :: t in tokens ==> t != [] && !IsBlank(t)
  {
    if "zh-" <= locale then seg.chinese(sentence)
    else if "th" <= locale then seg.thai(sentence)
    else if "tr" <= locale then
      TurkishTokensSpec(sentence, seg.isWord);
      TurkishTokens(sentence, seg.isWord)
    else
      DefaultTokensSpec(sentence, seg.isWord);
      DefaultTokens(sentence, seg.isWord)
  }

  lemma {:induction false} ConcatBlank(pieces: seq<string>)
    ensures IsBlank(Concat(pieces)) <==> forall i :: 0 <= i < |pieces| ==> IsBlank(pieces[i])
  {
    if pieces != [] {
      ConcatBlank(pieces[1..]);
      var c := Concat(pieces);
      assert c == pieces[0] + Concat(pieces[1..]);
      if IsBlank(c) {
        forall i | 0 <= i < |pieces| ensures IsBlank(pieces[i]) {
          if i == 0 {
            forall j | 0 <= j < |pieces[0]| ensures IsSpace(pieces[0][j]) { assert c[j] == pieces[0][j]; }
          } else {
            assert pieces[i] == pieces[1..][i - 1];
            forall j | 0 <= j < |Concat(pieces[1..])| ensures IsSpace(Concat(pieces[1..])[j]) {
              assert c[|pieces[0]| + j] == Concat(pieces[1..])[j];
            }
          }
        }
      }
    }
  }

  /**
   * Default tokenizer: the split pieces concatenate back to the sentence and have the
   * alternating word / non-word shape; the tokens are exactly its non-blank pieces (so
   * none is empty or whitespace-only), in sentence order, each as often as it occurs
   * among the pieces; there are none exactly when
   * the sentence is whitespace-only.
   */
  lemma DefaultTokensSpec(s: string, w: char -> bool)
    ensures Concat(Split(s, w)) == s && Alternating(Split(s, w), w)
    ensures forall t :: t in DefaultTokens(s, w) ==> t != [] && !IsBlank(t) && t in Split(s, w)
    ensures forall i :: 0 <= i < |Split(s, w)| && !IsBlank(Split(s, w)[i]) ==> Split(s, w)[i] in DefaultTokens(s, w)
    ensures IsSubsequence(DefaultTokens(s, w), Split(s, w))
    ensures forall t :: multiset(DefaultTokens(s, w))[t] == if IsBlank(t) then 0 else multiset(Split(s, w))[t]
    ensures DefaultTokens(s, w) == [] <==> IsBlank(s)
  {
    var pieces := Split(s, w);
    SplitConcat(s, w);
    SplitAlternates(s, w);
    KeepNonBlankSpec(pieces);
    ConcatBlank(pieces);
    if DefaultTokens(s, w) != [] {
      var t := DefaultTokens(s, w)[0];
      assert t in DefaultTokens(s, w);
      var i :| 0 <= i < |pieces| && pieces[i] == t;
    }
  }

  lemma ReplaceNoChar(s: string, from: char, to: char)
    requires from != to
    ensures from !in Replace(s, from, to)
  {
  }

  /**
   * Turkish tokenizer: no token is empty or whitespace-only, no token keeps a `ʼ`, and the
   * split pieces, once restored, concatenate back to the sentence with every `ʼ` written `'`.
   */
  lemma TurkishTokensSpec(s: string, w: char -> bool)
    ensures forall t :: t in TurkishTokens(s, w) ==> t != [] && !IsBlank(t) && ModifierApostrophe !in t
    ensures Concat(RestoreApostrophes(Split(Replace(s, Apostrophe, ModifierApostrophe), w)))
         == Replace(s, ModifierApostrophe, Apostrophe)
  {
    TurkishTokensClean(s, w);
    TurkishPiecesConcat(s, w);
  }

  lemma TurkishTokensClean(s: string, w: char -> bool)
    ensures forall t :: t in TurkishTokens(s, w) ==> t != [] && !IsBlank(t) && ModifierApostrophe !in t
  {
    var protected := Replace(s, Apostrophe, ModifierApostrophe);
    var pieces := DefaultTokens(protected, w);
    KeepNonBlankSpec(Split(protected, w));
    forall t | t in TurkishTokens(s, w)
      ensures t != [] && !IsBlank(t) && ModifierApostrophe !in t
    {
      var i :| 0 <= i < |pieces| && t == Replace(pieces[i], ModifierApostrophe, Apostrophe);
      RestoredClean(pieces[i]);
    }
  }

  /** Restoring `'` in a token that is not whitespace-only keeps it so, and leaves no `ʼ`. */
  lemma RestoredClean(p: string)
    requires !IsBlank(p)
    ensures var t := Replace(p, ModifierApostrophe, Apostrophe); t != [] && !IsBlank(t) && ModifierApostrophe !in t
  {
    var t := Replace(p, ModifierApostrophe, Apostrophe);
    var j :| 0 <= j < |p| && !IsSpace(p[j]);
    assert !IsSpace(t[j]);
    ReplaceNoChar(p, ModifierApostrophe, Apostrophe);
  }

  lemma TurkishPiecesConcat(s: string, w: char -> bool)
    ensures Concat(RestoreApostrophes(Split(Replace(s, Apostrophe, ModifierApostrophe), w)))
         == Replace(s, ModifierApostrophe, Apostrophe)
  {
    var protected := Replace(s, Apostrophe, ModifierApostrophe);
    var all := Split(protected, w);
    SplitConcat(protected, w);
    ReplaceConcat(all, ModifierApostrophe, Apostrophe);
    assert Replace(protected, ModifierApostrophe, Apostrophe) == Replace(s, ModifierApostrophe, Apostrophe);
  }

  /**
   * The Turkish branch is the default tokenizer with `'` counted as a word character: an
   * apostrophe between letters never splits a word, wherever the word stands in the
   * sentence. This needs `\w` to match `ʼ` and the sentence not to hold `ʼ` already (the
   * restore step would turn it into `'`); `w2` is `\w` extended by `'`.
   */
  lemma TurkishIsDefaultWithApostrophe(s: string, w: char -> bool, w2: char -> bool)
    requires w(ModifierApostrophe) && ModifierApostrophe !in s
    requires forall c :: w2(c) == (w(c) || c == Apostrophe)
    ensures TurkishTokens(s, w) == DefaultTokens(s, w2)
  {
    var tokens := DefaultTokens(s, w2);
    ProtectedTokens(s, w, w2);
    TokensLack(s, w2, ModifierApostrophe);
    ReplaceEachUndo(tokens, Apostrophe, ModifierApostrophe);
  }

  /** Protecting `'` as `ʼ` before the split protects it in each default token of `w2`. */
  lemma ProtectedTokens(s: string, w: char -> bool, w2: char -> bool)
    requires w(ModifierApostrophe)
    requires forall c :: w2(c) == (w(c) || c == Apostrophe)
    ensures DefaultTokens(Replace(s, Apostrophe, ModifierApostrophe), w)
         == ReplaceEach(DefaultTokens(s, w2), Apostrophe, ModifierApostrophe)
  {
    forall c ensures w(if c == Apostrophe then ModifierApostrophe else c) == w2(c) {
    }
    SplitReplace(s, w, w2, Apostrophe, ModifierApostrophe);
    KeepNonBlankReplace(Split(s, w2), Apostrophe, ModifierApostrophe);
  }

  /** A character absent from the sentence is absent from every default token. */
  lemma TokensLack(s: string, w: char -> bool, c: char)
    requires c !in s
    ensures forall i :: 0 <= i < |DefaultTokens(s, w)| ==> c !in DefaultTokens(s, w)[i]
  {
    var pieces := Split(s, w);
    SplitConcat(s, w);
    ConcatExcludes(pieces, c);
    KeepNonBlankSpec(pieces);
    forall i | 0 <= i < |DefaultTokens(s, w)| ensures c !in DefaultTokens(s, w)[i] {
      assert DefaultTokens(s, w)[i] in pieces;
    }
  }

  /**
   * An apostrophe inside a word does not split it: a sentence made only of word characters
   * and `'` (and holding no `ʼ`) is a single Turkish token, with its `'` restored.
   */
  lemma TurkishApostropheKeepsWord(s: string, w: char -> bool)
    requires w(ModifierApostrophe) && WordExcludesSpace(w)
    requires s != [] && ModifierApostrophe !in s
    requires forall i :: 0 <= i < |s| ==> w(s[i]) || s[i] == Apostrophe
    ensures TurkishTokens(s, w) == [s]
  {
    var r := Replace(s, Apostrophe, ModifierApostrophe);
    assert AllWord(r, w);
    assert NonWordRun(r, w) == 0;
    assert WordRun(r, w) == |r|;
    assert r[..0] == "" && r[..|r|] == r && r[|r|..] == "";
    assert NonWordRun("", w) == 0;
    assert Split("", w) == [""];
    assert Split(r, w) == ["", r, ""];
    assert !IsSpace(r[0]);
    assert KeepNonBlank([""]) == [] by { assert [""][1..] == []; }
    assert KeepNonBlank([r, ""]) == [r] by { assert [r, ""][1..] == [""]; assert !IsBlank(r); }
    assert KeepNonBlank(["", r, ""]) == [r] by { assert ["", r, ""][1..] == [r, ""]; }
    assert Replace(r, ModifierApostrophe, Apostrophe) == s;
  }

  /** "Ankara'da" (Ankara + locative suffix) stays one token under the Turkish locale. */
  lemma AnkaraDaIsOneToken(w: char -> bool)
    requires w(ModifierApostrophe) && WordExcludesSpace(w)
    requires forall c :: c in "Ankarad" ==> w(c)
    ensures Tokenize("Ankara'da", "tr", Segmenters(w, _ => [], _ => [])) == ["Ankara'da"]
  {
    var s := "Ankara'da";
    forall i | 0 <= i < |s| ensures w(s[i]) || s[i] == Apostrophe {
      if s[i] != Apostrophe { assert s[i] in "Ankarad"; }
    }
    TurkishApostropheKeepsWord(s, w);
    assert !("zh-" <= "tr") by { assert "zh-"[0] != "tr"[0]; }
    assert !("th" <= "tr") by { assert "th"[1] != "tr"[1]; }
  }
}
