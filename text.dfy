/** Python string primitives shared by both tokenizers. */
module Text {

  /** `c.isspace()`: the characters Python's `str.strip()` and `str.split()` treat as whitespace. */
  predicate IsSpace(c: char)
  {
    || ('\t' <= c <= '\r')
    || ('\U{1C}' <= c <= '\U{1F}')
    || c == ' '
    || c == '\U{85}'
    || c == '\U{A0}'
    || c == '\U{1680}'
    || ('\U{2000}' <= c <= '\U{200A}')
    || c == '\U{2028}'
    || c == '\U{2029}'
    || c == '\U{202F}'
    || c == '\U{205F}'
    || c == '\U{3000}'
  }

  /** `not s.strip()`: the string holds whitespace only (the empty string included). */
  predicate IsBlank(s: string)
  {
    forall i :: 0 <= i < |s| ==> IsSpace(s[i])
  }

  /** Length of the longest prefix of `s` whose characters all satisfy `p`. */
  function Run(s: string, p: char -> bool): (n: nat)
    ensures n <= |s|
    ensures forall i :: 0 <= i < n ==> p(s[i])
    ensures n < |s| ==> !p(s[n])
  {
    if s == [] || !p(s[0]) then 0 else 1 + Run(s[1..], p)
  }

  /** `Run` is characterised by its contract: any length with those properties is the run. */
  lemma {:induction false} RunIs(s: string, p: char -> bool, n: nat)
    requires n <= |s| && (forall i :: 0 <= i < n ==> p(s[i])) && (n < |s| ==> !p(s[n]))
    ensures Run(s, p) == n
  {
    if n > 0 {
      RunIs(s[1..], p, n - 1);
    }
  }

  /** `"".join(pieces)` */
  function Concat(pieces: seq<string>): string
  {
    if pieces == [] then "" else pieces[0] + Concat(pieces[1..])
  }

  lemma {:induction false} ConcatAppend(xs: seq<string>, ys: seq<string>)
    ensures Concat(xs + ys) == Concat(xs) + Concat(ys)
  {
    if xs == [] {
      assert xs + ys == ys;
    } else {
      assert (xs + ys)[1..] == xs[1..] + ys;
      ConcatAppend(xs[1..], ys);
    }
  }

  /** `s.replace(from, to)` for one-character arguments. */
  function Replace(s: string, from: char, to: char): string
  {
    seq(|s|, i requires 0 <= i < |s| => if s[i] == from then to else s[i])
  }

  /** `[x.replace(from, to) for x in pieces]` */
  function ReplaceEach(pieces: seq<string>, from: char, to: char): seq<string>
  {
    seq(|pieces|, i requires 0 <= i < |pieces| => Replace(pieces[i], from, to))
  }

  lemma ReplaceEachAppend(xs: seq<string>, ys: seq<string>, from: char, to: char)
    ensures ReplaceEach(xs + ys, from, to) == ReplaceEach(xs, from, to) + ReplaceEach(ys, from, to)
  {
  }

  /** Replacing characters one by one commutes with concatenation. */
  lemma {:induction false} ReplaceConcat(pieces: seq<string>, from: char, to: char)
    ensures Concat(ReplaceEach(pieces, from, to)) == Replace(Concat(pieces), from, to)
  {
    var mapped := ReplaceEach(pieces, from, to);
    if pieces != [] {
      var tail := ReplaceEach(pieces[1..], from, to);
      assert mapped[1..] == tail;
      ReplaceConcat(pieces[1..], from, to);
      assert Replace(pieces[0] + Concat(pieces[1..]), from, to)
          == Replace(pieces[0], from, to) + Replace(Concat(pieces[1..]), from, to);
    }
  }

  /** `[x for x in pieces if x.strip()]` */
  function KeepNonBlank(pieces: seq<string>): seq<string>
  {
    if pieces == [] then []
    else if IsBlank(pieces[0]) then KeepNonBlank(pieces[1..])
    else [pieces[0]] + KeepNonBlank(pieces[1..])
  }

  /** Each non-blank piece is kept as often as it occurs; no blank piece is kept. */
  lemma {:induction false} KeepNonBlankCounts(pieces: seq<string>)
    ensures forall t :: multiset(KeepNonBlank(pieces))[t] == if IsBlank(t) then 0 else multiset(pieces)[t]
  {
    if pieces != [] {
      KeepNonBlankCounts(pieces[1..]);
      assert pieces == [pieces[0]] + pieces[1..];
      assert multiset(pieces) == multiset([pieces[0]]) + multiset(pieces[1..]);
      if !IsBlank(pieces[0]) {
        assert multiset(KeepNonBlank(pieces)) == multiset([pieces[0]]) + multiset(KeepNonBlank(pieces[1..]));
      }
    }
  }

  /** Replacing one character that is not whitespace by another keeps a string blank or not. */
  lemma ReplaceBlank(p: string, from: char, to: char)
    requires !IsSpace(from) && !IsSpace(to)
    ensures IsBlank(Replace(p, from, to)) <==> IsBlank(p)
  {
    assert forall i :: 0 <= i < |p| ==> (IsSpace(Replace(p, from, to)[i]) <==> IsSpace(p[i]));
  }

  /** Filtering out blank pieces commutes with a replacement between non-whitespace characters. */
  lemma {:induction false} KeepNonBlankReplace(pieces: seq<string>, from: char, to: char)
    requires !IsSpace(from) && !IsSpace(to)
    ensures KeepNonBlank(ReplaceEach(pieces, from, to)) == ReplaceEach(KeepNonBlank(pieces), from, to)
  {
    if pieces != [] {
      var mapped := ReplaceEach(pieces, from, to);
      assert mapped[1..] == ReplaceEach(pieces[1..], from, to);
      KeepNonBlankReplace(pieces[1..], from, to);
      ReplaceBlank(pieces[0], from, to);
      ReplaceEachAppend([pieces[0]], KeepNonBlank(pieces[1..]), from, to);
    }
  }

  /** Replacing `from` by `to` and back is the identity on a string that holds no `to`. */
  lemma ReplaceUndo(p: string, from: char, to: char)
    requires to !in p
    ensures Replace(Replace(p, from, to), to, from) == p
  {
    assert forall i :: 0 <= i < |p| ==> p[i] != to;
  }

  /** Replacing `from` by `to` and back is the identity on pieces that hold no `to`. */
  lemma ReplaceEachUndo(pieces: seq<string>, from: char, to: char)
    requires forall i :: 0 <= i < |pieces| ==> to !in pieces[i]
    ensures ReplaceEach(ReplaceEach(pieces, from, to), to, from) == pieces
  {
    forall i | 0 <= i < |pieces| ensures Replace(Replace(pieces[i], from, to), to, from) == pieces[i] {
      ReplaceUndo(pieces[i], from, to);
    }
  }

  /** A character absent from the concatenation is absent from every piece. */
  lemma {:induction false} ConcatExcludes(pieces: seq<string>, c: char)
    requires c !in Concat(pieces)
    ensures forall i :: 0 <= i < |pieces| ==> c !in pieces[i]
  {
    if pieces != [] {
      var whole := Concat(pieces);
      assert whole == pieces[0] + Concat(pieces[1..]);
      assert forall j :: 0 <= j < |pieces[0]| ==> whole[j] == pieces[0][j];
      assert forall j :: 0 <= j < |Concat(pieces[1..])| ==> whole[|pieces[0]| + j] == Concat(pieces[1..])[j];
      ConcatExcludes(pieces[1..], c);
      forall i | 1 <= i < |pieces| ensures c !in pieces[i] {
        assert pieces[i] == pieces[1..][i - 1];
      }
    }
  }

  /** `xs` is obtained from `ys` by deleting elements, keeping the order of the rest. */
  predicate IsSubsequence<T(==)>(xs: seq<T>, ys: seq<T>)
    decreases |ys|
  {
    if xs == [] then true
    else if ys == [] then false
    else (xs[0] == ys[0] && IsSubsequence(xs[1..], ys[1..])) || IsSubsequence(xs, ys[1..])
  }

  /**
   * The filter keeps exactly the non-blank pieces, each as often as it occurs, in their
   * original order.
   */
  lemma {:induction false} KeepNonBlankSpec(pieces: seq<string>)
    ensures forall t :: t in KeepNonBlank(pieces) ==> !IsBlank(t) && t in pieces
    ensures forall i :: 0 <= i < |pieces| && !IsBlank(pieces[i]) ==> pieces[i] in KeepNonBlank(pieces)
    ensures IsSubsequence(KeepNonBlank(pieces), pieces)
    ensures forall t :: multiset(KeepNonBlank(pieces))[t] == if IsBlank(t) then 0 else multiset(pieces)[t]
  {
    KeepNonBlankCounts(pieces);
    if pieces != [] {
      KeepNonBlankSpec(pieces[1..]);
      var rest := KeepNonBlank(pieces[1..]);
      forall i | 0 <= i < |pieces| && !IsBlank(pieces[i])
        ensures pieces[i] in KeepNonBlank(pieces)
      {
        if i > 0 {
          assert pieces[i] == pieces[1..][i - 1];
        }
      }
      if !IsBlank(pieces[0]) {
        assert KeepNonBlank(pieces) == [pieces[0]] + rest;
        assert ([pieces[0]] + rest)[1..] == rest;
      } else if rest != [] {
        assert IsSubsequence(rest, pieces[1..]);
      }
    }
  }
}
