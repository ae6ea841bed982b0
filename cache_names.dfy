/**
 * The cache file names of question_loader.py: `regenerate_cache` writes each language's
 * questions to `cache/questions__{language}.pickle.gz`, and `load_all_languages_cached`
 * recovers the language from a cached file's name as the text between the first `__`
 * and the next `.`.
 */
module CacheNames {
  import opened Errors

  const CacheDir: string := "cache/"
  const Stem: string := "questions"
  const Marker: string := "__"
  const Extension: string := ".pickle.gz"

  /** The file name `regenerate_cache` gives a language's questions. */
  function QuestionsFileName(language: string): string
  {
    Stem + Marker + language + Extension
  }

  /** The path `regenerate_cache` opens for a language's questions. */
  function QuestionsPath(language: string): string
  {
    CacheDir + QuestionsFileName(language)
  }

  /** `sep` occurs in `s` at position `i`. */
  predicate MatchAt(s: string, sep: string, i: nat)
  {
    i + |sep| <= |s| && s[i..i + |sep|] == sep
  }

  /** `sep` occurs nowhere in `s` starting before position `n`. */
  predicate NoMatchBefore(s: string, sep: string, n: nat)
  {
    forall i: nat :: i < n ==> !MatchAt(s, sep, i)
  }

  /**
   * `s.split(sep)`: scanning from the left, every occurrence of `sep` that does not
   * overlap an earlier one ends a part.
   */
  function SplitOn(s: string, sep: string): (parts: seq<string>)
    requires sep != []
    ensures |parts| >= 1
    decreases |s|
  {
    if |s| < |sep| then [s]
    else if s[..|sep|] == sep then [""] + SplitOn(s[|sep|..], sep)
    else
      var rest := SplitOn(s[1..], sep);
      [[s[0]] + rest[0]] + rest[1..]
  }

  /** `sep.join(parts)` */
  function JoinOn(parts: seq<string>, sep: string): string
    requires |parts| >= 1
  {
    if |parts| == 1 then parts[0] else parts[0] + sep + JoinOn(parts[1..], sep)
  }

  /** `Path(path).name`: the part of the path after its last `/`. */
  function BaseName(path: string): string
  {
    var parts := SplitOn(path, "/");
    parts[|parts| - 1]
  }

  /**
   * The language that `load_all_languages_cached` reads off a cached file's name,
   * `name.split("__")[1].split(".")[0]`; a name without `__` has no second part and
   * raises IndexError.
   */
  function LanguageOf(name: string): (r: Result<string>)
    ensures r.Err? <==> |SplitOn(name, Marker)| < 2
    ensures r.Err? <==> NoMatchBefore(name, Marker, |name|)
    ensures r.Err? ==> r.error == IndexError
    ensures r.Ok? ==> NoMatchBefore(r.value, ".", |r.value|)
  {
    SplitOnSeparated(name, Marker);
    var parts := SplitOn(name, Marker);
    if |parts| < 2 then Err(IndexError)
    else
      var language := SplitOn(parts[1], ".")[0];
      SplitOnPartsFree(parts[1], ".");
      Ok(language)
  }

  /** Splitting and joining again gives back the string. */
  lemma {:induction false} SplitOnJoin(s: string, sep: string)
    requires sep != []
    ensures JoinOn(SplitOn(s, sep), sep) == s
    decreases |s|
  {
    if |s| < |sep| {
    } else if s[..|sep|] == sep {
      SplitOnJoin(s[|sep|..], sep);
      JoinOnEmptyHead(SplitOn(s[|sep|..], sep), sep);
      assert s == sep + s[|sep|..];
    } else {
      SplitOnJoin(s[1..], sep);
      JoinOnGrowHead(s[0], SplitOn(s[1..], sep), sep);
      assert s == [s[0]] + s[1..];
    }
  }

  lemma JoinOnEmptyHead(rest: seq<string>, sep: string)
    requires |rest| >= 1
    ensures JoinOn([""] + rest, sep) == sep + JoinOn(rest, sep)
  {
    assert ([""] + rest)[1..] == rest;
  }

  lemma JoinOnGrowHead(c: char, rest: seq<string>, sep: string)
    requires |rest| >= 1
    ensures JoinOn([[c] + rest[0]] + rest[1..], sep) == [c] + JoinOn(rest, sep)
  {
    var parts := [[c] + rest[0]] + rest[1..];
    if |rest| > 1 {
      assert parts[1..] == rest[1..];
    }
  }

  /** The first part holds no occurrence of `sep`: the scan stops at the first one. */
  lemma {:induction false} SplitOnPartsFree(s: string, sep: string)
    requires sep != []
    ensures NoMatchBefore(SplitOn(s, sep)[0], sep, |SplitOn(s, sep)[0]|)
    decreases |s|
  {
    if |s| >= |sep| && s[..|sep|] != sep {
      SplitOnPartsFree(s[1..], sep);
      var first := SplitOn(s[1..], sep)[0];
      var part := [s[0]] + first;
      SplitOnPrefix(s[1..], sep);
      assert part == s[..|part|];
      if |sep| <= |part| {
        assert part[..|sep|] == s[..|sep|];
      }
      NoMatchCons(s[0], first, sep);
    }
  }

  /** A character in front adds no occurrence of `sep` other than one at the front. */
  lemma NoMatchCons(c: char, t: string, sep: string)
    requires NoMatchBefore(t, sep, |t|) && !MatchAt([c] + t, sep, 0)
    ensures NoMatchBefore([c] + t, sep, |[c] + t|)
  {
    var u := [c] + t;
    forall i: nat | 0 < i < |u| ensures !MatchAt(u, sep, i) {
      assert !MatchAt(t, sep, i - 1);
      if i + |sep| <= |u| {
        assert u[1..] == t;
        assert u[i..i + |sep|] == u[1..][i - 1..i - 1 + |sep|];
        assert u[i..i + |sep|] == t[i - 1..i - 1 + |sep|];
      }
    }
  }

  /** The first part is a prefix of the string. */
  lemma {:induction false} SplitOnPrefix(s: string, sep: string)
    requires sep != []
    ensures |SplitOn(s, sep)[0]| <= |s| && SplitOn(s, sep)[0] == s[..|SplitOn(s, sep)[0]|]
    decreases |s|
  {
    if |s| >= |sep| && s[..|sep|] != sep {
      SplitOnPrefix(s[1..], sep);
    }
  }

  /** A string in which `sep` does not occur is a single part. */
  lemma {:induction false} SplitOnNone(s: string, sep: string)
    requires sep != [] && NoMatchBefore(s, sep, |s|)
    ensures SplitOn(s, sep) == [s]
    decreases |s|
  {
    if |s| >= |sep| {
      assert !MatchAt(s, sep, 0);
      assert s[..|sep|] != sep;
      forall i: nat | i < |s[1..]| ensures !MatchAt(s[1..], sep, i) {
        assert !MatchAt(s, sep, i + 1);
        if i + |sep| <= |s[1..]| {
          assert s[1..][i..i + |sep|] == s[i + 1..i + 1 + |sep|];
        }
      }
      SplitOnNone(s[1..], sep);
      assert [s[0]] + s[1..] == s;
    }
  }

  /** When the first occurrence of `sep` is at `n`, the first part is `s[..n]`. */
  lemma {:induction false} SplitOnFirst(s: string, sep: string, n: nat)
    requires sep != [] && MatchAt(s, sep, n) && NoMatchBefore(s, sep, n)
    ensures SplitOn(s, sep) == [s[..n]] + SplitOn(s[n + |sep|..], sep)
    decreases n
  {
    if n == 0 {
      assert s[..|sep|] == sep;
    } else {
      assert !MatchAt(s, sep, 0);
      assert s[..|sep|] != sep;
      var t := s[1..];
      MatchShift(s, sep, n);
      SplitOnFirst(t, sep, n - 1);
      assert t[n - 1 + |sep|..] == s[n + |sep|..];
      assert [s[0]] + t[..n - 1] == s[..n];
    }
  }

  /** `s.split(sep)` has a second part exactly when `sep` occurs in `s`. */
  lemma SplitOnSeparated(s: string, sep: string)
    requires sep != []
    ensures |SplitOn(s, sep)| >= 2 <==> !NoMatchBefore(s, sep, |s|)
  {
    if NoMatchBefore(s, sep, |s|) {
      SplitOnNone(s, sep);
    } else {
      var i: nat :| i < |s| && MatchAt(s, sep, i);
      var n := FirstMatch(s, sep, i);
      SplitOnFirst(s, sep, n);
    }
  }

  /** An occurrence of `sep` at `i` means there is a first occurrence, at or before `i`. */
  lemma {:induction false} FirstMatch(s: string, sep: string, i: nat) returns (n: nat)
    requires MatchAt(s, sep, i)
    ensures n <= i && MatchAt(s, sep, n) && NoMatchBefore(s, sep, n)
    decreases i
  {
    if NoMatchBefore(s, sep, i) {
      n := i;
    } else {
      var j: nat :| j < i && MatchAt(s, sep, j);
      n := FirstMatch(s, sep, j);
    }
  }

  /** Dropping the first character moves every occurrence of `sep` one place left. */
  lemma MatchShift(s: string, sep: string, n: nat)
    requires 0 < n && MatchAt(s, sep, n) && NoMatchBefore(s, sep, n)
    ensures MatchAt(s[1..], sep, n - 1) && NoMatchBefore(s[1..], sep, n - 1)
  {
    var t := s[1..];
    assert t[n - 1..n - 1 + |sep|] == s[n..n + |sep|];
    forall i: nat | i < n - 1 ensures !MatchAt(t, sep, i) {
      assert !MatchAt(s, sep, i + 1);
      if i + |sep| <= |t| {
        assert t[i..i + |sep|] == s[i + 1..i + 1 + |sep|];
      }
    }
  }

  /** `"cache/" + name` has base name `name` when `name` holds no `/`. */
  lemma BaseNameOfCachePath(name: string)
    requires NoMatchBefore(name, "/", |name|)
    ensures BaseName(CacheDir + name) == name
  {
    var path := CacheDir + name;
    assert MatchAt(path, "/", 5);
    forall i: nat | i < 5 ensures !MatchAt(path, "/", i) {
      assert path[i..i + 1] == [CacheDir[i]];
    }
    SplitOnFirst(path, "/", 5);
    assert path[6..] == name;
    SplitOnNone(name, "/");
  }

  /** After the stem's `__`, a cache file name holds no further `__` when the language holds none. */
  lemma TailHasNoMarker(language: string)
    requires NoMatchBefore(language, Marker, |language|)
    ensures NoMatchBefore(language + Extension, Marker, |language + Extension|)
  {
    var tail := language + Extension;
    forall i: nat | i < |tail| ensures !MatchAt(tail, Marker, i) {
      if i + 2 <= |tail| {
        if i + 1 < |language| {
          assert tail[i..i + 2] == language[i..i + 2];
          assert !MatchAt(language, Marker, i);
        } else {
          assert tail[i + 1] == Extension[i + 1 - |language|];
        }
      }
    }
  }

  /** In a cache file name, the first `__` is the one after the stem. */
  lemma FileNameMarker(language: string)
    ensures MatchAt(QuestionsFileName(language), Marker, 9)
    ensures NoMatchBefore(QuestionsFileName(language), Marker, 9)
    ensures QuestionsFileName(language)[..9] == Stem
    ensures QuestionsFileName(language)[11..] == language + Extension
  {
    var name := QuestionsFileName(language);
    assert name == Stem + Marker + (language + Extension);
    assert name[9] == '_' && name[10] == '_';
    assert name[9..11] == Marker;
    assert MatchAt(name, Marker, 9);
    assert forall j :: 0 <= j < |Stem| ==> Stem[j] != '_';
    forall i: nat | i < 9 ensures !MatchAt(name, Marker, i) {
      assert name[i..i + 2][0] == name[i] == Stem[i];
    }
  }

  /** A cache file name splits on `__` into the stem and the rest, when the language holds no `__`. */
  lemma FileNameParts(language: string)
    requires NoMatchBefore(language, Marker, |language|)
    ensures SplitOn(QuestionsFileName(language), Marker) == [Stem, language + Extension]
  {
    var name := QuestionsFileName(language);
    FileNameMarker(language);
    SplitOnFirst(name, Marker, 9);
    TailHasNoMarker(language);
    SplitOnNone(language + Extension, Marker);
  }

  /**
   * The names written and read back agree: for a language holding no `/`, no `.` and no
   * `__`, the language recovered from its cache file's name is the language itself.
   */
  lemma CacheNameRoundTrip(language: string)
    requires NoMatchBefore(language, "/", |language|)
    requires NoMatchBefore(language, ".", |language|)
    requires NoMatchBefore(language, Marker, |language|)
    ensures LanguageOf(BaseName(QuestionsPath(language))) == Ok(language)
  {
    FileNameHasNoSlash(language);
    BaseNameOfCachePath(QuestionsFileName(language));
    FileNameParts(language);
    TailFirstDot(language);
  }

  /** For a one-character separator, occurring means being one of the characters. */
  lemma NoCharMatch(s: string, c: char)
    ensures NoMatchBefore(s, [c], |s|) <==> forall i :: 0 <= i < |s| ==> s[i] != c
  {
    forall i: nat | i < |s| ensures MatchAt(s, [c], i) <==> s[i] == c {
      if s[i] == c {
        assert s[i..i + 1] == [c];
      } else {
        assert s[i..i + 1][0] != [c][0];
      }
    }
  }

  /** A cache file name holds no `/` when the language holds none. */
  lemma FileNameHasNoSlash(language: string)
    requires NoMatchBefore(language, "/", |language|)
    ensures NoMatchBefore(QuestionsFileName(language), "/", |QuestionsFileName(language)|)
  {
    var name := QuestionsFileName(language);
    NoCharMatch(language, '/');
    forall i | 0 <= i < |name| ensures name[i] != '/' {
      if i < 11 {
        assert name[i] == (Stem + Marker)[i];
      } else if i < 11 + |language| {
        assert name[i] == language[i - 11];
      } else {
        assert name[i] == Extension[i - 11 - |language|];
      }
    }
    NoCharMatch(name, '/');
  }

  /** The first `.` after a language that holds none is the extension's. */
  lemma TailFirstDot(language: string)
    requires NoMatchBefore(language, ".", |language|)
    ensures SplitOn(language + Extension, ".")[0] == language
  {
    var tail := language + Extension;
    TailDotAt(language);
    SplitOnFirst(tail, ".", |language|);
    assert tail[..|language|] == language;
  }

  lemma TailDotAt(language: string)
    requires NoMatchBefore(language, ".", |language|)
    ensures MatchAt(language + Extension, ".", |language|)
    ensures NoMatchBefore(language + Extension, ".", |language|)
  {
    var tail := language + Extension;
    assert MatchAt(tail, ".", |language|);
    NoCharMatch(language, '.');
    forall i: nat | i < |language| ensures !MatchAt(tail, ".", i) {
      assert tail[i..i + 1] == [tail[i]];
      assert tail[i] == language[i] != '.';
    }
  }

  /** What comes back from a cache file name is the language up to its first `.`. */
  lemma LanguageOfFileName(language: string)
    requires NoMatchBefore(language, Marker, |language|)
    ensures LanguageOf(QuestionsFileName(language)) == Ok(SplitOn(language + Extension, ".")[0])
  {
    FileNameParts(language);
  }

  /** A language holding a `.` does not survive the round trip: only its first part comes back. */
  lemma DottedLanguageIsCut()
    ensures LanguageOf(QuestionsFileName("sv.SE")) == Ok("sv")
  {
    var language := "sv.SE";
    assert NoMatchBefore(language, Marker, |language|) by {
      forall i: nat | i < |language| ensures !MatchAt(language, Marker, i) {
        if i + 2 <= |language| {
          assert language[i..i + 2][0] == language[i] != '_';
        }
      }
    }
    LanguageOfFileName(language);
    var tail := language + Extension;
    assert tail[2..3] == "." && tail[0..1] != "." && tail[1..2] != ".";
    SplitOnFirst(tail, ".", 2);
    assert tail[..2] == "sv";
  }
}
