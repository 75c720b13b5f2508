/**
 * The keyword statistics of the listing page: the trending tags (the most common
 * whitespace-separated title words) and the keywords of the trending chart (the most
 * common title tokens), both counted the way `Counter.most_common` counts.
 */
module Trending {
  import opened Wrappers
  import opened Text
  import opened Seqs
  import opened Listings

  // ---------------------------------------------------------------------------
  // scanning

  /** The length of the longest prefix of `s` whose characters all satisfy `p`. */
  function RunLength(s: string, p: char -> bool): (n: nat)
    ensures n <= |s|
    ensures forall k :: 0 <= k < n ==> p(s[k])
    ensures n < |s| ==> !p(s[n])
  {
    if s == [] || !p(s[0]) then 0 else 1 + RunLength(s[1..], p)
  }

  /** A prefix whose characters satisfy `p`, followed by the end or by a character that does not, is the run. */
  lemma {:induction false} RunLengthOf(s: string, p: char -> bool, m: nat)
    requires m <= |s|
    requires forall k :: 0 <= k < m ==> p(s[k])
    requires m == |s| || !p(s[m])
    ensures RunLength(s, p) == m
  {
    if m > 0 {
      RunLengthOf(s[1..], p, m - 1);
    }
  }

  /** A run that stops before a character of `t` failing `p` is not lengthened by appending `t`. */
  lemma {:induction false} RunLengthAppend(a: string, t: string, p: char -> bool)
    requires t != [] && !p(t[0])
    ensures RunLength(a + t, p) == RunLength(a, p)
    decreases |a|
  {
    if a == [] {
      assert a + t == t;
    } else if p(a[0]) {
      assert (a + t)[1..] == a[1..] + t;
      RunLengthAppend(a[1..], t, p);
    }
  }

  predicate NotSpace(c: char) { !IsSpace(c) }

  /** `s.split()`: the maximal runs of non-whitespace characters, in order. */
  function Words(s: string): seq<string>
    decreases |s|
  {
    if s == [] then []
    else if IsSpace(s[0]) then Words(s[1..])
    else
      var n := RunLength(s, NotSpace);
      [s[..n]] + Words(s[n..])
  }

  /** Every word is non-empty and holds no whitespace. */
  lemma {:induction false} WordsAreRuns(s: string)
    ensures forall w :: w in Words(s) ==> w != "" && forall k :: 0 <= k < |w| ==> !IsSpace(w[k])
    decreases |s|
  {
    if s != [] {
      if IsSpace(s[0]) {
        WordsAreRuns(s[1..]);
      } else {
        var n := RunLength(s, NotSpace);
        WordsAreRuns(s[n..]);
      }
    }
  }

  /** A non-empty word without whitespace is one word. */
  lemma WordsOfWord(w: string)
    requires w != "" && forall k :: 0 <= k < |w| ==> !IsSpace(w[k])
    ensures Words(w) == [w]
  {
    RunLengthOf(w, NotSpace, |w|);
    assert w[..|w|] == w;
    assert w[|w|..] == [];
  }

  /** A whitespace character separates the words before it from the words after it. */
  lemma {:induction false} WordsSplit(a: string, c: char, b: string)
    requires IsSpace(c)
    ensures Words(a + [c] + b) == Words(a) + Words(b)
    decreases |a|
  {
    if a == [] {
      assert (a + [c] + b)[1..] == b;
    } else if IsSpace(a[0]) {
      assert (a + [c] + b)[1..] == a[1..] + [c] + b;
      WordsSplit(a[1..], c, b);
    } else {
      var m := RunLength(a, NotSpace);
      WordsSplit(a[m..], c, b);
      WordsSplitRun(a, c, b);
    }
  }

  /** The step of `WordsSplit` over the leading word of `a`. */
  lemma WordsSplitRun(a: string, c: char, b: string)
    requires IsSpace(c) && a != [] && !IsSpace(a[0])
    requires var m := RunLength(a, NotSpace);
             Words(a[m..] + [c] + b) == Words(a[m..]) + Words(b)
    ensures Words(a + [c] + b) == Words(a) + Words(b)
  {
    LeadingWordKept(a, c, b);
    WordsRun(a);
  }

  /** What `split()` yields over a leading word: that word, then the words of the rest. */
  lemma WordsRun(a: string)
    requires a != [] && !IsSpace(a[0])
    ensures var m := RunLength(a, NotSpace);
            Words(a) == [a[..m]] + Words(a[m..])
  {
  }

  /** The leading word of `a` is also the leading word of `a`, a space and `b`. */
  lemma LeadingWordKept(a: string, c: char, b: string)
    requires IsSpace(c) && a != [] && !IsSpace(a[0])
    ensures var m := RunLength(a, NotSpace);
            Words(a + [c] + b) == [a[..m]] + Words(a[m..] + [c] + b)
  {
    var m := RunLength(a, NotSpace);
    var s := a + [c] + b;
    assert s == a + ([c] + b);
    RunLengthAppend(a, [c] + b, NotSpace);
    assert s[0] == a[0];
    assert s[..m] == a[..m];
    assert s[m..] == a[m..] + [c] + b;
  }

  /** Words joined by single spaces split back into the same words. */
  lemma {:induction false} WordsJoin(ws: seq<string>)
    requires forall i :: 0 <= i < |ws| ==> ws[i] != "" && forall k :: 0 <= k < |ws[i]| ==> !IsSpace(ws[i][k])
    ensures Words(Join(ws, ' ')) == ws
  {
    if |ws| == 1 {
      WordsOfWord(ws[0]);
    } else if |ws| > 1 {
      var rest := Join(ws[1..], ' ');
      assert Join(ws, ' ') == ws[0] + [' '] + rest;
      WordsSplit(ws[0], ' ', rest);
      WordsOfWord(ws[0]);
      WordsJoin(ws[1..]);
      assert ws == [ws[0]] + ws[1..];
    }
  }

  // ---------------------------------------------------------------------------
  // the title tokenizer

  /** Every character is an ASCII letter. */
  predicate AllLetters(w: string) {
    forall k :: 0 <= k < |w| ==> IsAsciiLetter(w[k])
  }

  /**
   * Reference definition: the pattern `\b[a-zA-Z]+\b` matches `w` at index `i` of `s`,
   * that is `w` is a run of letters with no word character immediately before or after it.
   */
  predicate MatchAt(s: string, w: string, i: int) {
    && OccursAt(s, w, i) && w != "" && AllLetters(w)
    && (i == 0 || !IsWordChar(s[i - 1]))
    && (i + |w| == |s| || !IsWordChar(s[i + |w|]))
  }

  /**
   * `re.findall(r'\b[a-zA-Z]+\b', s)`: the scan visits the maximal runs of word characters
   * from left to right and yields each run that consists of letters only.
   */
  function RegexWords(s: string): (r: seq<string>)
    ensures forall w :: w in r ==> w != "" && AllLetters(w)
    decreases |s|
  {
    if s == [] then []
    else if !IsWordChar(s[0]) then RegexWords(s[1..])
    else
      var n := RunLength(s, IsWordChar);
      (if AllLetters(s[..n]) then [s[..n]] else []) + RegexWords(s[n..])
  }

  /** A run of word characters is one scan step: it is yielded exactly when it is all letters. */
  lemma RegexWordsOfRun(w: string)
    requires w != "" && forall k :: 0 <= k < |w| ==> IsWordChar(w[k])
    ensures RegexWords(w) == if AllLetters(w) then [w] else []
  {
    RunLengthOf(w, IsWordChar, |w|);
    assert w[..|w|] == w;
    assert w[|w|..] == [];
  }

  /** A non-word character separates the matches before it from the matches after it. */
  lemma {:induction false} RegexWordsSplit(a: string, c: char, b: string)
    requires !IsWordChar(c)
    ensures RegexWords(a + [c] + b) == RegexWords(a) + RegexWords(b)
    decreases |a|
  {
    if a == [] {
      assert (a + [c] + b)[1..] == b;
    } else if !IsWordChar(a[0]) {
      assert (a + [c] + b)[1..] == a[1..] + [c] + b;
      RegexWordsSplit(a[1..], c, b);
    } else {
      var m := RunLength(a, IsWordChar);
      RegexWordsSplit(a[m..], c, b);
      RegexWordsSplitRun(a, c, b);
    }
  }

  /** The step of `RegexWordsSplit` over the leading run of word characters of `a`. */
  lemma RegexWordsSplitRun(a: string, c: char, b: string)
    requires !IsWordChar(c) && a != [] && IsWordChar(a[0])
    requires var m := RunLength(a, IsWordChar);
             RegexWords(a[m..] + [c] + b) == RegexWords(a[m..]) + RegexWords(b)
    ensures RegexWords(a + [c] + b) == RegexWords(a) + RegexWords(b)
  {
    LeadingRunKept(a, c, b);
    RegexWordsRun(a);
  }

  /** The leading run of word characters of `a` is also that of `a`, a non-word character and `b`. */
  lemma LeadingRunKept(a: string, c: char, b: string)
    requires !IsWordChar(c) && a != [] && IsWordChar(a[0])
    ensures var m := RunLength(a, IsWordChar);
            RegexWords(a + [c] + b) == (if AllLetters(a[..m]) then [a[..m]] else []) + RegexWords(a[m..] + [c] + b)
  {
    var m := RunLength(a, IsWordChar);
    var s := a + [c] + b;
    assert s == a + ([c] + b);
    RunLengthAppend(a, [c] + b, IsWordChar);
    assert s[0] == a[0];
    assert s[..m] == a[..m];
    assert s[m..] == a[m..] + [c] + b;
  }

  /** A match starts with a letter. */
  lemma MatchStartsWithLetter(s: string, w: string, i: int)
    requires MatchAt(s, w, i)
    ensures 0 <= i < |s| && IsAsciiLetter(s[i])
  {
    assert s[i..i + |w|][0] == s[i];
  }

  /**
   * A match in the suffix `s[m..]` is a match in `s`, shifted by `m`, and conversely,
   * provided the character before the suffix cannot glue onto a match at its start.
   */
  lemma MatchAtSuffix(s: string, m: int, w: string, j: int)
    requires 0 <= m <= |s| && 0 <= j
    requires j > 0 || m == 0 || !IsWordChar(s[m - 1])
    ensures MatchAt(s[m..], w, j) <==> MatchAt(s, w, m + j)
  {
    var t := s[m..];
    if j <= |t| - |w| {
      assert t[j..j + |w|] == s[m + j..m + j + |w|];
    }
  }

  /** A match after a leading non-word character is a match in the whole string. */
  lemma MatchInTail(s: string, w: string)
    requires s != [] && !IsWordChar(s[0])
    ensures (exists j :: MatchAt(s[1..], w, j)) ==> exists i :: MatchAt(s, w, i)
  {
    if exists j :: MatchAt(s[1..], w, j) {
      var j :| MatchAt(s[1..], w, j);
      MatchAtSuffix(s, 1, w, j);
    }
  }

  /** A match cannot start at a leading non-word character, so it is a match in the rest. */
  lemma MatchNotAtHead(s: string, w: string)
    requires s != [] && !IsWordChar(s[0])
    ensures (exists i :: MatchAt(s, w, i)) ==> exists j :: MatchAt(s[1..], w, j)
  {
    if exists i :: MatchAt(s, w, i) {
      var i :| MatchAt(s, w, i);
      MatchStartsWithLetter(s, w, i);
      assert i >= 1;
      MatchAtSuffix(s, 1, w, i - 1);
      assert MatchAt(s[1..], w, i - 1);
    }
  }

  /** The scan step over a non-word character keeps the correspondence of the rest of the string. */
  lemma RegexWordsMatchSkip(s: string, w: string)
    requires s != [] && !IsWordChar(s[0])
    requires w in RegexWords(s[1..]) <==> exists j :: MatchAt(s[1..], w, j)
    ensures w in RegexWords(s) <==> exists i :: MatchAt(s, w, i)
  {
    assert RegexWords(s) == RegexWords(s[1..]);
    MatchInTail(s, w);
    MatchNotAtHead(s, w);
  }

  /** A match at the start of a string is its leading run of word characters, which is all letters. */
  lemma MatchAtStart(s: string, w: string)
    requires s != [] && IsWordChar(s[0])
    ensures MatchAt(s, w, 0) <==> AllLetters(s[..RunLength(s, IsWordChar)]) && w == s[..RunLength(s, IsWordChar)]
  {
    var n := RunLength(s, IsWordChar);
    if AllLetters(s[..n]) && w == s[..n] {
      assert s[0..n] == s[..n];
    }
    if MatchAt(s, w, 0) {
      assert forall k :: 0 <= k < |w| ==> s[k] == s[0..|w|][k] == w[k];
      RunLengthOf(s, IsWordChar, |w|);
      assert s[..n] == s[0..|w|];
    }
  }

  /** No match starts inside or right after the leading run of word characters, except at its start. */
  lemma NoMatchInRun(s: string, w: string, i: int)
    requires 0 < i <= RunLength(s, IsWordChar)
    ensures !MatchAt(s, w, i)
  {
    assert IsWordChar(s[i - 1]);
  }

  /** What the scan yields over a leading run of word characters: the run if it is all letters, then the rest. */
  lemma RegexWordsRun(s: string)
    requires s != [] && IsWordChar(s[0])
    ensures var n := RunLength(s, IsWordChar);
            RegexWords(s) == (if AllLetters(s[..n]) then [s[..n]] else []) + RegexWords(s[n..])
  {
  }

  /** A match after the leading run of word characters is a match in the whole string. */
  lemma MatchAfterRun(s: string, w: string, j: int)
    requires s != [] && IsWordChar(s[0])
    requires MatchAt(s[RunLength(s, IsWordChar)..], w, j)
    ensures MatchAt(s, w, RunLength(s, IsWordChar) + j)
  {
    var n := RunLength(s, IsWordChar);
    MatchStartsWithLetter(s[n..], w, j);
    assert n < |s| && !IsWordChar(s[n]);
    assert s[n..][j] == s[n + j];
    assert j > 0;
    MatchAtSuffix(s, n, w, j);
  }

  /** A match that does not start the string starts after its leading run of word characters. */
  lemma MatchBeyondRun(s: string, w: string, i: int)
    requires s != [] && IsWordChar(s[0])
    requires MatchAt(s, w, i) && i > 0
    ensures i > RunLength(s, IsWordChar) && MatchAt(s[RunLength(s, IsWordChar)..], w, i - RunLength(s, IsWordChar))
  {
    var n := RunLength(s, IsWordChar);
    if i <= n {
      NoMatchInRun(s, w, i);
    }
    MatchAtSuffix(s, n, w, i - n);
  }

  /** The scan step over a run of word characters keeps the correspondence of the rest of the string. */
  lemma RegexWordsMatchRun(s: string, w: string)
    requires s != [] && IsWordChar(s[0])
    requires var t := s[RunLength(s, IsWordChar)..];
             w in RegexWords(t) <==> exists j :: MatchAt(t, w, j)
    ensures w in RegexWords(s) <==> exists i :: MatchAt(s, w, i)
  {
    var n := RunLength(s, IsWordChar);
    var t := s[n..];
    RegexWordsRun(s);
    MatchAtStart(s, w);
    if w in RegexWords(t) {
      var j :| MatchAt(t, w, j);
      MatchAfterRun(s, w, j);
    }
    if exists i :: MatchAt(s, w, i) {
      var i :| MatchAt(s, w, i);
      if i > 0 {
        MatchBeyondRun(s, w, i);
      }
    }
  }

  /** The scan yields a word exactly when the pattern matches that word somewhere in `s`. */
  lemma {:induction false} RegexWordsMatch(s: string, w: string)
    ensures w in RegexWords(s) <==> exists i :: MatchAt(s, w, i)
    decreases |s|
  {
    if s != [] {
      if !IsWordChar(s[0]) {
        RegexWordsMatch(s[1..], w);
        RegexWordsMatchSkip(s, w);
      } else {
        RegexWordsMatch(s[RunLength(s, IsWordChar)..], w);
        RegexWordsMatchRun(s, w);
      }
    }
  }

  /** The words `tokenize_title` drops. */
  const Stopwords: set<string> := {
    "the", "a", "an", "and", "or", "to", "for", "with", "in", "on", "of", "by", "at", "from", "is", "are",
    "as", "be", "this", "that", "you", "we", "they", "it", "its", "have", "has", "had", "will", "would",
    "could", "should", "may", "might", "can", "must", "shall", "do", "does", "did", "not", "no", "yes",
    "but", "if", "then", "else", "when", "where", "why", "how", "what", "which", "who", "whom", "whose",
    "there", "here", "up", "down", "out", "off", "over", "under", "again", "further", "once", "more",
    "most", "other", "some", "such", "only", "own", "same", "so", "than", "too", "very", "just", "now",
    "well", "also", "back", "even", "still", "way", "take", "every", "any", "both", "each", "few", "nor",
    "s", "t", "don" }

  /** A token worth counting: longer than two characters and not a stopword. */
  predicate Meaningful(w: string) {
    |w| > 2 && w !in Stopwords
  }

  /** The meaningful words of `ws`, in order. */
  function KeepMeaningful(ws: seq<string>): (r: seq<string>)
    ensures forall w :: w in r <==> w in ws && Meaningful(w)
  {
    if ws == [] then []
    else
      var r := KeepMeaningful(ws[..|ws| - 1]) + (if Meaningful(ws[|ws| - 1]) then [ws[|ws| - 1]] else []);
      assert ws == ws[..|ws| - 1] + [ws[|ws| - 1]];
      r
  }

  /** Filtering keeps the order: the meaningful words of a concatenation are those of each part. */
  lemma {:induction false} KeepMeaningfulAppend(a: seq<string>, b: seq<string>)
    ensures KeepMeaningful(a + b) == KeepMeaningful(a) + KeepMeaningful(b)
    decreases |b|
  {
    if b == [] {
      assert a + b == a;
    } else {
      var init := b[..|b| - 1];
      assert (a + b)[..|a + b| - 1] == a + init;
      assert (a + b)[|a + b| - 1] == b[|b| - 1];
      KeepMeaningfulAppend(a, init);
    }
  }

  /** Filtering keeps every occurrence of a meaningful word and none of any other word. */
  lemma {:induction false} KeepMeaningfulCount(ws: seq<string>, w: string)
    ensures multiset(KeepMeaningful(ws))[w] == if Meaningful(w) then multiset(ws)[w] else 0
  {
    if ws != [] {
      var init, last := ws[..|ws| - 1], ws[|ws| - 1];
      KeepMeaningfulCount(init, w);
      assert ws == init + [last];
    }
  }

  /** `tokenize_title`: the meaningful pattern matches of the lowercased title, in order. */
  function TokenizeTitle(title: string): (r: seq<string>)
    ensures forall w :: w in r ==> Meaningful(w) && w in RegexWords(Lower(title))
  {
    KeepMeaningful(RegexWords(Lower(title)))
  }

  /** A lowercase ASCII word. */
  predicate IsLowerWord(w: string) {
    forall k :: 0 <= k < |w| ==> 'a' <= w[k] <= 'z'
  }

  /**
   * The tokens of a title are exactly the meaningful words the pattern matches in the
   * lowercased title, and each is a lowercase ASCII word of at least three letters.
   */
  lemma TokenizeTitleSpec(title: string, w: string)
    ensures w in TokenizeTitle(title) <==> (exists i :: MatchAt(Lower(title), w, i)) && Meaningful(w)
    ensures w in TokenizeTitle(title) ==> IsLowerWord(w) && |w| > 2 && w !in Stopwords
  {
    var s := Lower(title);
    RegexWordsMatch(s, w);
    if w in TokenizeTitle(title) {
      var i :| MatchAt(s, w, i);
      forall k | 0 <= k < |w| ensures 'a' <= w[k] <= 'z' {
        assert w[k] == s[i..i + |w|][k] == s[i + k];
      }
    }
  }

  // ---------------------------------------------------------------------------
  // counting

  /** How many times `w` occurs in `words`. */
  function Count(words: seq<string>, w: string): nat {
    multiset(words)[w]
  }

  function Id(w: string): string { w }

  /** The distinct words in order of first appearance: the key order of a `Counter`. */
  function Distinct(words: seq<string>): seq<string> {
    FirstOccurrences(words, Id)
  }

  predicate NoDuplicates(s: seq<string>) {
    forall i, j :: 0 <= i < j < |s| ==> s[i] != s[j]
  }

  /** `a` is listed before `b` in `d`. */
  predicate Precedes(d: seq<string>, a: string, b: string) {
    exists p, q :: 0 <= p < q < |d| && d[p] == a && d[q] == b
  }

  /** Most frequent first; among equally frequent words, the one listed first in `d` comes first. */
  predicate RankedBy(r: seq<string>, d: seq<string>, words: seq<string>) {
    forall i, j :: 0 <= i < j < |r| ==>
      Count(words, r[i]) > Count(words, r[j]) || (Count(words, r[i]) == Count(words, r[j]) && Precedes(d, r[i], r[j]))
  }

  /** Puts `w` after every word of `s` counted at least as often. */
  function InsertByCount(w: string, s: seq<string>, words: seq<string>): seq<string> {
    if s == [] then [w]
    else if Count(words, s[0]) < Count(words, w) then [w] + s
    else [s[0]] + InsertByCount(w, s[1..], words)
  }

  /** A stable sort of `d` by decreasing count. */
  function SortByCount(d: seq<string>, words: seq<string>): seq<string> {
    if d == [] then [] else InsertByCount(d[|d| - 1], SortByCount(d[..|d| - 1], words), words)
  }

  lemma {:induction false} InsertByCountMultiset(w: string, s: seq<string>, words: seq<string>)
    ensures multiset(InsertByCount(w, s, words)) == multiset(s) + multiset{w}
  {
    if s != [] && Count(words, s[0]) >= Count(words, w) {
      InsertByCountMultiset(w, s[1..], words);
      assert s == [s[0]] + s[1..];
    }
  }

  lemma {:induction false} InsertByCountDistinct(w: string, s: seq<string>, words: seq<string>)
    requires NoDuplicates(s) && w !in s
    ensures NoDuplicates(InsertByCount(w, s, words))
  {
    if s != [] && Count(words, s[0]) >= Count(words, w) {
      InsertByCountDistinct(w, s[1..], words);
      InsertByCountMultiset(w, s[1..], words);
      var r := InsertByCount(w, s[1..], words);
      forall j | 0 <= j < |r| ensures r[j] != s[0] {
        assert r[j] in multiset(r);
      }
    }
  }

  lemma {:induction false} InsertByCountRanked(w: string, s: seq<string>, d: seq<string>, words: seq<string>)
    requires RankedBy(s, d, words)
    requires forall x :: x in s ==> Precedes(d, x, w)
    ensures RankedBy(InsertByCount(w, s, words), d, words)
  {
    if s != [] {
      if Count(words, s[0]) < Count(words, w) {
        RankedInFront(w, s, d, words);
      } else {
        InsertByCountRanked(w, s[1..], d, words);
        InsertByCountMultiset(w, s[1..], words);
        RankedBehindHead(w, s, InsertByCount(w, s[1..], words), d, words);
      }
    }
  }

  /** A word counted more often than the head of a ranked list may go in front of it. */
  lemma RankedInFront(w: string, s: seq<string>, d: seq<string>, words: seq<string>)
    requires RankedBy(s, d, words) && s != [] && Count(words, s[0]) < Count(words, w)
    ensures RankedBy([w] + s, d, words)
  {
    var r := [w] + s;
    forall i, j | 0 <= i < j < |r|
      ensures Count(words, r[i]) > Count(words, r[j]) || (Count(words, r[i]) == Count(words, r[j]) && Precedes(d, r[i], r[j]))
    {
      if i == 0 && j > 1 {
        assert r[j] == s[j - 1];
      }
    }
  }

  /**
   * The head of a ranked list stays in front when `w`, counted no more often and seen
   * after every word of the list, is inserted into the rest, giving `t`.
   */
  lemma RankedBehindHead(w: string, s: seq<string>, t: seq<string>, d: seq<string>, words: seq<string>)
    requires RankedBy(s, d, words) && s != [] && Count(words, s[0]) >= Count(words, w)
    requires forall x :: x in s ==> Precedes(d, x, w)
    requires RankedBy(t, d, words) && multiset(t) == multiset(s[1..]) + multiset{w}
    ensures RankedBy([s[0]] + t, d, words)
  {
    var r := [s[0]] + t;
    forall i, j | 0 <= i < j < |r|
      ensures Count(words, r[i]) > Count(words, r[j]) || (Count(words, r[i]) == Count(words, r[j]) && Precedes(d, r[i], r[j]))
    {
      if i == 0 {
        assert r[j] in multiset(t);
        if r[j] != w {
          var k :| 1 <= k < |s| && s[k] == r[j];
        }
      }
    }
  }

  /** A `Precedes` fact about a prefix holds in the whole list. */
  lemma PrecedesPrefix(d: seq<string>, n: nat, a: string, b: string)
    requires n <= |d| && Precedes(d[..n], a, b)
    ensures Precedes(d, a, b)
  {
    var p, q :| 0 <= p < q < n && d[..n][p] == a && d[..n][q] == b;
    assert d[p] == a && d[q] == b;
  }

  /** The sort is a permutation of its input. */
  lemma {:induction false} SortByCountMultiset(d: seq<string>, words: seq<string>)
    ensures multiset(SortByCount(d, words)) == multiset(d)
  {
    if d != [] {
      var n := |d| - 1;
      SortByCountMultiset(d[..n], words);
      InsertByCountMultiset(d[n], SortByCount(d[..n], words), words);
      assert d == d[..n] + [d[n]];
    }
  }

  /** The sort ranks its input: most frequent first, ties in input order. */
  lemma {:induction false} SortByCountRanked(d: seq<string>, words: seq<string>)
    ensures RankedBy(SortByCount(d, words), d, words)
  {
    if d != [] {
      var n := |d| - 1;
      var init, w := d[..n], d[n];
      var s := SortByCount(init, words);
      SortByCountRanked(init, words);
      SortByCountMultiset(init, words);
      forall i, j | 0 <= i < j < |s| && Count(words, s[i]) == Count(words, s[j]) ensures Precedes(d, s[i], s[j]) {
        PrecedesPrefix(d, n, s[i], s[j]);
      }
      forall x | x in s ensures Precedes(d, x, w) {
        assert x in multiset(init);
        var p :| 0 <= p < n && init[p] == x;
        assert d[p] == x && d[n] == w;
      }
      InsertByCountRanked(w, s, d, words);
    }
  }

  /** Sorting a list without duplicates gives a list without duplicates. */
  lemma {:induction false} SortByCountDistinct(d: seq<string>, words: seq<string>)
    requires NoDuplicates(d)
    ensures NoDuplicates(SortByCount(d, words))
  {
    if d != [] {
      var n := |d| - 1;
      var init, w := d[..n], d[n];
      var s := SortByCount(init, words);
      assert NoDuplicates(init) by {
        forall i, j | 0 <= i < j < |init| ensures init[i] != init[j] {
          assert init[i] == d[i] && init[j] == d[j];
        }
      }
      SortByCountDistinct(init, words);
      SortByCountMultiset(init, words);
      assert w !in init;
      assert w !in multiset(s);
      InsertByCountDistinct(w, s, words);
    }
  }

  /** The distinct words are pairwise different and are exactly the words of the input. */
  lemma DistinctProperties(words: seq<string>)
    ensures NoDuplicates(Distinct(words))
    ensures forall w :: w in Distinct(words) <==> w in words
  {
    FirstOccurrencesDistinct(words, Id);
    forall w ensures w in Distinct(words) <==> w in words {
      FirstOccurrencesKeys(words, Id, w);
      if w in words {
        var i :| 0 <= i < |words| && words[i] == w;
        assert Id(words[i]) == w;
      }
      if w in Distinct(words) {
        var i :| 0 <= i < |Distinct(words)| && Distinct(words)[i] == w;
        assert Id(Distinct(words)[i]) == w;
      }
    }
  }

  /** Every distinct word, most frequent first, ties in order of first appearance. */
  function Ranking(words: seq<string>): seq<string> {
    SortByCount(Distinct(words), words)
  }

  /** The ranking lists every word of the input exactly once, most frequent first. */
  lemma RankingProperties(words: seq<string>)
    ensures |Ranking(words)| == |Distinct(words)|
    ensures NoDuplicates(Ranking(words))
    ensures RankedBy(Ranking(words), Distinct(words), words)
    ensures forall w :: w in Ranking(words) <==> w in words
  {
    var d := Distinct(words);
    var sorted := Ranking(words);
    DistinctProperties(words);
    SortByCountMultiset(d, words);
    SortByCountRanked(d, words);
    SortByCountDistinct(d, words);
    assert |sorted| == |multiset(sorted)| == |multiset(d)| == |d|;
    forall w ensures w in sorted <==> w in words {
      assert w in sorted <==> w in multiset(sorted);
      assert w in d <==> w in multiset(d);
    }
  }

  /** `Counter(words).most_common(n)`: (word, count) pairs, most frequent first, ties in order of first appearance. */
  function MostCommon(words: seq<string>, n: nat): (r: seq<(string, nat)>)
    ensures |r| <= n
    ensures forall i :: 0 <= i < |r| ==> r[i].1 == Count(words, r[i].0)
  {
    var sorted := Ranking(words);
    var m := if n < |sorted| then n else |sorted|;
    seq(m, i requires 0 <= i < m => (sorted[i], Count(words, sorted[i])))
  }

  /** As many entries as asked for when there are enough distinct words, each a word of the input counted at least once. */
  lemma MostCommonEntries(words: seq<string>, n: nat)
    ensures var r := MostCommon(words, n);
            && |r| == (if n < |Distinct(words)| then n else |Distinct(words)|)
            && forall i :: 0 <= i < |r| ==> r[i].0 in words && r[i].1 > 0
  {
    RankingProperties(words);
    var r := MostCommon(words, n);
    forall i | 0 <= i < |r| ensures r[i].0 in words && r[i].1 > 0 {
      assert r[i].0 == Ranking(words)[i];
      assert Ranking(words)[i] in Ranking(words);
      assert r[i].0 in multiset(words);
    }
  }

  /** No word twice; counts never increase, and equal counts keep the order of first appearance. */
  lemma MostCommonOrder(words: seq<string>, n: nat)
    ensures var r := MostCommon(words, n);
            && (forall i, j :: 0 <= i < j < |r| ==> r[i].0 != r[j].0)
            && (forall i, j :: 0 <= i < j < |r| ==>
                  r[i].1 > r[j].1 || (r[i].1 == r[j].1 && Precedes(Distinct(words), r[i].0, r[j].0)))
  {
    RankingProperties(words);
    var r := MostCommon(words, n);
    assert forall i :: 0 <= i < |r| ==> r[i].0 == Ranking(words)[i];
  }

  /**
   * A word of the input is left out only when the list is full; it is counted no more
   * than the last entry, and when it is counted as often, the last entry appeared first.
   */
  lemma MostCommonTop(words: seq<string>, n: nat, w: string)
    requires w in words
    ensures var r := MostCommon(words, n);
            (forall i :: 0 <= i < |r| ==> r[i].0 != w) ==>
              && |r| == n
              && (n > 0 ==> Count(words, w) <= r[n - 1].1)
              && (n > 0 && Count(words, w) == r[n - 1].1 ==> Precedes(Distinct(words), r[n - 1].0, w))
  {
    RankingProperties(words);
    var sorted := Ranking(words);
    var r := MostCommon(words, n);
    var p :| 0 <= p < |sorted| && sorted[p] == w;
    if p < |r| {
      assert r[p].0 == w;
    } else if n > 0 {
      assert r[n - 1].0 == sorted[n - 1];
    }
  }

  // ---------------------------------------------------------------------------
  // trending tags and chart keywords

  /** Each of `ws` lowercased. */
  function LowerAll(ws: seq<string>): (r: seq<string>)
    ensures |r| == |ws| && forall i :: 0 <= i < |r| ==> r[i] == Lower(ws[i])
  {
    seq(|ws|, i requires 0 <= i < |ws| => Lower(ws[i]))
  }

  /** Every whitespace-separated word of every title, lowercased, in order. */
  function TitleWords(jobs: seq<Listing>): seq<string> {
    if jobs == [] then [] else TitleWords(jobs[..|jobs| - 1]) + LowerAll(Words(jobs[|jobs| - 1].title))
  }

  /** A tag: non-empty, without whitespace and without uppercase letters. */
  predicate IsTag(w: string) {
    w != "" && forall k :: 0 <= k < |w| ==> !IsSpace(w[k]) && !IsUpper(w[k])
  }

  lemma {:induction false} TitleWordsAreTags(jobs: seq<Listing>)
    ensures forall w :: w in TitleWords(jobs) ==> IsTag(w)
  {
    if jobs != [] {
      TitleWordsAreTags(jobs[..|jobs| - 1]);
      var ws := Words(jobs[|jobs| - 1].title);
      WordsAreRuns(jobs[|jobs| - 1].title);
      forall i | 0 <= i < |ws| ensures IsTag(Lower(ws[i])) {
        forall k | 0 <= k < |ws[i]| ensures !IsSpace(Lower(ws[i])[k]) {
          assert Lower(ws[i])[k] == LowerChar(ws[i][k]);
        }
      }
    }
  }

  /** The five trending tags: the words of the five most common title words. */
  function TrendingTags(jobs: seq<Listing>): (r: seq<string>)
    ensures |r| <= 5
  {
    Keys(MostCommon(TitleWords(jobs), 5))
  }

  /** The words of a `most_common` list, without their counts. */
  function Keys(common: seq<(string, nat)>): (r: seq<string>)
    ensures |r| == |common| && forall i :: 0 <= i < |r| ==> r[i] == common[i].0
  {
    seq(|common|, i requires 0 <= i < |common| => common[i].0)
  }

  /** Trending tags are lowercased title words without whitespace, as many as five when there are that many distinct words. */
  lemma TrendingTagsAreTitleWords(jobs: seq<Listing>)
    ensures var tags, ws := TrendingTags(jobs), TitleWords(jobs);
            && |tags| == (if 5 < |Distinct(ws)| then 5 else |Distinct(ws)|)
            && forall i :: 0 <= i < |tags| ==> tags[i] in ws && IsTag(tags[i])
  {
    MostCommonEntries(TitleWords(jobs), 5);
    TitleWordsAreTags(jobs);
  }

  /** Trending tags are distinct and listed most frequent first. */
  lemma TrendingTagsOrder(jobs: seq<Listing>)
    ensures var tags, ws := TrendingTags(jobs), TitleWords(jobs);
            && NoDuplicates(tags)
            && forall i, j :: 0 <= i < j < |tags| ==> Count(ws, tags[i]) >= Count(ws, tags[j])
  {
    MostCommonOrder(TitleWords(jobs), 5);
  }

  /**
   * A title word that is not a trending tag is counted no more than the fifth tag, and
   * when it is counted as often, the fifth tag appeared first.
   */
  lemma TrendingTagsTop(jobs: seq<Listing>, w: string)
    requires w in TitleWords(jobs)
    ensures var tags, ws := TrendingTags(jobs), TitleWords(jobs);
            w !in tags ==>
              && |tags| == 5 && Count(ws, w) <= Count(ws, tags[4])
              && (Count(ws, w) == Count(ws, tags[4]) ==> Precedes(Distinct(ws), tags[4], w))
  {
    var ws := TitleWords(jobs);
    var r := MostCommon(ws, 5);
    var tags := Keys(r);
    MostCommonTop(ws, 5, w);
    if w !in tags {
      forall i | 0 <= i < |r| ensures r[i].0 != w {
        assert tags[i] == r[i].0;
      }
    }
  }

  /** Every meaningful token of every title, in order. */
  function ChartTokens(jobs: seq<Listing>): seq<string> {
    if jobs == [] then [] else ChartTokens(jobs[..|jobs| - 1]) + TokenizeTitle(jobs[|jobs| - 1].title)
  }

  lemma {:induction false} ChartTokensAreTokens(jobs: seq<Listing>)
    ensures forall w :: w in ChartTokens(jobs) ==> IsLowerWord(w) && Meaningful(w)
  {
    if jobs != [] {
      ChartTokensAreTokens(jobs[..|jobs| - 1]);
      forall w | w in TokenizeTitle(jobs[|jobs| - 1].title) ensures IsLowerWord(w) && Meaningful(w) {
        TokenizeTitleSpec(jobs[|jobs| - 1].title, w);
      }
    }
  }

  /** The bars of the trending chart, or nothing when there is nothing to draw. */
  function TrendingChart(jobs: seq<Listing>): (r: Option<seq<(string, nat)>>)
    ensures r.Some? ==> 1 <= |r.value| <= 5
  {
    if jobs == [] then None
    else
      var tokens := ChartTokens(jobs);
      if tokens == [] then None
      else
        var common := MostCommon(tokens, 5);
        if common == [] then None else Some(common)
  }

  /**
   * A chart is drawn exactly when some title has a meaningful token; its bars are the five
   * most common tokens, each a different token with its count, tallest first.
   */
  lemma TrendingChartSpec(jobs: seq<Listing>)
    ensures TrendingChart(jobs).Some? <==> ChartTokens(jobs) != []
    ensures TrendingChart(jobs).Some? ==>
              var bars, tokens := TrendingChart(jobs).value, ChartTokens(jobs);
              && bars == MostCommon(tokens, 5)
              && (forall i :: 0 <= i < |bars| ==>
                    bars[i].1 == Count(tokens, bars[i].0) > 0 && IsLowerWord(bars[i].0) && Meaningful(bars[i].0))
              && (forall i, j :: 0 <= i < j < |bars| ==> bars[i].0 != bars[j].0 && bars[i].1 >= bars[j].1)
  {
    var tokens := ChartTokens(jobs);
    MostCommonEntries(tokens, 5);
    MostCommonOrder(tokens, 5);
    DistinctProperties(tokens);
    ChartTokensAreTokens(jobs);
    if tokens != [] {
      assert tokens[0] in Distinct(tokens);
    }
  }

  /**
   * A token missing from a drawn chart is there only because five bars are taken: it is
   * counted no more than the fifth bar, and when it is counted as often, the fifth bar's
   * token appeared first.
   */
  lemma TrendingChartTop(jobs: seq<Listing>, w: string)
    requires w in ChartTokens(jobs)
    ensures TrendingChart(jobs).Some?
    ensures var bars, tokens := TrendingChart(jobs).value, ChartTokens(jobs);
            (forall i :: 0 <= i < |bars| ==> bars[i].0 != w) ==>
              && |bars| == 5 && Count(tokens, w) <= bars[4].1
              && (Count(tokens, w) == bars[4].1 ==> Precedes(Distinct(tokens), bars[4].0, w))
  {
    var tokens := ChartTokens(jobs);
    TrendingChartSpec(jobs);
    MostCommonTop(tokens, 5, w);
  }
}
