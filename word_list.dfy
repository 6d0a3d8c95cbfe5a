/**
 * The word list page: the learner's words filtered by a search text, a category and a
 * difficulty, each row showing the share of right answers as a rounded percentage in one
 * of three colours (or a dash before any attempt).
 */
module WordList {
  import opened Wrappers
  import opened Text
  import opened Schema
  import opened Seqs
  import opened CategoryFilter
  import Storage

  /** The search clause: an empty search accepts every word; otherwise the word matches the
      lower-cased search text. */
  predicate MatchesSearch(w: Word, searchQuery: string) {
    searchQuery == "" || Storage.MatchesQuery(w, Lower(searchQuery))
  }

  /** The difficulty clause: "all" accepts every word. */
  predicate MatchesDifficulty(w: Word, difficultyFilter: string) {
    difficultyFilter == "all" || w.difficulty == difficultyFilter
  }

  /** A word is listed when it passes all three filters. */
  predicate Listed(w: WordWithProgress, searchQuery: string, categoryFilter: string, difficultyFilter: string) {
    MatchesSearch(w.word, searchQuery) && InCategory(categoryFilter)(w) && MatchesDifficulty(w.word, difficultyFilter)
  }

  function ListedBy(searchQuery: string, categoryFilter: string, difficultyFilter: string): WordWithProgress -> bool {
    (w: WordWithProgress) => Listed(w, searchQuery, categoryFilter, difficultyFilter)
  }

  /** The rows of the table, in the order of the learner's words. */
  function FilteredWords(words: seq<WordWithProgress>, searchQuery: string, categoryFilter: string, difficultyFilter: string): seq<WordWithProgress> {
    Filter(words, ListedBy(searchQuery, categoryFilter, difficultyFilter))
  }

  /** A word is listed exactly when it matches the search, the category and the difficulty;
      the rows keep the order of the words. */
  lemma FilteredWordsSpec(words: seq<WordWithProgress>, searchQuery: string, categoryFilter: string, difficultyFilter: string)
    ensures var r := FilteredWords(words, searchQuery, categoryFilter, difficultyFilter);
      && (forall w :: w in r <==>
        (&& w in words && MatchesSearch(w.word, searchQuery)
         && (categoryFilter == "all" || ParseInt(categoryFilter) == Some(w.word.categoryId))
         && (difficultyFilter == "all" || w.word.difficulty == difficultyFilter)))
      && IsSubsequence(r, words)
  {
    FilterIsSubsequence(words, ListedBy(searchQuery, categoryFilter, difficultyFilter));
  }

  /** An empty search, the category "all" and the difficulty "all" each drop their clause;
      with all three the whole list is shown. */
  lemma OpenFilters(words: seq<WordWithProgress>, w: WordWithProgress, searchQuery: string, categoryFilter: string, difficultyFilter: string)
    ensures Listed(w, "", categoryFilter, difficultyFilter) <==> InCategory(categoryFilter)(w) && MatchesDifficulty(w.word, difficultyFilter)
    ensures Listed(w, searchQuery, "all", difficultyFilter) <==> MatchesSearch(w.word, searchQuery) && MatchesDifficulty(w.word, difficultyFilter)
    ensures Listed(w, searchQuery, categoryFilter, "all") <==> MatchesSearch(w.word, searchQuery) && InCategory(categoryFilter)(w)
    ensures FilteredWords(words, "", "all", "all") == words
  {
    FilterAll(words, ListedBy("", "all", "all"));
  }

  /** The search clause is the store's search predicate: an empty search text matches every
      word there too, since every text contains the empty one. So the words the page lists
      for a search are those the store's search returns. */
  lemma SearchClauseIsStoreSearch(s: Storage.Store, w: Word, searchQuery: string)
    ensures MatchesSearch(w, searchQuery) <==> Storage.MatchesQuery(w, Lower(searchQuery))
    ensures w in s.words ==> (w in s.SearchWords(searchQuery) <==> MatchesSearch(w, searchQuery))
  {
    if searchQuery == "" {
      assert Lower(searchQuery) == "";
      assert Contains(Lower(w.turkish), "");
    }
    Storage.SearchWordsSpec(s, searchQuery);
  }

  /** The number of answers recorded for the word. */
  function TotalAttempts(progress: Option<Progress>): int {
    if progress.Some? then progress.value.correctCount + progress.value.incorrectCount else 0
  }

  /** The share of right answers, rounded to a whole percent; 0 before any attempt. */
  function ProgressPercentage(progress: Option<Progress>): (pct: int)
    ensures TotalAttempts(progress) <= 0 ==> pct == 0
    ensures TotalAttempts(progress) > 0 ==>
      var c := progress.value.correctCount;
      var t := TotalAttempts(progress);
      2 * t * pct - t <= 200 * c < 2 * t * pct + t
    ensures progress.Some? && progress.value.correctCount >= 0 && progress.value.incorrectCount >= 0 ==> 0 <= pct <= 100
  {
    var total := TotalAttempts(progress);
    if total > 0 then RoundedPercent(progress.value.correctCount, total) else 0
  }

  /** The colour of the progress cell. */
  datatype Shade = Dash | Green | Yellow | Red

  function ProgressShade(progress: Option<Progress>): Shade {
    var pct := ProgressPercentage(progress);
    if TotalAttempts(progress) > 0 then (if pct >= 80 then Green else if pct >= 50 then Yellow else Red)
    else Dash
  }

  /** The rounded percentage reaches k exactly when 200 c + t >= 2 t k. */
  lemma PercentAtLeast(c: int, t: int, k: int)
    requires t > 0
    ensures RoundedPercent(c, t) >= k <==> 200 * c + t >= 2 * t * k
  {
    var r := RoundedPercent(c, t);
    var d := 2 * t;
    var n := 200 * c + t;
    assert n == d * r + n % d && 0 <= n % d < d;
    assert 2 * t * k == d * k;
    ProductSign(d, r - k);
    ProductSign(d, k - 1 - r);
    assert d * (r - k) == d * r - d * k;
    assert d * (k - 1 - r) == d * k - d - d * r;
  }

  /** A dash before any attempt; otherwise green when at least 79.5% of the attempts were
      right (the share that rounds to 80), yellow from 49.5% (rounding to 50), red below. */
  lemma ProgressShadeSpec(progress: Option<Progress>)
    ensures var s := ProgressShade(progress);
      var t := TotalAttempts(progress);
      && (t <= 0 <==> s == Dash)
      && (t > 0 ==>
        var c := progress.value.correctCount;
        && (s == Green <==> 200 * c >= 159 * t)
        && (s == Yellow <==> 99 * t <= 200 * c < 159 * t)
        && (s == Red <==> 200 * c < 99 * t))
  {
    var t := TotalAttempts(progress);
    if t > 0 {
      PercentAtLeast(progress.value.correctCount, t, 80);
      PercentAtLeast(progress.value.correctCount, t, 50);
    }
  }
}
