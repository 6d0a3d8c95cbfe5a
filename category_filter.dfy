/**
 * The category filter the practice screens and the word list share: the category is the
 * value of a drop-down, either "all" or the decimal id of a category, read back with
 * `parseInt`. The clients pass no radix; the model reads the text as decimal, which agrees
 * for every value the drop-down can hold.
 */
module CategoryFilter {
  import opened Wrappers
  import opened Text
  import opened Schema
  import opened Seqs

  /** The category test of the word filter. */
  function InCategory(categoryId: string): WordWithProgress -> bool {
    (w: WordWithProgress) => categoryId == "all" || ParseInt(categoryId) == Some(w.word.categoryId)
  }

  /** The words of the chosen category, in their order. */
  function CategoryWords(words: seq<WordWithProgress>, categoryId: string): seq<WordWithProgress> {
    Filter(words, InCategory(categoryId))
  }

  /** "all" keeps every word; otherwise a word is kept when the category parses as a number
      and that number is the word's category (a category that does not parse keeps none). */
  lemma CategoryWordsSpec(words: seq<WordWithProgress>, categoryId: string)
    ensures var r := CategoryWords(words, categoryId);
      && (categoryId == "all" ==> r == words)
      && (forall w :: w in r <==> w in words && (categoryId == "all" || ParseInt(categoryId) == Some(w.word.categoryId)))
      && IsSubsequence(r, words)
  {
    FilterIsSubsequence(words, InCategory(categoryId));
    if categoryId == "all" {
      FilterAll(words, InCategory(categoryId));
    }
  }
}
