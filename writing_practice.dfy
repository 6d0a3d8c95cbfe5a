/**
 * The writing exercise: the words of the chosen category are shown one at a time, in a
 * shuffled order; the learner types the other form of the word, the answer is checked
 * ignoring surrounding spaces and letter case, the result is sent to the server as one
 * progress answer, and a session tally counts right and wrong answers. The random shuffles
 * are inputs (index permutations); toasts, audio and the form event are not modelled.
 */
module WritingPractice {
  import opened Wrappers
  import opened Text
  import opened Schema
  import opened CategoryFilter
  import opened MatchingGame
  import Routes

  /** The direction of the exercise. */
  datatype Mode = OttomanToTurkish | TurkishToOttoman

  /** The form of the word the learner must type: the Turkish form when shown the Ottoman
      one, and the Ottoman form otherwise. */
  function ExpectedAnswer(w: Word, mode: Mode): string {
    if mode == OttomanToTurkish then w.turkish else w.ottoman
  }

  /** The answer check: the input trimmed and lower-cased against the expected answer
      lower-cased (the expected answer is not trimmed). */
  predicate IsCorrectAnswer(input: string, answer: string) {
    Lower(Trim(input)) == Lower(answer)
  }

  /** The tally of one run through the words. */
  datatype Session = Session(correct: int, incorrect: int, completed: int, total: int)

  /** The state of the exercise screen. */
  datatype PracticeState = PracticeState(
    categoryId: string,
    mode: Mode,
    filteredWords: seq<WordWithProgress>,
    currentIndex: int,
    userInput: string,
    submitted: bool,
    isCorrect: bool,
    showHint: bool,
    session: Session)
  {
    /** The word on screen, if the index is within the list. */
    function CurrentWord(): (r: Option<WordWithProgress>)
      ensures r.Some? <==> 0 <= currentIndex < |filteredWords|
      ensures r.Some? ==> r.value in filteredWords
    {
      if 0 <= currentIndex < |filteredWords| then Some(filteredWords[currentIndex]) else None
    }

    /** The input, the submitted flag, the verdict and the hint, all cleared. */
    function Cleared(): PracticeState {
      this.(userInput := "", submitted := false, isCorrect := false, showHint := false)
    }

    /** The filter effect, run whenever the words, the category or the mode change: the words
        of the category, shuffled, from the first word on, with a new tally. */
    function Refilter(words: seq<WordWithProgress>, shuffle: seq<nat>): PracticeState
      requires IsPermutation(shuffle, |CategoryWords(words, categoryId)|)
    {
      var filtered := Permute(CategoryWords(words, categoryId), shuffle);
      this.(filteredWords := filtered, currentIndex := 0).Cleared().(session := Session(0, 0, 0, |filtered|))
    }

    /** Typing into the answer field, which is disabled once the answer is submitted. */
    function Type(input: string): PracticeState {
      if submitted then this else this.(userInput := input)
    }

    /** Submitting the typed answer, and the progress answer it sends. */
    function Submit(userId: int, now: Time): (PracticeState, Option<InsertProgress>) {
      var current := CurrentWord();
      if current.None? || submitted then (this, None)
      else
        var w := current.value;
        var correct := IsCorrectAnswer(userInput, ExpectedAnswer(w.word, mode));
        var post := InsertProgress(userId, w.word.id, Some(if correct then 1 else 0), Some(if correct then 0 else 1),
          Some(now), Some(w.progress.Some? && w.progress.value.isMastered));
        var tally := Session(session.correct + (if correct then 1 else 0), session.incorrect + (if correct then 0 else 1),
          session.completed + 1, session.total);
        (this.(isCorrect := correct, submitted := true, session := tally), Some(post))
    }

    /** Starting the run again: the same words, shuffled again, from the first, with a new
        tally. */
    function ResetSession(shuffle: seq<nat>): PracticeState
      requires IsPermutation(shuffle, |filteredWords|)
    {
      var shuffled := Permute(filteredWords, shuffle);
      this.(filteredWords := shuffled, currentIndex := 0).Cleared().(session := Session(0, 0, 0, |shuffled|))
    }

    /** The next word, or a new run after the last one. */
    function MoveToNext(shuffle: seq<nat>): PracticeState
      requires IsPermutation(shuffle, |filteredWords|)
    {
      if currentIndex < |filteredWords| - 1 then this.(currentIndex := currentIndex + 1).Cleared()
      else ResetSession(shuffle)
    }

    /** The previous word, if there is one. */
    function MoveToPrevious(): PracticeState {
      if currentIndex > 0 then this.(currentIndex := currentIndex - 1).Cleared() else this
    }

    function ToggleHint(): PracticeState {
      this.(showHint := !showHint)
    }

    /** The tally adds up, its total is the number of words, and the index is within the
        list (or 0 when the list is empty). */
    ghost predicate Valid() {
      && session.correct >= 0 && session.incorrect >= 0
      && session.correct + session.incorrect == session.completed
      && session.total == |filteredWords|
      && 0 <= currentIndex
      && (currentIndex < |filteredWords| || currentIndex == 0)
    }
  }

  /** The screen before the filter effect first runs. */
  const InitialPractice := PracticeState("all", OttomanToTurkish, [], 0, "", false, false, false, Session(0, 0, 0, 0))

  // ---- the answer check

  /** Lower-casing keeps whitespace and non-whitespace apart. */
  lemma LowerCharWhitespace(c: char)
    ensures IsWhitespace(LowerChar(c)) <==> IsWhitespace(c)
    ensures IsWhitespace(c) ==> LowerChar(c) == c
  {
  }

  /** Lower-casing twice is lower-casing once. */
  lemma LowerLower(s: string)
    ensures Lower(Lower(s)) == Lower(s)
  {
    forall k | 0 <= k < |s|
      ensures Lower(Lower(s))[k] == Lower(s)[k]
    {
      var c := s[k];
      assert LowerChar(LowerChar(c)) == LowerChar(c);
    }
  }

  lemma {:induction false} TrimStartPadded(pre: string, s: string)
    requires forall k :: 0 <= k < |pre| ==> IsWhitespace(pre[k])
    ensures TrimStart(pre + s) == TrimStart(s)
  {
    if |pre| > 0 {
      assert (pre + s)[1..] == pre[1..] + s;
      TrimStartPadded(pre[1..], s);
    } else {
      assert pre + s == s;
    }
  }

  lemma {:induction false} TrimEndPadded(s: string, post: string)
    requires forall k :: 0 <= k < |post| ==> IsWhitespace(post[k])
    ensures TrimEnd(s + post) == TrimEnd(s)
  {
    if |post| > 0 {
      assert (s + post)[..|s + post| - 1] == s + post[..|post| - 1];
      TrimEndPadded(s, post[..|post| - 1]);
    } else {
      assert s + post == s;
    }
  }

  /** Trimming whitespace padding off a string with no whitespace at its ends gives it
      back. */
  lemma TrimPadded(pre: string, s: string, post: string)
    requires forall k :: 0 <= k < |pre| ==> IsWhitespace(pre[k])
    requires forall k :: 0 <= k < |post| ==> IsWhitespace(post[k])
    requires s == [] || (!IsWhitespace(s[0]) && !IsWhitespace(s[|s| - 1]))
    ensures Trim(pre + s + post) == s
  {
    assert pre + s + post == pre + (s + post);
    TrimStartPadded(pre, s + post);
    if s == [] {
      assert s + post == post + [];
      TrimStartPadded(post, []);
      assert TrimStart([]) == [];
    } else {
      assert (s + post)[0] == s[0];
      assert TrimStart(s + post) == s + post;
      TrimEndPadded(s, post);
    }
  }

  /** An answer typed with any letter case and any whitespace around it is accepted, as long
      as the expected answer itself has no whitespace at its ends. */
  lemma TypedAnswerAccepted(pre: string, typed: string, post: string, answer: string)
    requires forall k :: 0 <= k < |pre| ==> IsWhitespace(pre[k])
    requires forall k :: 0 <= k < |post| ==> IsWhitespace(post[k])
    requires answer == [] || (!IsWhitespace(answer[0]) && !IsWhitespace(answer[|answer| - 1]))
    requires Lower(typed) == Lower(answer)
    ensures IsCorrectAnswer(pre + typed + post, answer)
  {
    if typed != [] {
      LowerCharWhitespace(typed[0]);
      LowerCharWhitespace(answer[0]);
      LowerCharWhitespace(typed[|typed| - 1]);
      LowerCharWhitespace(answer[|answer| - 1]);
    }
    TrimPadded(pre, typed, post);
  }

  /** An expected answer with whitespace at either end can never be matched, since the input
      is trimmed and the answer is not. */
  lemma PaddedAnswerNeverAccepted(input: string, answer: string)
    requires answer != [] && (IsWhitespace(answer[0]) || IsWhitespace(answer[|answer| - 1]))
    ensures !IsCorrectAnswer(input, answer)
  {
    var t := Trim(input);
    TrimEnds(input);
    if Lower(t) == Lower(answer) {
      assert |t| == |answer|;
      LowerCharWhitespace(t[0]);
      LowerCharWhitespace(answer[0]);
      LowerCharWhitespace(t[|t| - 1]);
      LowerCharWhitespace(answer[|answer| - 1]);
    }
  }

  /** The verdict depends on the input only through its trimmed form, and on the answer only
      through its lower-case form. */
  lemma AnswerCheckNormalises(input: string, answer: string)
    ensures IsCorrectAnswer(input, answer) <==> IsCorrectAnswer(Trim(input), answer)
    ensures IsCorrectAnswer(input, answer) <==> IsCorrectAnswer(input, Lower(answer))
  {
    TrimEnds(input);
    TrimOfTrimmed(Trim(input));
    LowerLower(answer);
    if Lower(Trim(input)) == Lower(Lower(answer)) {
      LowerLower(Trim(input));
    }
  }

  // ---- the session

  /** A submit with no word on screen, or a second submit of the same word, changes nothing
      and sends nothing. Otherwise the word is marked submitted with the verdict of the
      answer check on the expected form, one more answer is completed, exactly one of the
      right and wrong counts goes up, and one progress answer is sent for the word: one
      right or one wrong attempt, keeping the learner's mastered flag (false when there is
      no record). */
  lemma SubmitSpec(st: PracticeState, userId: int, now: Time)
    ensures var (t, post) := st.Submit(userId, now);
      && (st.CurrentWord().None? || st.submitted ==> t == st && post == None)
      && (st.CurrentWord().Some? && !st.submitted ==>
        var w := st.CurrentWord().value;
        var correct := IsCorrectAnswer(st.userInput, ExpectedAnswer(w.word, st.mode));
        && t.submitted && t.isCorrect == correct
        && t.session.completed == st.session.completed + 1
        && t.session.correct == st.session.correct + (if correct then 1 else 0)
        && t.session.incorrect == st.session.incorrect + (if correct then 0 else 1)
        && t.session.total == st.session.total
        && t.filteredWords == st.filteredWords && t.currentIndex == st.currentIndex
        && post.Some? && Routes.IsAnswer(post.value, userId, w.word.id)
        && (post.value.correctCount == Some(1) <==> correct)
        && post.value.lastPracticed == Some(now)
        && post.value.isMastered == Some(w.progress.Some? && w.progress.value.isMastered))
  {
  }

  /** Before the last word, moving on goes to the next word with a clean answer field; on
      the last word (or with no words) it starts a new run of the same words: index 0, a
      zero tally whose total is the number of words. */
  lemma MoveToNextSpec(st: PracticeState, shuffle: seq<nat>)
    requires IsPermutation(shuffle, |st.filteredWords|)
    ensures var t := st.MoveToNext(shuffle);
      && (st.currentIndex < |st.filteredWords| - 1 ==>
        && t.currentIndex == st.currentIndex + 1
        && t.filteredWords == st.filteredWords && t.session == st.session
        && t.userInput == "" && !t.submitted && !t.isCorrect && !t.showHint)
      && (st.currentIndex >= |st.filteredWords| - 1 ==>
        && t.currentIndex == 0
        && t.session == Session(0, 0, 0, |st.filteredWords|)
        && |t.filteredWords| == |st.filteredWords|
        && (forall w :: w in t.filteredWords <==> w in st.filteredWords)
        && t.userInput == "" && !t.submitted && !t.isCorrect && !t.showHint)
  {
    PermuteMembers(st.filteredWords, shuffle);
  }

  /** Moving back goes to the previous word with a clean answer field, and does nothing on
      the first word. */
  lemma MoveToPreviousSpec(st: PracticeState)
    ensures var t := st.MoveToPrevious();
      && (st.currentIndex > 0 ==>
        && t.currentIndex == st.currentIndex - 1
        && t.filteredWords == st.filteredWords && t.session == st.session
        && t.userInput == "" && !t.submitted && !t.isCorrect && !t.showHint)
      && (st.currentIndex <= 0 ==> t == st)
  {
  }

  /** The filter effect: with a category other than "all" the list holds exactly the words
      of that category, with "all" every word; either way it is a rearrangement of the
      filtered words, the run starts at the first word and the tally's total is the length
      of the list. */
  lemma RefilterSpec(st: PracticeState, words: seq<WordWithProgress>, shuffle: seq<nat>)
    requires IsPermutation(shuffle, |CategoryWords(words, st.categoryId)|)
    ensures var t := st.Refilter(words, shuffle);
      && (forall w :: w in t.filteredWords <==>
        w in words && (st.categoryId == "all" || ParseInt(st.categoryId) == Some(w.word.categoryId)))
      && |t.filteredWords| == |CategoryWords(words, st.categoryId)|
      && (st.categoryId == "all" ==> |t.filteredWords| == |words|)
      && t.currentIndex == 0 && t.session == Session(0, 0, 0, |t.filteredWords|)
      && t.userInput == "" && !t.submitted
      && t.categoryId == st.categoryId && t.mode == st.mode
  {
    CategoryWordsSpec(words, st.categoryId);
    PermuteMembers(CategoryWords(words, st.categoryId), shuffle);
  }

  /** Every operation keeps the state valid: the right and wrong counts always add up to the
      completed count, the total is the number of words and the index stays in the list. */
  lemma OperationsValid(st: PracticeState, words: seq<WordWithProgress>, shuffle: seq<nat>, input: string, userId: int, now: Time)
    requires st.Valid()
    ensures IsPermutation(shuffle, |CategoryWords(words, st.categoryId)|) ==> st.Refilter(words, shuffle).Valid()
    ensures IsPermutation(shuffle, |st.filteredWords|) ==> st.MoveToNext(shuffle).Valid() && st.ResetSession(shuffle).Valid()
    ensures st.MoveToPrevious().Valid() && st.Type(input).Valid() && st.ToggleHint().Valid()
    ensures st.Submit(userId, now).0.Valid()
  {
  }

  /** The tally is not bounded by the number of words: going back and answering a word again
      counts it again, so with two words three answers can be completed. */
  lemma CompletedCanExceedTotal(w0: WordWithProgress, w1: WordWithProgress, userId: int, now: Time)
    ensures var s0 := InitialPractice.(filteredWords := [w0, w1], session := Session(0, 0, 0, 2));
      var s1 := s0.Submit(userId, now).0.MoveToNext([0, 1]);
      var s2 := s1.Submit(userId, now).0.MoveToPrevious();
      var s3 := s2.Submit(userId, now).0;
      && s0.Valid() && s3.Valid() && s3.session.completed == 3 > s3.session.total
  {
  }

  /** The exercise screen, whose fields the handlers update in place. */
  class Practice {
    var categoryId: string
    var mode: Mode
    var filteredWords: seq<WordWithProgress>
    var currentIndex: int
    var userInput: string
    var submitted: bool
    var isCorrect: bool
    var showHint: bool
    var session: Session

    function Model(): PracticeState
      reads this
    {
      PracticeState(categoryId, mode, filteredWords, currentIndex, userInput, submitted, isCorrect, showHint, session)
    }

    constructor ()
      ensures Model() == InitialPractice
    {
      categoryId, mode, filteredWords, currentIndex := "all", OttomanToTurkish, [], 0;
      userInput, submitted, isCorrect, showHint := "", false, false, false;
      session := Session(0, 0, 0, 0);
    }

    /** The filter effect. */
    method ApplyFilter(words: seq<WordWithProgress>, shuffle: seq<nat>)
      requires IsPermutation(shuffle, |CategoryWords(words, categoryId)|)
      modifies this
      ensures Model() == old(Model()).Refilter(words, shuffle)
    {
      var filtered := words;
      if categoryId != "all" {
        filtered := CategoryWords(words, categoryId);
      } else {
        CategoryWordsSpec(words, categoryId);
      }
      filtered := Permute(filtered, shuffle);
      filteredWords, currentIndex := filtered, 0;
      userInput, submitted, isCorrect, showHint := "", false, false, false;
      session := Session(0, 0, 0, |filtered|);
    }

    /** Choosing a category, which runs the filter effect. */
    method SelectCategory(id: string, words: seq<WordWithProgress>, shuffle: seq<nat>)
      requires IsPermutation(shuffle, |CategoryWords(words, id)|)
      modifies this
      ensures Model() == old(Model()).(categoryId := id).Refilter(words, shuffle)
    {
      categoryId := id;
      ApplyFilter(words, shuffle);
    }

    /** Choosing a direction, which runs the filter effect too. */
    method SelectMode(m: Mode, words: seq<WordWithProgress>, shuffle: seq<nat>)
      requires IsPermutation(shuffle, |CategoryWords(words, categoryId)|)
      modifies this
      ensures Model() == old(Model()).(mode := m).Refilter(words, shuffle)
    {
      mode := m;
      ApplyFilter(words, shuffle);
    }

    method SetUserInput(input: string)
      modifies this
      ensures Model() == old(Model()).Type(input)
    {
      if !submitted {
        userInput := input;
      }
    }

    /** `handleSubmit`; returns the progress answer it sends, if any. */
    method HandleSubmit(userId: int, now: Time) returns (post: Option<InsertProgress>)
      modifies this
      ensures (Model(), post) == old(Model()).Submit(userId, now)
    {
      if !(0 <= currentIndex < |filteredWords|) || submitted {
        return None;
      }
      ghost var st := Model();
      var currentWord := filteredWords[currentIndex];
      var correctAnswer := if mode == OttomanToTurkish then currentWord.word.turkish else currentWord.word.ottoman;
      var normalizedInput := Lower(Trim(userInput));
      var normalizedAnswer := Lower(correctAnswer);
      var correct := normalizedInput == normalizedAnswer;
      isCorrect := correct;
      submitted := true;
      post := Some(InsertProgress(userId, currentWord.word.id, Some(if correct then 1 else 0), Some(if correct then 0 else 1),
        Some(now), Some(currentWord.progress.Some? && currentWord.progress.value.isMastered)));
      session := Session(session.correct + (if correct then 1 else 0), session.incorrect + (if correct then 0 else 1),
        session.completed + 1, session.total);
      assert st.CurrentWord() == Some(currentWord);
      assert correct == IsCorrectAnswer(st.userInput, ExpectedAnswer(currentWord.word, st.mode));
      assert Model() == st.(isCorrect := correct, submitted := true, session := session);
    }

    method MoveToNext(shuffle: seq<nat>)
      requires IsPermutation(shuffle, |filteredWords|)
      modifies this
      ensures Model() == old(Model()).MoveToNext(shuffle)
    {
      if currentIndex < |filteredWords| - 1 {
        currentIndex := currentIndex + 1;
        userInput, submitted, isCorrect, showHint := "", false, false, false;
      } else {
        ResetSession(shuffle);
      }
    }

    method MoveToPrevious()
      modifies this
      ensures Model() == old(Model()).MoveToPrevious()
    {
      if currentIndex > 0 {
        currentIndex := currentIndex - 1;
        userInput, submitted, isCorrect, showHint := "", false, false, false;
      }
    }

    method ResetSession(shuffle: seq<nat>)
      requires IsPermutation(shuffle, |filteredWords|)
      modifies this
      ensures Model() == old(Model()).ResetSession(shuffle)
    {
      var shuffled := Permute(filteredWords, shuffle);
      filteredWords, currentIndex := shuffled, 0;
      userInput, submitted, isCorrect, showHint := "", false, false, false;
      session := Session(0, 0, 0, |shuffled|);
    }

    method ToggleHint()
      modifies this
      ensures Model() == old(Model()).ToggleHint()
    {
      showHint := !showHint;
    }
  }
}
