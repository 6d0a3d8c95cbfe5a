/**
 * The records of the vocabulary application (users, categories, words, per-user progress,
 * word-to-word relations), their insert payloads, the composite response shapes, and the
 * two numeric rules shared by the server and the client: mastery and rounded percentage.
 */
module Schema {
  import opened Wrappers

  /** A point in time (milliseconds since the epoch); the clock is an input of every
      operation that reads it. */
  type Time = int

  datatype User = User(id: int, username: string, password: string, dailyStreak: int, lastActivity: Time)

  datatype InsertUser = InsertUser(username: string, password: string)

  datatype Category = Category(id: int, name: string, description: Option<string>, level: string)

  datatype InsertCategory = InsertCategory(name: string, description: Option<string>, level: string)

  datatype Word = Word(
    id: int,
    ottoman: string,
    turkish: string,
    meaning: Option<string>,
    exampleOttoman: Option<string>,
    exampleTurkish: Option<string>,
    categoryId: int,
    difficulty: string,
    etymology: Option<string>,
    audioUrl: Option<string>,
    createdAt: Time)

  datatype InsertWord = InsertWord(
    ottoman: string,
    turkish: string,
    meaning: Option<string>,
    exampleOttoman: Option<string>,
    exampleTurkish: Option<string>,
    categoryId: int,
    difficulty: string,
    etymology: Option<string>,
    audioUrl: Option<string>)

  /** One learner's record for one word. */
  datatype Progress = Progress(
    id: int,
    userId: int,
    wordId: int,
    correctCount: int,
    incorrectCount: int,
    lastPracticed: Option<Time>,
    isMastered: bool)

  /** The progress payload: the columns that have a default may be left out. */
  datatype InsertProgress = InsertProgress(
    userId: int,
    wordId: int,
    correctCount: Option<int>,
    incorrectCount: Option<int>,
    lastPracticed: Option<Time>,
    isMastered: Option<bool>)

  datatype RelatedWord = RelatedWord(id: int, wordId: int, relatedWordId: int)

  datatype InsertRelatedWord = InsertRelatedWord(wordId: int, relatedWordId: int)

  /** The record the word-list scripts emit for each word they read. */
  datatype RawWord = RawWord(ottoman: string, turkish: string, meaning: string)

  /** A word together with one learner's record for it, if there is one. */
  datatype WordWithProgress = WordWithProgress(word: Word, progress: Option<Progress>)

  /** A word together with the words related to it. */
  datatype WordWithRelated = WordWithRelated(word: Word, related: seq<Word>)

  datatype UserStats = UserStats(
    learnedWords: int,
    totalWords: int,
    accuracy: int,
    streak: int,
    weekActivity: seq<bool>)

  /** The fixed week-activity strip the store reports for every user. */
  const WeekActivity: seq<bool> := [true, true, true, true, true, false, false]

  /** The mastery rule: at least five attempts and a correct ratio of at least 0.8, written
      over the integers (for a positive total, c / total >= 0.8 exactly when 5c >= 4 total). */
  predicate MasteryRule(correct: int, incorrect: int) {
    correct + incorrect >= 5 && 5 * correct >= 4 * (correct + incorrect)
  }

  /** The mastery rule on worked cases: 4 of 5 right is mastered, and so is 8 of 10; 3 of 4,
      0 of 0, 3 of 5 and 7 of 10 are not. */
  lemma MasteryExamples()
    ensures MasteryRule(4, 1) && !MasteryRule(3, 1) && !MasteryRule(0, 0)
    ensures !MasteryRule(3, 2) && MasteryRule(8, 2) && !MasteryRule(7, 3)
  {
  }

  /** `Math.round(part / whole * 100)`: half-way cases round up. */
  function RoundedPercent(part: int, whole: int): (r: int)
    requires whole > 0
    ensures 2 * whole * r - whole <= 200 * part < 2 * whole * r + whole
    ensures 0 <= part <= whole ==> 0 <= r <= 100
  {
    var r := (200 * part + whole) / (2 * whole);
    RoundedPercentBounds(part, whole, r);
    r
  }

  lemma RoundedPercentBounds(part: int, whole: int, r: int)
    requires whole > 0 && r == (200 * part + whole) / (2 * whole)
    ensures 2 * whole * r - whole <= 200 * part < 2 * whole * r + whole
    ensures 0 <= part <= whole ==> 0 <= r <= 100
  {
    var d := 2 * whole;
    var n := 200 * part + whole;
    var m := n % d;
    assert n == d * r + m && 0 <= m < d;
    assert 2 * whole * r == d * r;
    if 0 <= part <= whole {
      assert 0 <= n < 101 * d;
      ProductSign(d, r);
      ProductSign(d, r - 101);
      assert d * (r - 101) == d * r - 101 * d;
    }
  }

  lemma ProductSign(d: int, x: int)
    requires d > 0
    ensures x < 0 ==> d * x < 0
    ensures x >= 0 ==> d * x >= 0
  {
  }
}
