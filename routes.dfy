/**
 * The HTTP handlers of the API, as functions from the request and the store's state to
 * the new state and the response (status and body), and as methods that carry out the
 * same steps on the shared `MemStorage` object.
 *
 * A path parameter arrives as text and is read with `parseInt(_, 10)`; when that gives NaN
 * no stored key equals it, so a lookup finds nothing and a filter keeps nothing. A request
 * body arrives already checked against its insert schema (`Parsed`); the schema itself is
 * not part of this model. The time of a request is a parameter.
 */
module Routes {
  import opened Wrappers
  import opened Schema
  import opened Text
  import opened Seqs
  import opened Storage

  /** The outcome of checking a request body against its insert schema. */
  datatype Parsed<T> = Accepted(value: T) | Rejected(message: string)

  /** The `streak` field of a streak update: a JSON number or anything else. */
  datatype StreakField = NumberValue(value: int) | OtherValue

  datatype Body =
    | Message(text: string)
    | UserBody(user: User)
    | CategoriesBody(categories: seq<Category>)
    | CategoryBody(category: Category)
    | WordsBody(words: seq<Word>)
    | WordBody(word: Word)
    | DailyWordBody(daily: WordWithRelated)
    | ProgressBody(progress: Progress)
    | StatsBody(stats: UserStats)
    | WordsWithProgressBody(items: seq<WordWithProgress>)

  datatype Response = Response(status: int, body: Body)

  // ---- users

  /** POST /users: a rejected body is 400; a username already in use is 400 and creates
      nothing; otherwise the user is created and the answer is 201. */
  function PostUsers(s: Store, body: Parsed<InsertUser>, now: Time): (Store, Response) {
    match body
    case Rejected(m) => (s, Response(400, Message(m)))
    case Accepted(insertUser) =>
      if s.GetUserByUsername(insertUser.username).Some? then
        (s, Response(400, Message("Username already exists")))
      else
        var (t, user) := s.CreateUser(insertUser, now);
        (t, Response(201, UserBody(user)))
  }

  /** GET /users/:id. */
  function GetUserRoute(s: Store, id: string): Response {
    match ParseInt(id)
    case None => Response(404, Message("User not found"))
    case Some(userId) =>
      match s.GetUser(userId)
      case None => Response(404, Message("User not found"))
      case Some(user) => Response(200, UserBody(user))
  }

  /** PATCH /users/:id/streak: a streak that is not a number is 400 before the store is
      touched; a missing user makes the store throw, which is 500. */
  function PatchStreak(s: Store, id: string, streak: StreakField): (Store, Response) {
    match streak
    case OtherValue => (s, Response(400, Message("Invalid streak value")))
    case NumberValue(value) =>
      match ParseInt(id)
      case None => (s, Response(500, Message("Failed to update user streak")))
      case Some(userId) =>
        var (t, r) := s.UpdateUserStreak(userId, value);
        match r
        case Err(_) => (t, Response(500, Message("Failed to update user streak")))
        case Ok(user) => (t, Response(200, UserBody(user)))
  }

  /** PATCH /users/:id/activity. */
  function PatchActivity(s: Store, id: string, now: Time): (Store, Response) {
    match ParseInt(id)
    case None => (s, Response(500, Message("Failed to update user activity")))
    case Some(userId) =>
      var (t, r) := s.UpdateLastActivity(userId, now);
      match r
      case Err(_) => (t, Response(500, Message("Failed to update user activity")))
      case Ok(user) => (t, Response(200, UserBody(user)))
  }

  // ---- categories

  /** GET /categories. */
  function GetCategories(s: Store): Response {
    Response(200, CategoriesBody(s.categories))
  }

  /** POST /categories. */
  function PostCategories(s: Store, body: Parsed<InsertCategory>): (Store, Response) {
    match body
    case Rejected(m) => (s, Response(400, Message(m)))
    case Accepted(insertCategory) =>
      var (t, category) := s.CreateCategory(insertCategory);
      (t, Response(201, CategoryBody(category)))
  }

  // ---- words

  /** GET /words: a non-empty category parameter wins over the query; a non-empty query
      alone searches; with neither, the whole catalog. */
  function GetWords(s: Store, category: Option<string>, query: Option<string>): Response {
    if category.Some? && category.value != "" then
      match ParseInt(category.value)
      case None => Response(200, WordsBody([]))
      case Some(categoryId) => Response(200, WordsBody(s.GetWordsByCategory(categoryId)))
    else if query.Some? && query.value != "" then
      Response(200, WordsBody(s.SearchWords(query.value)))
    else
      Response(200, WordsBody(s.words))
  }

  /** GET /words/:id. */
  function GetWordRoute(s: Store, id: string): Response {
    match ParseInt(id)
    case None => Response(404, Message("Word not found"))
    case Some(wordId) =>
      match s.GetWordById(wordId)
      case None => Response(404, Message("Word not found"))
      case Some(word) => Response(200, WordBody(word))
  }

  /** POST /words. */
  function PostWords(s: Store, body: Parsed<InsertWord>, now: Time): (Store, Response) {
    match body
    case Rejected(m) => (s, Response(400, Message(m)))
    case Accepted(insertWord) =>
      var (t, word) := s.CreateWord(insertWord, now);
      (t, Response(201, WordBody(word)))
  }

  /** GET /words/:id/related. */
  function GetRelatedRoute(s: Store, id: string): Response {
    match ParseInt(id)
    case None => Response(200, WordsBody([]))
    case Some(wordId) => Response(200, WordsBody(s.GetRelatedWords(wordId)))
  }

  /** POST /words/related. */
  function PostRelated(s: Store, body: Parsed<InsertRelatedWord>): (Store, Response) {
    match body
    case Rejected(m) => (s, Response(400, Message(m)))
    case Accepted(relation) =>
      (s.AddRelatedWord(relation.wordId, relation.relatedWordId), Response(201, Message("Related word added")))
  }

  /** GET /daily-word. */
  function GetDailyWordRoute(s: Store): Response {
    match s.GetDailyWord()
    case None => Response(404, Message("Daily word not found"))
    case Some(daily) => Response(200, DailyWordBody(daily))
  }

  // ---- progress

  /** GET /progress/:userId/:wordId. */
  function GetProgressRoute(s: Store, userId: string, wordId: string): Response {
    match (ParseInt(userId), ParseInt(wordId))
    case (Some(u), Some(w)) =>
      (match s.GetUserProgress(u, w)
       case None => Response(404, Message("Progress not found"))
       case Some(p) => Response(200, ProgressBody(p)))
    case _ => Response(404, Message("Progress not found"))
  }

  /** POST /progress: when the pair already has a record, the payload's counts (a missing
      count read as 0) are added to the stored ones through `UpdateProgress` and the answer
      is 200; otherwise the payload is recorded as the pair's first record, 201. */
  function PostProgress(s: Store, body: Parsed<InsertProgress>, now: Time): (Store, Response) {
    match body
    case Rejected(m) => (s, Response(400, Message(m)))
    case Accepted(p) =>
      match s.GetUserProgress(p.userId, p.wordId)
      case Some(existing) =>
        var upd := s.UpdateProgress(existing.id,
          existing.correctCount + p.correctCount.GetOr(0),
          existing.incorrectCount + p.incorrectCount.GetOr(0), now);
        (upd.0, match upd.1
         case Err(_) => Response(500, Message("Failed to record progress"))
         case Ok(updated) => Response(200, ProgressBody(updated)))
      case None =>
        var rec := s.RecordProgress(p);
        (rec.0, Response(201, ProgressBody(rec.1)))
  }

  /** GET /stats/:userId; for a NaN id no record and no user match, so only the catalog
      size and the fixed week strip are reported. */
  function GetStatsRoute(s: Store, userId: string): Response {
    match ParseInt(userId)
    case None => Response(200, StatsBody(UserStats(0, |s.words|, 0, 0, WeekActivity)))
    case Some(u) => Response(200, StatsBody(s.GetUserStats(u)))
  }

  /** Every word paired with no record. */
  function WithoutProgress(words: seq<Word>): seq<WordWithProgress> {
    seq(|words|, j requires 0 <= j < |words| => WordWithProgress(words[j], None))
  }

  /** GET /words-with-progress/:userId; for a NaN id every word comes without a record. */
  function GetWordsWithProgressRoute(s: Store, userId: string): Response {
    match ParseInt(userId)
    case None => Response(200, WordsWithProgressBody(WithoutProgress(s.words)))
    case Some(u) => Response(200, WordsWithProgressBody(s.GetWordsWithProgress(u)))
  }

  // ---- properties of the handlers

  /** POST /users: a taken username answers 400 and leaves the store as it was; a free one
      creates exactly one user, with that name, and answers 201. */
  lemma PostUsersSpec(s: Store, insertUser: InsertUser, now: Time)
    requires s.Valid()
    ensures var (t, resp) := PostUsers(s, Accepted(insertUser), now);
      && t.Valid()
      && (s.GetUserByUsername(insertUser.username).Some? ==> t == s && resp.status == 400)
      && (s.GetUserByUsername(insertUser.username).None? ==>
        && resp.status == 201 && resp.body.UserBody?
        && resp.body.user.username == insertUser.username
        && t.users == s.users + [resp.body.user]
        && t.GetUserByUsername(insertUser.username) == Some(resp.body.user))
  {
    if s.GetUserByUsername(insertUser.username).None? {
      CreateUserFresh(s, insertUser, now);
      var (t, user) := s.CreateUser(insertUser, now);
      Storage.OM.FindFirst(t.users, UserName, insertUser.username, |s.users|);
    }
  }

  /** A rejected body answers 400 and changes nothing, on every route that takes a body. */
  lemma RejectedBodies(s: Store, m: string, now: Time)
    ensures PostUsers(s, Rejected(m), now) == (s, Response(400, Message(m)))
    ensures PostCategories(s, Rejected(m)) == (s, Response(400, Message(m)))
    ensures PostWords(s, Rejected(m), now) == (s, Response(400, Message(m)))
    ensures PostRelated(s, Rejected(m)) == (s, Response(400, Message(m)))
    ensures PostProgress(s, Rejected(m), now) == (s, Response(400, Message(m)))
  {
  }

  /** PATCH /users/:id/streak: a non-number streak answers 400 without touching the store;
      a number answers 200 with the updated user when the id names a user, and the store is
      then the streak update, which changes only that user's streak (`UpdateUserStreakSpec`);
      500 otherwise, with nothing changed. */
  lemma PatchStreakSpec(s: Store, id: string, streak: StreakField)
    requires s.Valid()
    ensures var (t, resp) := PatchStreak(s, id, streak);
      && t.Valid()
      && (streak.OtherValue? ==> t == s && resp == Response(400, Message("Invalid streak value")))
      && (streak.NumberValue? ==>
        && (resp.status == 200 <==> ParseInt(id).Some? && s.GetUser(ParseInt(id).value).Some?)
        && (resp.status != 200 ==> t == s && resp.status == 500)
        && (resp.status == 200 ==>
          && t == s.UpdateUserStreak(ParseInt(id).value, streak.value).0
          && resp.body == UserBody(s.GetUser(ParseInt(id).value).value.(dailyStreak := streak.value))))
  {
    if streak.NumberValue? && ParseInt(id).Some? {
      UpdateUserStreakSpec(s, ParseInt(id).value, streak.value);
    }
  }

  /** PATCH /users/:id/activity: 200 with the updated user when the id names a user, and the
      store is then the activity update (`UpdateLastActivitySpec`); 500 otherwise, with
      nothing changed. */
  lemma PatchActivitySpec(s: Store, id: string, now: Time)
    requires s.Valid()
    ensures var (t, resp) := PatchActivity(s, id, now);
      && t.Valid()
      && (resp.status == 200 <==> ParseInt(id).Some? && s.GetUser(ParseInt(id).value).Some?)
      && (resp.status != 200 ==> t == s && resp.status == 500)
      && (resp.status == 200 ==>
        && t == s.UpdateLastActivity(ParseInt(id).value, now).0
        && resp.body == UserBody(s.GetUser(ParseInt(id).value).value.(lastActivity := now)))
  {
    if ParseInt(id).Some? {
      UpdateLastActivitySpec(s, ParseInt(id).value, now);
    }
  }

  /** GET /words: a non-empty category parameter decides the answer whatever the query is,
      and with a number it keeps exactly that category's words; a query alone keeps exactly
      the matching words; with neither, every word. The answer is always in catalog order. */
  lemma GetWordsDispatch(s: Store, category: Option<string>, query: Option<string>)
    ensures GetWords(s, category, query).status == 200 && GetWords(s, category, query).body.WordsBody?
    ensures IsSubsequence(GetWords(s, category, query).body.words, s.words)
    ensures category.Some? && category.value != "" ==> GetWords(s, category, query) == GetWords(s, category, None)
    ensures category.Some? && category.value != "" && ParseInt(category.value).Some? ==>
      forall w :: w in GetWords(s, category, query).body.words <==>
        w in s.words && w.categoryId == ParseInt(category.value).value
    ensures (category.None? || category.value == "") && query.Some? && query.value != "" ==>
      forall w :: w in GetWords(s, category, query).body.words <==>
        w in s.words && MatchesQuery(w, Lower(query.value))
    ensures (category.None? || category.value == "") && (query.None? || query.value == "") ==>
      GetWords(s, category, query).body.words == s.words
  {
    if category.Some? && category.value != "" {
      match ParseInt(category.value)
      case None =>
      case Some(c) => GetWordsByCategorySpec(s, c);
    } else if query.Some? && query.value != "" {
      SearchWordsSpec(s, query.value);
    } else {
      SubsequenceRefl(s.words);
    }
  }

  /** The lookups answer 404 exactly when the id is NaN or names nothing, and 200 with the
      stored entity otherwise. */
  lemma LookupsNotFound(s: Store, id: string, userId: string, wordId: string)
    ensures GetUserRoute(s, id).status == 404 <==> ParseInt(id).None? || s.GetUser(ParseInt(id).value).None?
    ensures GetUserRoute(s, id).status == 200 ==> GetUserRoute(s, id).body.user in s.users
    ensures GetWordRoute(s, id).status == 404 <==> ParseInt(id).None? || s.GetWordById(ParseInt(id).value).None?
    ensures GetWordRoute(s, id).status == 200 ==> GetWordRoute(s, id).body.word in s.words
    ensures GetProgressRoute(s, userId, wordId).status == 404 <==>
      ParseInt(userId).None? || ParseInt(wordId).None? ||
      s.GetUserProgress(ParseInt(userId).value, ParseInt(wordId).value).None?
    ensures GetProgressRoute(s, userId, wordId).status == 200 ==>
      GetProgressRoute(s, userId, wordId).body.progress in s.progress
    ensures GetDailyWordRoute(s).status == 404 <==> |s.words| == 0 || s.GetWordById(DailyWordId).None?
  {
    GetDailyWordSpec(s);
  }

  /** The list routes always answer 200. GET /categories lists every category in creation
      order; the related words of a NaN id are none, and of a number exactly the catalog
      words some relation from it points to; the statistics of a NaN id report only the
      catalog size; the words with progress are the catalog, in order, each with the user's
      record for it (none for a NaN id). */
  lemma ReadRoutesSpec(s: Store, id: string)
    requires s.Valid()
    ensures GetCategories(s) == Response(200, CategoriesBody(s.categories))
    ensures var r := GetRelatedRoute(s, id);
      && r.status == 200 && r.body.WordsBody?
      && (ParseInt(id).None? ==> r.body.words == [])
      && (ParseInt(id).Some? ==> forall x :: x in r.body.words <==>
        x in s.words && exists rel :: rel in s.relations && rel.wordId == ParseInt(id).value && rel.relatedWordId == x.id)
    ensures var r := GetStatsRoute(s, id);
      && r.status == 200 && r.body.StatsBody? && r.body.stats.totalWords == |s.words|
      && (ParseInt(id).None? ==> r.body.stats.learnedWords == 0 && r.body.stats.accuracy == 0 && r.body.stats.streak == 0)
      && (ParseInt(id).Some? ==> r.body.stats == s.GetUserStats(ParseInt(id).value))
    ensures var r := GetWordsWithProgressRoute(s, id);
      && r.status == 200 && r.body.WordsWithProgressBody?
      && |r.body.items| == |s.words|
      && forall j :: 0 <= j < |s.words| ==>
        && r.body.items[j].word == s.words[j]
        && r.body.items[j].progress == (if ParseInt(id).None? then None else s.GetUserProgress(ParseInt(id).value, s.words[j].id))
  {
    if ParseInt(id).Some? {
      GetRelatedWordsIff(s, ParseInt(id).value);
    }
  }

  /** The record a post turns the pair's record e into: the stored counts plus the posted
      ones, a missing count adding nothing. */
  function Posted(e: Progress, p: InsertProgress, now: Time): Progress {
    Recounted(e, e.correctCount + p.correctCount.GetOr(0), e.incorrectCount + p.incorrectCount.GetOr(0), now)
  }

  /** POST /progress on a pair that has a record e: 200 with the posted record, which keeps
      the id and the pair of e and takes the summed counts, the time and the mastery rule's
      verdict on the new counts; the store is the update of e by its id, and no other pair's
      record changes. */
  lemma PostProgressExisting(s: Store, p: InsertProgress, now: Time, e: Progress)
    requires s.Valid() && s.GetUserProgress(p.userId, p.wordId) == Some(e)
    ensures && Posted(e, p, now).id == e.id
      && Posted(e, p, now).userId == p.userId && Posted(e, p, now).wordId == p.wordId
      && Posted(e, p, now).correctCount == e.correctCount + p.correctCount.GetOr(0)
      && Posted(e, p, now).incorrectCount == e.incorrectCount + p.incorrectCount.GetOr(0)
      && Posted(e, p, now).lastPracticed == Some(now)
      && Posted(e, p, now).isMastered == MasteryRule(Posted(e, p, now).correctCount, Posted(e, p, now).incorrectCount)
    ensures PostProgress(s, Accepted(p), now) ==
      (s.UpdateProgress(e.id, Posted(e, p, now).correctCount, Posted(e, p, now).incorrectCount, now).0,
       Response(200, ProgressBody(Posted(e, p, now))))
    ensures PostProgress(s, Accepted(p), now).0.Valid()
    ensures PostProgress(s, Accepted(p), now).0.GetUserProgress(p.userId, p.wordId) == Some(Posted(e, p, now))
    ensures OtherPairsKept(s, PostProgress(s, Accepted(p), now).0, p.userId, p.wordId)
  {
    var c := Posted(e, p, now).correctCount;
    var i := Posted(e, p, now).incorrectCount;
    Storage.UpdateProgressOfPair(s, p.userId, p.wordId, e, c, i, now);
    assert Recounted(e, c, i, now) == Posted(e, p, now);
    PostProgressUpdates(s, p, now, e, c, i);
  }

  /** On a pair with record e, POST /progress is the update of e with the summed counts. */
  lemma PostProgressUpdates(s: Store, p: InsertProgress, now: Time, e: Progress, c: int, i: int)
    requires s.GetUserProgress(p.userId, p.wordId) == Some(e)
    requires c == e.correctCount + p.correctCount.GetOr(0) && i == e.incorrectCount + p.incorrectCount.GetOr(0)
    requires s.UpdateProgress(e.id, c, i, now).1.Ok?
    ensures PostProgress(s, Accepted(p), now) == (s.UpdateProgress(e.id, c, i, now).0, Response(200, ProgressBody(s.UpdateProgress(e.id, c, i, now).1.value)))
  {
  }

  /** POST /progress on a pair without a record: 201, and the payload is the record, with
      no check that the user or the word exists; no other pair's record changes. */
  lemma PostProgressFirst(s: Store, p: InsertProgress, now: Time)
    requires s.Valid() && s.GetUserProgress(p.userId, p.wordId).None?
    ensures var (t, resp) := PostProgress(s, Accepted(p), now);
      var recorded := Progress(s.currentProgressId, p.userId, p.wordId,
        p.correctCount.GetOr(0), p.incorrectCount.GetOr(0), p.lastPracticed, p.isMastered.GetOr(false));
      && t.Valid()
      && resp == Response(201, ProgressBody(recorded))
      && t.GetUserProgress(p.userId, p.wordId) == Some(recorded)
      && OtherPairsKept(s, t, p.userId, p.wordId)
  {
    RecordProgressSpec(s, p);
  }

  /** Under the store invariant POST /progress never answers 500: the record found for the
      pair is always found again by its id. */
  lemma PostProgressNoServerError(s: Store, body: Parsed<InsertProgress>, now: Time)
    requires s.Valid()
    ensures PostProgress(s, body, now).0.Valid()
    ensures PostProgress(s, body, now).1.status != 500
  {
    if body.Accepted? {
      if s.GetUserProgress(body.value.userId, body.value.wordId).Some? {
        PostProgressExisting(s, body.value, now, s.GetUserProgress(body.value.userId, body.value.wordId).value);
      } else {
        PostProgressFirst(s, body.value, now);
      }
    }
  }

  // ---- a run of progress posts for one pair

  /** The store after posting each payload in turn (all at the same time). */
  function PostAll(s: Store, ps: seq<InsertProgress>, now: Time): Store {
    if |ps| == 0 then s else PostProgress(PostAll(s, ps[..|ps| - 1], now), Accepted(ps[|ps| - 1]), now).0
  }

  function PostedCorrect(ps: seq<InsertProgress>): int {
    if |ps| == 0 then 0 else PostedCorrect(ps[..|ps| - 1]) + ps[|ps| - 1].correctCount.GetOr(0)
  }

  function PostedIncorrect(ps: seq<InsertProgress>): int {
    if |ps| == 0 then 0 else PostedIncorrect(ps[..|ps| - 1]) + ps[|ps| - 1].incorrectCount.GetOr(0)
  }

  /** After a run of posts for one pair that had no record, the pair's record holds the
      sums of the posted counts. From the second post on, its mastery flag is the mastery
      rule's verdict; after the first alone it is the client's flag. */
  lemma {:induction false} PostAllCounts(s: Store, u: int, w: int, ps: seq<InsertProgress>, now: Time)
    requires s.Valid() && s.GetUserProgress(u, w).None? && |ps| > 0
    requires forall i :: 0 <= i < |ps| ==> ps[i].userId == u && ps[i].wordId == w
    ensures var t := PostAll(s, ps, now);
      && t.Valid()
      && t.GetUserProgress(u, w).Some?
      && t.GetUserProgress(u, w).value.correctCount == PostedCorrect(ps)
      && t.GetUserProgress(u, w).value.incorrectCount == PostedIncorrect(ps)
      && (|ps| == 1 ==> t.GetUserProgress(u, w).value.isMastered == ps[0].isMastered.GetOr(false))
      && (|ps| >= 2 ==> t.GetUserProgress(u, w).value.isMastered == MasteryRule(PostedCorrect(ps), PostedIncorrect(ps)))
  {
    var front := ps[..|ps| - 1];
    var last := ps[|ps| - 1];
    if |ps| == 1 {
      assert PostAll(s, front, now) == s;
      assert PostedCorrect(front) == 0 && PostedIncorrect(front) == 0;
      PostProgressFirst(s, last, now);
    } else {
      forall i | 0 <= i < |front|
        ensures front[i].userId == u && front[i].wordId == w
      {
        assert front[i] == ps[i];
      }
      PostAllCounts(s, u, w, front, now);
      PostProgressExisting(PostAll(s, front, now), last, now, PostAll(s, front, now).GetUserProgress(u, w).value);
    }
  }

  /** A post for another pair leaves this pair's record alone. */
  lemma PostProgressOtherPair(s: Store, p: InsertProgress, now: Time, u: int, w: int)
    requires s.Valid() && (p.userId, p.wordId) != (u, w)
    ensures PostProgress(s, Accepted(p), now).0.GetUserProgress(u, w) == s.GetUserProgress(u, w)
  {
    if s.GetUserProgress(p.userId, p.wordId).Some? {
      PostProgressExisting(s, p, now, s.GetUserProgress(p.userId, p.wordId).value);
    } else {
      PostProgressFirst(s, p, now);
    }
  }

  /** A practice answer for the pair, as both clients post it: both counts present, one
      correct or one incorrect attempt. */
  predicate IsAnswer(p: InsertProgress, u: int, w: int) {
    && p.userId == u && p.wordId == w
    && p.correctCount.Some? && p.incorrectCount.Some?
    && ((p.correctCount.value == 1 && p.incorrectCount.value == 0)
      || (p.correctCount.value == 0 && p.incorrectCount.value == 1))
  }

  function CorrectAnswers(ps: seq<InsertProgress>): nat {
    if |ps| == 0 then 0
    else CorrectAnswers(ps[..|ps| - 1]) + (if ps[|ps| - 1].correctCount.GetOr(0) == 1 then 1 else 0)
  }

  lemma {:induction false} AnswerSums(ps: seq<InsertProgress>, u: int, w: int)
    requires forall i :: 0 <= i < |ps| ==> IsAnswer(ps[i], u, w)
    ensures PostedCorrect(ps) == CorrectAnswers(ps)
    ensures PostedIncorrect(ps) == |ps| - CorrectAnswers(ps)
  {
    if |ps| > 0 {
      var front := ps[..|ps| - 1];
      forall i | 0 <= i < |front|
        ensures IsAnswer(front[i], u, w)
      {
        assert front[i] == ps[i];
      }
      AnswerSums(front, u, w);
    }
  }

  /** After any run of answers for one pair that had no record, its counts are the numbers
      of correct and incorrect answers; so after four correct answers and one incorrect, in
      any order, the word is mastered. */
  lemma AnswerCounts(s: Store, u: int, w: int, ps: seq<InsertProgress>, now: Time)
    requires s.Valid() && s.GetUserProgress(u, w).None? && |ps| > 0
    requires forall i :: 0 <= i < |ps| ==> IsAnswer(ps[i], u, w)
    ensures var r := PostAll(s, ps, now).GetUserProgress(u, w);
      && r.Some?
      && r.value.correctCount == CorrectAnswers(ps)
      && r.value.incorrectCount == |ps| - CorrectAnswers(ps)
      && (|ps| == 5 && CorrectAnswers(ps) == 4 ==> r.value.isMastered)
  {
    AnswerSums(ps, u, w);
    PostAllCounts(s, u, w, ps, now);
  }

  // ---- the handlers on the store object

  method HandlePostUsers(storage: MemStorage, body: Parsed<InsertUser>, now: Time) returns (resp: Response)
    requires storage.Valid()
    modifies storage
    ensures storage.Valid() && (storage.Model(), resp) == PostUsers(old(storage.Model()), body, now)
  {
    PostUsersSpec(storage.Model(), if body.Accepted? then body.value else InsertUser("", ""), now);
    if body.Rejected? {
      return Response(400, Message(body.message));
    }
    var existing := storage.Model().GetUserByUsername(body.value.username);
    if existing.Some? {
      return Response(400, Message("Username already exists"));
    }
    var user := storage.CreateUser(body.value, now);
    resp := Response(201, UserBody(user));
  }

  method HandlePatchStreak(storage: MemStorage, id: string, streak: StreakField) returns (resp: Response)
    requires storage.Valid()
    modifies storage
    ensures storage.Valid() && (storage.Model(), resp) == PatchStreak(old(storage.Model()), id, streak)
  {
    if streak.OtherValue? {
      return Response(400, Message("Invalid streak value"));
    }
    var userId := ParseInt(id);
    if userId.None? {
      return Response(500, Message("Failed to update user streak"));
    }
    var r := storage.UpdateUserStreak(userId.value, streak.value);
    if r.Err? {
      return Response(500, Message("Failed to update user streak"));
    }
    resp := Response(200, UserBody(r.value));
  }

  method HandlePatchActivity(storage: MemStorage, id: string, now: Time) returns (resp: Response)
    requires storage.Valid()
    modifies storage
    ensures storage.Valid() && (storage.Model(), resp) == PatchActivity(old(storage.Model()), id, now)
  {
    var userId := ParseInt(id);
    if userId.None? {
      return Response(500, Message("Failed to update user activity"));
    }
    var r := storage.UpdateLastActivity(userId.value, now);
    if r.Err? {
      return Response(500, Message("Failed to update user activity"));
    }
    resp := Response(200, UserBody(r.value));
  }

  method HandlePostCategories(storage: MemStorage, body: Parsed<InsertCategory>) returns (resp: Response)
    requires storage.Valid()
    modifies storage
    ensures storage.Valid() && (storage.Model(), resp) == PostCategories(old(storage.Model()), body)
  {
    if body.Rejected? {
      return Response(400, Message(body.message));
    }
    var category := storage.CreateCategory(body.value);
    resp := Response(201, CategoryBody(category));
  }

  method HandlePostWords(storage: MemStorage, body: Parsed<InsertWord>, now: Time) returns (resp: Response)
    requires storage.Valid()
    modifies storage
    ensures storage.Valid() && (storage.Model(), resp) == PostWords(old(storage.Model()), body, now)
  {
    if body.Rejected? {
      return Response(400, Message(body.message));
    }
    var word := storage.CreateWord(body.value, now);
    resp := Response(201, WordBody(word));
  }

  method HandlePostRelated(storage: MemStorage, body: Parsed<InsertRelatedWord>) returns (resp: Response)
    requires storage.Valid()
    modifies storage
    ensures storage.Valid() && (storage.Model(), resp) == PostRelated(old(storage.Model()), body)
  {
    if body.Rejected? {
      return Response(400, Message(body.message));
    }
    storage.AddRelatedWord(body.value.wordId, body.value.relatedWordId);
    resp := Response(201, Message("Related word added"));
  }

  /** The read-modify-write of POST /progress: look the pair up, then either update the
      existing record with the summed counts or record the payload. */
  method HandlePostProgress(storage: MemStorage, body: Parsed<InsertProgress>, now: Time) returns (resp: Response)
    requires storage.Valid()
    modifies storage
    ensures storage.Valid() && (storage.Model(), resp) == PostProgress(old(storage.Model()), body, now)
  {
    if body.Rejected? {
      return Response(400, Message(body.message));
    }
    var p := body.value;
    var existing := storage.Model().GetUserProgress(p.userId, p.wordId);
    if existing.Some? {
      var r := storage.UpdateProgress(existing.value.id,
        existing.value.correctCount + p.correctCount.GetOr(0),
        existing.value.incorrectCount + p.incorrectCount.GetOr(0), now);
      if r.Err? {
        return Response(500, Message("Failed to record progress"));
      }
      return Response(200, ProgressBody(r.value));
    }
    var recorded := storage.RecordProgress(p);
    resp := Response(201, ProgressBody(recorded));
  }

  /** GET /words-with-progress/:userId, through the store's loop; every word of the catalog
      comes once, in catalog order, with the user's record for it. */
  method HandleWordsWithProgress(storage: MemStorage, userId: string) returns (resp: Response)
    ensures resp == GetWordsWithProgressRoute(storage.Model(), userId)
    ensures resp.status == 200 && resp.body.WordsWithProgressBody?
    ensures |resp.body.items| == |storage.wordsMap|
    ensures forall j :: 0 <= j < |storage.wordsMap| ==> resp.body.items[j].word == storage.wordsMap[j]
  {
    var u := ParseInt(userId);
    if u.None? {
      return Response(200, WordsWithProgressBody(WithoutProgress(storage.wordsMap)));
    }
    var items := storage.GetWordsWithProgress(u.value);
    resp := Response(200, WordsWithProgressBody(items));
  }
}
