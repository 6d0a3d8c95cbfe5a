/**
 * The in-memory store of users, categories, words, per-(user, word) progress records and
 * word-to-word relations, each map with its own id counter.
 *
 * `Store` is the store's state as a value; each of its member functions is one operation
 * of the store, returning the new state where the operation changes it. `MemStorage` is
 * the object the server mutates: five map fields and five counters, whose methods change
 * exactly what the corresponding `Store` function says. Read-only operations are taken on
 * `Model()`, the object's current state.
 */
module Storage {
  import opened Wrappers
  import opened Schema
  import opened Text
  import opened Seqs
  import OM = OrderedMap

  // Key functions of the five maps: users, categories and words are keyed by id, progress
  // by the (userId, wordId) pair and relations by the (wordId, relatedWordId) pair.
  function UserKey(u: User): int { u.id }
  function UserName(u: User): string { u.username }
  function CategoryKey(c: Category): int { c.id }
  function WordKey(w: Word): int { w.id }
  function ProgressKey(p: Progress): (int, int) { (p.userId, p.wordId) }
  function ProgressId(p: Progress): int { p.id }
  function RelationKey(r: RelatedWord): (int, int) { (r.wordId, r.relatedWordId) }
  function RelationId(r: RelatedWord): int { r.id }

  /** The id of the word shown as the word of the day. */
  const DailyWordId: int := 7

  /** Ids strictly increase along s and all lie in [1, next). */
  ghost predicate IdsAscending<V>(s: seq<V>, id: V -> int, next: int) {
    && (forall i, j :: 0 <= i < j < |s| ==> id(s[i]) < id(s[j]))
    && (forall i :: 0 <= i < |s| ==> 1 <= id(s[i]) < next)
  }

  /** Ids are pairwise distinct and all lie in [1, next). */
  ghost predicate IdsDistinctBelow<V>(s: seq<V>, id: V -> int, next: int) {
    && OM.KeysDistinct(s, id)
    && (forall i :: 0 <= i < |s| ==> 1 <= id(s[i]) < next)
  }

  /** `word.turkish.toLowerCase().includes(q) || word.ottoman.includes(q) ||
      (word.meaning && word.meaning.toLowerCase().includes(q))`, for an already lower-cased
      query q; the Ottoman text is not lower-cased, and an empty meaning never matches. */
  predicate MatchesQuery(w: Word, lowerQuery: string) {
    || Contains(Lower(w.turkish), lowerQuery)
    || Contains(w.ottoman, lowerQuery)
    || (w.meaning.Some? && w.meaning.value != "" && Contains(Lower(w.meaning.value), lowerQuery))
  }

  /** The related word ids of the relations whose wordId is w, in relation order. */
  function RelatedIds(relations: seq<RelatedWord>, w: int): seq<int> {
    if |relations| == 0 then []
    else
      var head := if relations[0].wordId == w then [relations[0].relatedWordId] else [];
      head + RelatedIds(relations[1..], w)
  }

  /** `ids.map(id => wordsMap.get(id)).filter(Boolean)`: the words the ids resolve to, in
      the order of the ids, ids without a word dropped. */
  function ExistingWords(words: seq<Word>, ids: seq<int>): seq<Word> {
    if |ids| == 0 then []
    else match OM.Get(words, WordKey, ids[0])
      case None => ExistingWords(words, ids[1..])
      case Some(w) => [w] + ExistingWords(words, ids[1..])
  }

  function SumCorrect(ps: seq<Progress>): int {
    if |ps| == 0 then 0 else ps[0].correctCount + SumCorrect(ps[1..])
  }

  function SumIncorrect(ps: seq<Progress>): int {
    if |ps| == 0 then 0 else ps[0].incorrectCount + SumIncorrect(ps[1..])
  }

  /** The number of answers over a run of records. */
  function Attempts(ps: seq<Progress>): int {
    SumCorrect(ps) + SumIncorrect(ps)
  }

  datatype Store = Store(
    users: seq<User>,
    categories: seq<Category>,
    words: seq<Word>,
    progress: seq<Progress>,
    relations: seq<RelatedWord>,
    currentUserId: int,
    currentCategoryId: int,
    currentWordId: int,
    currentProgressId: int,
    currentRelatedWordId: int)
  {
    /** What every reachable state satisfies: the counters are positive, the id of every
        user, category and word is below its counter and ids ascend in map order, and the
        progress and relation maps have distinct keys and distinct ids below their counters. */
    ghost predicate Valid() {
      && 1 <= currentUserId && 1 <= currentCategoryId && 1 <= currentWordId
      && 1 <= currentProgressId && 1 <= currentRelatedWordId
      && IdsAscending(users, UserKey, currentUserId)
      && IdsAscending(categories, CategoryKey, currentCategoryId)
      && IdsAscending(words, WordKey, currentWordId)
      && OM.KeysDistinct(progress, ProgressKey)
      && IdsDistinctBelow(progress, ProgressId, currentProgressId)
      && OM.KeysDistinct(relations, RelationKey)
      && IdsDistinctBelow(relations, RelationId, currentRelatedWordId)
    }

    // ---- users

    function GetUser(id: int): Option<User> {
      OM.Get(users, UserKey, id)
    }

    /** The first user, in insertion order, with that username. */
    function GetUserByUsername(username: string): Option<User> {
      OM.Get(users, UserName, username)
    }

    /** Takes the next user id; a new user has streak 0 and its last activity is now. */
    function CreateUser(insertUser: InsertUser, now: Time): (Store, User) {
      var user := User(currentUserId, insertUser.username, insertUser.password, 0, now);
      (this.(users := OM.Set(users, UserKey, user), currentUserId := currentUserId + 1), user)
    }

    function UpdateUserStreak(userId: int, streak: int): (Store, Result<User>) {
      match GetUser(userId)
      case None => (this, Err("User not found"))
      case Some(user) =>
        var updated := user.(dailyStreak := streak);
        (this.(users := OM.Set(users, UserKey, updated)), Ok(updated))
    }

    function UpdateLastActivity(userId: int, now: Time): (Store, Result<User>) {
      match GetUser(userId)
      case None => (this, Err("User not found"))
      case Some(user) =>
        var updated := user.(lastActivity := now);
        (this.(users := OM.Set(users, UserKey, updated)), Ok(updated))
    }

    // ---- categories

    function GetCategoryById(id: int): Option<Category> {
      OM.Get(categories, CategoryKey, id)
    }

    /** Takes the next category id; names are not checked for uniqueness. */
    function CreateCategory(insertCategory: InsertCategory): (Store, Category) {
      var category := Category(currentCategoryId, insertCategory.name, insertCategory.description, insertCategory.level);
      (this.(categories := OM.Set(categories, CategoryKey, category), currentCategoryId := currentCategoryId + 1), category)
    }

    // ---- words

    function GetWordById(id: int): Option<Word> {
      OM.Get(words, WordKey, id)
    }

    function GetWordsByCategory(categoryId: int): seq<Word> {
      Filter(words, (w: Word) => w.categoryId == categoryId)
    }

    function SearchWords(query: string): seq<Word> {
      var lowerQuery := Lower(query);
      Filter(words, (w: Word) => MatchesQuery(w, lowerQuery))
    }

    /** Takes the next word id and stamps the creation time; the category id is not checked. */
    function CreateWord(insertWord: InsertWord, now: Time): (Store, Word) {
      var word := Word(currentWordId, insertWord.ottoman, insertWord.turkish, insertWord.meaning,
        insertWord.exampleOttoman, insertWord.exampleTurkish, insertWord.categoryId,
        insertWord.difficulty, insertWord.etymology, insertWord.audioUrl, now);
      (this.(words := OM.Set(words, WordKey, word), currentWordId := currentWordId + 1), word)
    }

    function GetRelatedWords(wordId: int): seq<Word> {
      ExistingWords(words, RelatedIds(relations, wordId))
    }

    /** Takes the next relation id and stores the relation under its (wordId, relatedWordId)
        pair, replacing a relation already stored for that pair. */
    function AddRelatedWord(wordId: int, relatedWordId: int): Store {
      var relation := RelatedWord(currentRelatedWordId, wordId, relatedWordId);
      this.(relations := OM.Set(relations, RelationKey, relation), currentRelatedWordId := currentRelatedWordId + 1)
    }

    /** The fixed word of the day with its related words; absent when the catalog is empty
        or has no word with that id. */
    function GetDailyWord(): Option<WordWithRelated> {
      if |words| == 0 then None
      else match GetWordById(DailyWordId)
        case None => None
        case Some(w) => Some(WordWithRelated(w, GetRelatedWords(DailyWordId)))
    }

    // ---- progress

    function GetUserProgress(userId: int, wordId: int): Option<Progress> {
      OM.Get(progress, ProgressKey, (userId, wordId))
    }

    /** Stores the payload, with the next progress id, under its (userId, wordId) pair. A
        count left out of the payload is read as 0 and a left-out mastery flag as false;
        the store itself would keep them undefined, a case this model does not cover. */
    function RecordProgress(insertProgress: InsertProgress): (Store, Progress) {
      var p := Progress(currentProgressId, insertProgress.userId, insertProgress.wordId,
        insertProgress.correctCount.GetOr(0), insertProgress.incorrectCount.GetOr(0),
        insertProgress.lastPracticed, insertProgress.isMastered.GetOr(false));
      (this.(progress := OM.Set(progress, ProgressKey, p), currentProgressId := currentProgressId + 1), p)
    }

    /** Sets the counts of the record with that id and recomputes its mastery flag. */
    function UpdateProgress(id: int, correctCount: int, incorrectCount: int, now: Time): (Store, Result<Progress>) {
      match OM.Find(progress, ProgressId, id)
      case None => (this, Err("Progress not found"))
      case Some(k) =>
        var updated := Recounted(progress[k], correctCount, incorrectCount, now);
        (this.(progress := OM.Set(progress, ProgressKey, updated)), Ok(updated))
    }

    /** The user's progress records, in map order. */
    function ProgressOf(userId: int): seq<Progress> {
      Filter(progress, (p: Progress) => p.userId == userId)
    }

    function GetUserStats(userId: int): UserStats {
      var items := ProgressOf(userId);
      var totalCorrect := SumCorrect(items);
      var totalIncorrect := SumIncorrect(items);
      var accuracy := if totalCorrect + totalIncorrect > 0
        then RoundedPercent(totalCorrect, totalCorrect + totalIncorrect) else 0;
      var streak := match GetUser(userId) case None => 0 case Some(u) => u.dailyStreak;
      UserStats(|Filter(items, (p: Progress) => p.isMastered)|, |words|, accuracy, streak, WeekActivity)
    }

    /** Every catalog word, in catalog order, with the user's record for it. */
    function GetWordsWithProgress(userId: int): seq<WordWithProgress> {
      seq(|words|, j requires 0 <= j < |words| => WordWithProgress(words[j], GetUserProgress(userId, words[j].id)))
    }
  }

  /** A progress record with new counts, stamped with the time, its mastery flag recomputed
      from the new counts; its id and pair stay. */
  function Recounted(p: Progress, correctCount: int, incorrectCount: int, now: Time): Progress {
    p.(correctCount := correctCount, incorrectCount := incorrectCount,
      lastPracticed := Some(now), isMastered := MasteryRule(correctCount, incorrectCount))
  }

  /** Every pair other than (u, w) has the same progress record in t as in s. */
  ghost predicate OtherPairsKept(s: Store, t: Store, u: int, w: int) {
    forall x, y :: (x, y) != (u, w) ==> t.GetUserProgress(x, y) == s.GetUserProgress(x, y)
  }

  /** The store as constructed: every map empty and every counter at 1. */
  const EmptyStore: Store := Store([], [], [], [], [], 1, 1, 1, 1, 1)

  lemma EmptyStoreValid()
    ensures EmptyStore.Valid()
  {
  }

  // ---- id discipline

  /** Setting a value whose id is the counter appends it, and ids still ascend below the
      incremented counter. */
  lemma AppendFresh<V>(s: seq<V>, id: V -> int, next: int, v: V)
    requires IdsAscending(s, id, next) && id(v) == next && next >= 1
    ensures OM.Set(s, id, v) == s + [v]
    ensures IdsAscending(s + [v], id, next + 1)
  {
    OM.SetCases(s, id, v);
  }

  /** Setting a value under a key already present replaces that entry in place. */
  lemma ReplaceAt<K, V>(s: seq<V>, key: V -> K, i: nat, v: V)
    requires OM.KeysDistinct(s, key) && i < |s| && key(v) == key(s[i])
    ensures OM.Set(s, key, v) == s[i := v]
  {
    OM.GetAt(s, key, i);
  }

  /** Storing a value with a fresh id under any key keeps keys distinct and ids distinct
      below the incremented counter. */
  lemma SetFreshId<K, V>(s: seq<V>, key: V -> K, id: V -> int, next: int, v: V)
    requires OM.KeysDistinct(s, key) && IdsDistinctBelow(s, id, next) && id(v) == next && next >= 1
    ensures OM.KeysDistinct(OM.Set(s, key, v), key)
    ensures IdsDistinctBelow(OM.Set(s, key, v), id, next + 1)
  {
    OM.SetKeysDistinct(s, key, v);
    OM.SetCases(s, key, v);
  }

  /** Every create operation returns the counter as the new id, increments that counter by
      one and appends the new entity after all existing ones, whose ids are all smaller;
      nothing else changes. */
  lemma CreateUserFresh(s: Store, insertUser: InsertUser, now: Time)
    requires s.Valid()
    ensures var (t, user) := s.CreateUser(insertUser, now);
      && t.Valid()
      && user == User(s.currentUserId, insertUser.username, insertUser.password, 0, now)
      && t == s.(users := s.users + [user], currentUserId := s.currentUserId + 1)
      && (forall u :: u in s.users ==> u.id < user.id)
      && t.GetUser(user.id) == Some(user)
  {
    var (t, user) := s.CreateUser(insertUser, now);
    AppendFresh(s.users, UserKey, s.currentUserId, user);
    assert t.users == s.users + [user];
    OM.GetSet(s.users, UserKey, user, user.id);
  }

  lemma CreateCategoryFresh(s: Store, insertCategory: InsertCategory)
    requires s.Valid()
    ensures var (t, c) := s.CreateCategory(insertCategory);
      && t.Valid()
      && c == Category(s.currentCategoryId, insertCategory.name, insertCategory.description, insertCategory.level)
      && t == s.(categories := s.categories + [c], currentCategoryId := s.currentCategoryId + 1)
      && (forall x :: x in s.categories ==> x.id < c.id)
  {
    var (t, c) := s.CreateCategory(insertCategory);
    AppendFresh(s.categories, CategoryKey, s.currentCategoryId, c);
  }

  lemma CreateWordFresh(s: Store, insertWord: InsertWord, now: Time)
    requires s.Valid()
    ensures var (t, w) := s.CreateWord(insertWord, now);
      && t.Valid()
      && w.id == s.currentWordId && w.createdAt == now
      && w.ottoman == insertWord.ottoman && w.turkish == insertWord.turkish
      && w.meaning == insertWord.meaning && w.categoryId == insertWord.categoryId
      && w.difficulty == insertWord.difficulty
      && t == s.(words := s.words + [w], currentWordId := s.currentWordId + 1)
      && (forall x :: x in s.words ==> x.id < w.id)
      && t.GetWordById(w.id) == Some(w)
  {
    var (t, w) := s.CreateWord(insertWord, now);
    AppendFresh(s.words, WordKey, s.currentWordId, w);
    assert t.words == s.words + [w];
    OM.GetSet(s.words, WordKey, w, w.id);
  }

  /** Two categories may share a name: creating one under a name already in use succeeds. */
  lemma CreateCategoryAllowsDuplicateNames(s: Store, insertCategory: InsertCategory)
    requires s.Valid()
    requires exists c :: c in s.categories && c.name == insertCategory.name
    ensures var (t, c) := s.CreateCategory(insertCategory);
      exists i, j :: 0 <= i < j < |t.categories| && t.categories[i].name == t.categories[j].name
  {
    CreateCategoryFresh(s, insertCategory);
    var (t, c) := s.CreateCategory(insertCategory);
    var old_ :| old_ in s.categories && old_.name == insertCategory.name;
    var i :| 0 <= i < |s.categories| && s.categories[i] == old_;
    assert t.categories[i].name == t.categories[|s.categories|].name;
  }

  /** A word is stored whatever its category id: it may name no category at all. */
  lemma CreateWordWithoutCategory(s: Store, insertWord: InsertWord, now: Time)
    requires s.Valid() && s.GetCategoryById(insertWord.categoryId).None?
    ensures var (t, w) := s.CreateWord(insertWord, now);
      t.GetWordById(w.id) == Some(w) && t.GetCategoryById(w.categoryId).None?
  {
    CreateWordFresh(s, insertWord, now);
  }

  // ---- user updates

  /** A missing user is an error and changes nothing; otherwise only that user's streak
      changes, and the user keeps its place. */
  lemma UpdateUserStreakSpec(s: Store, userId: int, streak: int)
    requires s.Valid()
    ensures var (t, r) := s.UpdateUserStreak(userId, streak);
      && t.Valid()
      && (s.GetUser(userId).None? ==> t == s && r == Err("User not found"))
      && (s.GetUser(userId).Some? ==>
        && r == Ok(s.GetUser(userId).value.(dailyStreak := streak))
        && t == s.(users := t.users)
        && |t.users| == |s.users|
        && (forall i :: 0 <= i < |s.users| ==>
          t.users[i] == if s.users[i].id == userId then s.users[i].(dailyStreak := streak) else s.users[i]))
  {
    if s.GetUser(userId).Some? {
      var i := OM.Find(s.users, UserKey, userId).value;
      UserReplace(s, i, s.users[i].(dailyStreak := streak));
    }
  }

  lemma UpdateLastActivitySpec(s: Store, userId: int, now: Time)
    requires s.Valid()
    ensures var (t, r) := s.UpdateLastActivity(userId, now);
      && t.Valid()
      && (s.GetUser(userId).None? ==> t == s && r == Err("User not found"))
      && (s.GetUser(userId).Some? ==>
        && r == Ok(s.GetUser(userId).value.(lastActivity := now))
        && t == s.(users := t.users)
        && |t.users| == |s.users|
        && (forall i :: 0 <= i < |s.users| ==>
          t.users[i] == if s.users[i].id == userId then s.users[i].(lastActivity := now) else s.users[i]))
  {
    if s.GetUser(userId).Some? {
      var i := OM.Find(s.users, UserKey, userId).value;
      UserReplace(s, i, s.users[i].(lastActivity := now));
    }
  }

  lemma UserReplace(s: Store, i: nat, v: User)
    requires s.Valid() && i < |s.users| && v.id == s.users[i].id
    ensures OM.Set(s.users, UserKey, v) == s.users[i := v]
    ensures s.(users := s.users[i := v]).Valid()
    ensures forall j :: 0 <= j < |s.users| && j != i ==> s.users[j].id != v.id
  {
    ReplaceAt(s.users, UserKey, i, v);
  }

  // ---- word queries

  /** The search keeps exactly the catalog words that match the lower-cased query, in
      catalog order. */
  lemma SearchWordsSpec(s: Store, query: string)
    ensures var r := s.SearchWords(query);
      && (forall w :: w in r <==> w in s.words && MatchesQuery(w, Lower(query)))
      && IsSubsequence(r, s.words)
  {
    var lowerQuery := Lower(query);
    FilterIsSubsequence(s.words, (w: Word) => MatchesQuery(w, lowerQuery));
  }

  /** The empty query returns the whole catalog. */
  lemma SearchEmptyQuery(s: Store)
    ensures s.SearchWords("") == s.words
  {
    forall w: Word | w in s.words
      ensures MatchesQuery(w, Lower(""))
    {
      assert Lower("") == "";
    }
    FilterAll(s.words, (w: Word) => MatchesQuery(w, Lower("")));
  }

  /** The search ignores letter case in the Turkish text: a catalog word whose Turkish
      text contains the query is found. */
  lemma SearchFindsTurkish(s: Store, query: string, w: Word)
    requires w in s.words && Contains(w.turkish, query)
    ensures w in s.SearchWords(query)
  {
    LowerContains(w.turkish, query);
    SearchWordsSpec(s, query);
  }

  lemma GetWordsByCategorySpec(s: Store, categoryId: int)
    ensures var r := s.GetWordsByCategory(categoryId);
      && (forall w :: w in r <==> w in s.words && w.categoryId == categoryId)
      && IsSubsequence(r, s.words)
  {
    FilterIsSubsequence(s.words, (w: Word) => w.categoryId == categoryId);
  }

  // ---- relations

  lemma {:induction false} RelatedIdsIff(relations: seq<RelatedWord>, w: int, id: int)
    ensures id in RelatedIds(relations, w) <==> exists r :: r in relations && r.wordId == w && r.relatedWordId == id
  {
    if |relations| > 0 {
      RelatedIdsIff(relations[1..], w, id);
      assert forall r :: r in relations <==> r == relations[0] || r in relations[1..];
    }
  }

  lemma {:induction false} ExistingWordsIff(words: seq<Word>, ids: seq<int>, x: Word)
    requires OM.KeysDistinct(words, WordKey)
    ensures x in ExistingWords(words, ids) <==> x in words && x.id in ids
  {
    if |ids| > 0 {
      ExistingWordsIff(words, ids[1..], x);
      if x in words {
        var i :| 0 <= i < |words| && words[i] == x;
        OM.GetAt(words, WordKey, i);
      }
    }
  }

  /** The related words of w are exactly the catalog words that some relation from w points
      to; relations pointing at ids without a word contribute nothing. */
  lemma GetRelatedWordsIff(s: Store, w: int)
    requires s.Valid()
    ensures forall x :: x in s.GetRelatedWords(w) <==>
      x in s.words && exists r :: r in s.relations && r.wordId == w && r.relatedWordId == x.id
  {
    forall x
      ensures x in s.GetRelatedWords(w) <==>
        x in s.words && exists r :: r in s.relations && r.wordId == w && r.relatedWordId == x.id
    {
      ExistingWordsIff(s.words, RelatedIds(s.relations, w), x);
      RelatedIdsIff(s.relations, w, x.id);
    }
  }

  lemma {:induction false} RelatedIdsReplace(relations: seq<RelatedWord>, i: nat, v: RelatedWord, w: int)
    requires i < |relations| && RelationKey(v) == RelationKey(relations[i])
    ensures RelatedIds(relations[i := v], w) == RelatedIds(relations, w)
  {
    if i > 0 {
      RelatedIdsReplace(relations[1..], i - 1, v, w);
      assert relations[i := v][1..] == relations[1..][i - 1 := v];
    } else {
      assert relations[i := v][1..] == relations[1..];
    }
  }

  /** Adding a relation takes the next relation id. A pair added for the first time is
      appended; a pair already related is stored once, in its old place, with the new id,
      so the related words of every word are as before. */
  lemma AddRelatedWordSpec(s: Store, w: int, related: int)
    requires s.Valid()
    ensures var t := s.AddRelatedWord(w, related);
      && t.Valid()
      && t == s.(relations := t.relations, currentRelatedWordId := s.currentRelatedWordId + 1)
      && ((forall r :: r in s.relations ==> RelationKey(r) != (w, related)) ==>
        t.relations == s.relations + [RelatedWord(s.currentRelatedWordId, w, related)])
      && ((exists r :: r in s.relations && RelationKey(r) == (w, related)) ==>
        |t.relations| == |s.relations| && forall x :: t.GetRelatedWords(x) == s.GetRelatedWords(x))
  {
    var v := RelatedWord(s.currentRelatedWordId, w, related);
    SetFreshId(s.relations, RelationKey, RelationId, s.currentRelatedWordId, v);
    OM.SetCases(s.relations, RelationKey, v);
    match OM.Find(s.relations, RelationKey, (w, related))
    case None =>
    case Some(i) =>
      forall x
        ensures s.AddRelatedWord(w, related).GetRelatedWords(x) == s.GetRelatedWords(x)
      {
        RelatedIdsReplace(s.relations, i, v, x);
      }
  }

  /** Adding the same pair twice leaves one relation for it, yet the counter advances twice. */
  lemma AddRelatedWordTwice(s: Store, w: int, related: int)
    requires s.Valid()
    ensures var once := s.AddRelatedWord(w, related);
      var twice := once.AddRelatedWord(w, related);
      && |twice.relations| == |once.relations|
      && twice.currentRelatedWordId == s.currentRelatedWordId + 2
      && (forall i, j :: 0 <= i < j < |twice.relations| ==>
        RelationKey(twice.relations[i]) != RelationKey(twice.relations[j]))
      && (exists r :: r in twice.relations && RelationKey(r) == (w, related))
  {
    var once := s.AddRelatedWord(w, related);
    AddRelatedWordSpec(s, w, related);
    AddRelatedWordSpec(once, w, related);
    OM.GetSet(s.relations, RelationKey, RelatedWord(s.currentRelatedWordId, w, related), (w, related));
    var twice := once.AddRelatedWord(w, related);
    OM.GetSet(once.relations, RelationKey, RelatedWord(once.currentRelatedWordId, w, related), (w, related));
    assert once.relations == OM.Set(s.relations, RelationKey, RelatedWord(s.currentRelatedWordId, w, related));
    assert twice.relations == OM.Set(once.relations, RelationKey, RelatedWord(once.currentRelatedWordId, w, related));
  }

  /** The word of the day is word 7 with its related words, when the catalog is not empty
      and holds word 7; it is then a catalog word. */
  lemma GetDailyWordSpec(s: Store)
    ensures s.GetDailyWord().None? <==> |s.words| == 0 || s.GetWordById(DailyWordId).None?
    ensures s.GetDailyWord().Some? ==>
      && s.GetDailyWord().value.word in s.words
      && s.GetDailyWord().value.word.id == DailyWordId
      && s.GetDailyWord().value.related == s.GetRelatedWords(DailyWordId)
  {
  }

  // ---- progress

  /** Recording stores the payload with the next progress id under its (userId, wordId)
      pair, replacing a record already there and keeping every other pair's record. The
      mastery flag is the caller's, not recomputed. */
  lemma RecordProgressSpec(s: Store, ins: InsertProgress)
    requires s.Valid()
    ensures s.RecordProgress(ins).0.Valid()
    ensures s.RecordProgress(ins).1 == Progress(s.currentProgressId, ins.userId, ins.wordId, ins.correctCount.GetOr(0),
      ins.incorrectCount.GetOr(0), ins.lastPracticed, ins.isMastered.GetOr(false))
    ensures s.RecordProgress(ins).0 == s.(progress := s.RecordProgress(ins).0.progress, currentProgressId := s.currentProgressId + 1)
    ensures s.RecordProgress(ins).0.GetUserProgress(ins.userId, ins.wordId) == Some(s.RecordProgress(ins).1)
    ensures OtherPairsKept(s, s.RecordProgress(ins).0, ins.userId, ins.wordId)
    ensures |s.RecordProgress(ins).0.progress| == |s.progress| + (if s.GetUserProgress(ins.userId, ins.wordId).None? then 1 else 0)
  {
    var p := s.RecordProgress(ins).1;
    SetFreshId(s.progress, ProgressKey, ProgressId, s.currentProgressId, p);
    OM.SetCases(s.progress, ProgressKey, p);
    RecordProgressPairs(s, ins);
  }

  /** After recording, the payload's pair holds the new record and every other pair keeps
      its record. */
  lemma RecordProgressPairs(s: Store, ins: InsertProgress)
    ensures s.RecordProgress(ins).0.GetUserProgress(ins.userId, ins.wordId) == Some(s.RecordProgress(ins).1)
    ensures OtherPairsKept(s, s.RecordProgress(ins).0, ins.userId, ins.wordId)
  {
    var t := s.RecordProgress(ins).0;
    var p := s.RecordProgress(ins).1;
    forall u, w
      ensures t.GetUserProgress(u, w) == if (u, w) == (ins.userId, ins.wordId) then Some(p) else s.GetUserProgress(u, w)
    {
      OM.GetSet(s.progress, ProgressKey, p, (u, w));
    }
  }

  /** The first record of a pair keeps the client's mastery flag even where the mastery rule
      says otherwise. */
  lemma RecordProgressTrustsClientMastery(s: Store, userId: int, wordId: int)
    ensures var (t, p) := s.RecordProgress(InsertProgress(userId, wordId, Some(0), Some(0), None, Some(true)));
      p.isMastered && !MasteryRule(p.correctCount, p.incorrectCount)
  {
  }

  /** Updating the record e that a pair holds, by e's id: the new record is e with the
      counts, the time and the mastery rule's verdict, it is what the pair now holds, and no
      other pair's record changes. */
  lemma UpdateProgressOfPair(s: Store, u: int, w: int, e: Progress, c: int, i: int, now: Time)
    requires s.Valid() && s.GetUserProgress(u, w) == Some(e)
    ensures e.userId == u && e.wordId == w
    ensures s.UpdateProgress(e.id, c, i, now).1 == Ok(Recounted(e, c, i, now))
    ensures s.UpdateProgress(e.id, c, i, now).0.Valid()
    ensures s.UpdateProgress(e.id, c, i, now).0.GetUserProgress(u, w) == Some(Recounted(e, c, i, now))
    ensures OtherPairsKept(s, s.UpdateProgress(e.id, c, i, now).0, u, w)
  {
    var k := OM.Find(s.progress, ProgressKey, (u, w)).value;
    assert s.progress[k] == e;
    assert ProgressKey(e) == (u, w);
    UpdateProgressAt(s, k, c, i, now);
    assert Recounted(e, c, i, now) == Progress(e.id, u, w, c, i, Some(now), MasteryRule(c, i));
  }

  /** Updating the record at position k, named by its id: the record keeps its id, user
      and word, takes the given counts and the time, and is mastered exactly when the
      mastery rule holds of the new counts; it stays at position k and no other pair's
      record changes. */
  lemma UpdateProgressAt(s: Store, k: nat, correctCount: int, incorrectCount: int, now: Time)
    requires s.Valid() && k < |s.progress|
    ensures var p := s.progress[k];
      var (t, r) := s.UpdateProgress(p.id, correctCount, incorrectCount, now);
      var updated := Progress(p.id, p.userId, p.wordId, correctCount, incorrectCount, Some(now),
        MasteryRule(correctCount, incorrectCount));
      && t.Valid()
      && r == Ok(updated)
      && t == s.(progress := s.progress[k := updated])
      && t.GetUserProgress(p.userId, p.wordId) == Some(updated)
      && OtherPairsKept(s, t, p.userId, p.wordId)
  {
    var p := s.progress[k];
    OM.GetAt(s.progress, ProgressId, k);
    var updated := Progress(p.id, p.userId, p.wordId, correctCount, incorrectCount, Some(now),
      MasteryRule(correctCount, incorrectCount));
    ReplaceAt(s.progress, ProgressKey, k, updated);
    var t := s.(progress := s.progress[k := updated]);
    assert s.UpdateProgress(p.id, correctCount, incorrectCount, now) == (t, Ok(updated));
    assert OM.KeysDistinct(t.progress, ProgressKey) by {
      forall i, j | 0 <= i < j < |t.progress|
        ensures ProgressKey(t.progress[i]) != ProgressKey(t.progress[j])
      {
        assert ProgressKey(t.progress[i]) == ProgressKey(s.progress[i]);
        assert ProgressKey(t.progress[j]) == ProgressKey(s.progress[j]);
      }
    }
    assert IdsDistinctBelow(t.progress, ProgressId, t.currentProgressId) by {
      forall i, j | 0 <= i < j < |t.progress|
        ensures ProgressId(t.progress[i]) != ProgressId(t.progress[j])
      {
        assert ProgressId(t.progress[i]) == ProgressId(s.progress[i]);
        assert ProgressId(t.progress[j]) == ProgressId(s.progress[j]);
      }
    }
    forall u, w
      ensures t.GetUserProgress(u, w) == if (u, w) == (p.userId, p.wordId) then Some(updated) else s.GetUserProgress(u, w)
    {
      OM.GetSet(s.progress, ProgressKey, updated, (u, w));
    }
  }

  /** Updating fails with "Progress not found" when no record has that id, and otherwise
      is the update of the one record with that id. */
  lemma UpdateProgressSpec(s: Store, id: int, correctCount: int, incorrectCount: int, now: Time)
    requires s.Valid()
    ensures var (t, r) := s.UpdateProgress(id, correctCount, incorrectCount, now);
      && t.Valid()
      && ((forall p :: p in s.progress ==> p.id != id) ==> t == s && r == Err("Progress not found"))
      && (forall p :: p in s.progress && p.id == id ==>
        && r == Ok(Progress(id, p.userId, p.wordId, correctCount, incorrectCount, Some(now),
          MasteryRule(correctCount, incorrectCount)))
        && |t.progress| == |s.progress|
        && t.GetUserProgress(p.userId, p.wordId) == Some(r.value)
        && OtherPairsKept(s, t, p.userId, p.wordId))
  {
    match OM.Find(s.progress, ProgressId, id)
    case None =>
    case Some(k) =>
      UpdateProgressAt(s, k, correctCount, incorrectCount, now);
      forall q | q in s.progress && q.id == id
        ensures q == s.progress[k]
      {
        var j :| 0 <= j < |s.progress| && s.progress[j] == q;
        OM.GetAt(s.progress, ProgressId, j);
      }
  }

  // ---- statistics

  lemma {:induction false} SumsNonNegative(ps: seq<Progress>)
    requires forall p :: p in ps ==> p.correctCount >= 0 && p.incorrectCount >= 0
    ensures 0 <= SumCorrect(ps) && 0 <= SumIncorrect(ps)
  {
    if |ps| > 0 {
      SumsNonNegative(ps[1..]);
    }
  }

  /** The statistics: totalWords is the catalog size; learnedWords counts the user's mastered
      records and is at most the number of the user's records; accuracy is the rounded
      percentage of correct answers over all the user's records (half-way up), 0 when the
      user has no attempts, and between 0 and 100 when no count is negative; streak is the
      user's streak, 0 for a missing user; the week strip is the fixed one. */
  lemma GetUserStatsSpec(s: Store, userId: int)
    ensures s.GetUserStats(userId).totalWords == |s.words|
    ensures 0 <= s.GetUserStats(userId).learnedWords <= |s.ProgressOf(userId)|
    ensures forall p :: p in s.ProgressOf(userId) && p.isMastered ==> s.GetUserStats(userId).learnedWords > 0
    ensures Attempts(s.ProgressOf(userId)) <= 0 ==> s.GetUserStats(userId).accuracy == 0
    ensures Attempts(s.ProgressOf(userId)) > 0 ==>
      && 2 * Attempts(s.ProgressOf(userId)) * s.GetUserStats(userId).accuracy - Attempts(s.ProgressOf(userId))
        <= 200 * SumCorrect(s.ProgressOf(userId))
      && 200 * SumCorrect(s.ProgressOf(userId))
        < 2 * Attempts(s.ProgressOf(userId)) * s.GetUserStats(userId).accuracy + Attempts(s.ProgressOf(userId))
    ensures (forall p :: p in s.ProgressOf(userId) ==> p.correctCount >= 0 && p.incorrectCount >= 0) ==>
      0 <= s.GetUserStats(userId).accuracy <= 100
    ensures s.ProgressOf(userId) == [] ==> s.GetUserStats(userId).learnedWords == 0 && s.GetUserStats(userId).accuracy == 0
    ensures s.GetUserStats(userId).streak == (if s.GetUser(userId).Some? then s.GetUser(userId).value.dailyStreak else 0)
    ensures s.GetUserStats(userId).weekActivity == WeekActivity
  {
    var items := s.ProgressOf(userId);
    if forall p :: p in items ==> p.correctCount >= 0 && p.incorrectCount >= 0 {
      SumsNonNegative(items);
    }
    if Attempts(items) > 0 {
      assert s.GetUserStats(userId).accuracy == RoundedPercent(SumCorrect(items), Attempts(items));
    }
    var mastered := Filter(items, (p: Progress) => p.isMastered);
    if exists p :: p in items && p.isMastered {
      var p :| p in items && p.isMastered;
      assert p in mastered;
    }
  }

  /** learnedWords is the number of distinct words the user has a mastered record for. */
  lemma LearnedWordsCount(s: Store, userId: int)
    requires s.Valid()
    ensures s.GetUserStats(userId).learnedWords == |set p | p in s.progress && p.userId == userId && p.isMastered :: p.wordId|
  {
    var learned := Filter(s.ProgressOf(userId), (p: Progress) => p.isMastered);
    assert s.GetUserStats(userId).learnedWords == |learned|;
    FilterFilter(s.progress, (p: Progress) => p.userId == userId, (p: Progress) => p.isMastered, MasteredBy(userId));
    MasteredWordCount(s.progress, userId);
  }

  /** The records of user u that are mastered. */
  function MasteredBy(u: int): Progress -> bool {
    (p: Progress) => p.userId == u && p.isMastered
  }

  /** With one record per pair, the user's mastered records are as many as the words they
      are for. */
  lemma {:induction false} MasteredWordCount(ps: seq<Progress>, u: int)
    requires OM.KeysDistinct(ps, ProgressKey)
    ensures |Filter(ps, MasteredBy(u))| == |set p | p in ps && p.userId == u && p.isMastered :: p.wordId|
  {
    if |ps| == 0 {
      assert (set p | p in ps && p.userId == u && p.isMastered :: p.wordId) == {};
    } else {
      var t := ps[1..];
      assert OM.KeysDistinct(t, ProgressKey) by {
        forall i, j | 0 <= i < j < |t|
          ensures ProgressKey(t[i]) != ProgressKey(t[j])
        {
          assert t[i] == ps[i + 1] && t[j] == ps[j + 1];
        }
      }
      MasteredWordCount(t, u);
      MasteredWordStep(ps, u);
    }
  }

  lemma MasteredWordStep(ps: seq<Progress>, u: int)
    requires |ps| > 0 && OM.KeysDistinct(ps, ProgressKey)
    ensures (set p | p in ps && p.userId == u && p.isMastered :: p.wordId)
      == (set p | p in ps[1..] && p.userId == u && p.isMastered :: p.wordId)
        + (if MasteredBy(u)(ps[0]) then {ps[0].wordId} else {})
    ensures MasteredBy(u)(ps[0]) ==> ps[0].wordId !in (set p | p in ps[1..] && p.userId == u && p.isMastered :: p.wordId)
  {
    var t := ps[1..];
    assert forall x :: x in ps <==> x == ps[0] || x in t;
    if MasteredBy(u)(ps[0]) {
      forall x | x in t && x.userId == u
        ensures x.wordId != ps[0].wordId
      {
        var k :| 0 <= k < |t| && t[k] == x;
        assert t[k] == ps[k + 1];
      }
    }
  }

  // ---- the store object

  class MemStorage {
    var usersMap: seq<User>
    var categoriesMap: seq<Category>
    var wordsMap: seq<Word>
    var progressMap: seq<Progress>
    var relatedWordsMap: seq<RelatedWord>
    var currentUserId: int
    var currentCategoryId: int
    var currentWordId: int
    var currentProgressId: int
    var currentRelatedWordId: int

    /** The state of the object as a `Store` value. */
    function Model(): Store
      reads this
    {
      Store(usersMap, categoriesMap, wordsMap, progressMap, relatedWordsMap,
        currentUserId, currentCategoryId, currentWordId, currentProgressId, currentRelatedWordId)
    }

    ghost predicate Valid()
      reads this
    {
      Model().Valid()
    }

    /** An empty store with every counter at 1. */
    constructor ()
      ensures Valid() && Model() == EmptyStore
    {
      usersMap, categoriesMap, wordsMap, progressMap, relatedWordsMap := [], [], [], [], [];
      currentUserId, currentCategoryId, currentWordId, currentProgressId, currentRelatedWordId := 1, 1, 1, 1, 1;
    }

    method CreateUser(insertUser: InsertUser, now: Time) returns (user: User)
      requires Valid()
      modifies this
      ensures Valid() && (Model(), user) == old(Model()).CreateUser(insertUser, now)
    {
      CreateUserFresh(Model(), insertUser, now);
      var id := currentUserId;
      currentUserId := currentUserId + 1;
      user := User(id, insertUser.username, insertUser.password, 0, now);
      usersMap := OM.Set(usersMap, UserKey, user);
    }

    method UpdateUserStreak(userId: int, streak: int) returns (r: Result<User>)
      requires Valid()
      modifies this
      ensures Valid() && (Model(), r) == old(Model()).UpdateUserStreak(userId, streak)
    {
      UpdateUserStreakSpec(Model(), userId, streak);
      var user := OM.Get(usersMap, UserKey, userId);
      if user.None? {
        return Err("User not found");
      }
      var updated := user.value.(dailyStreak := streak);
      usersMap := OM.Set(usersMap, UserKey, updated);
      r := Ok(updated);
    }

    method UpdateLastActivity(userId: int, now: Time) returns (r: Result<User>)
      requires Valid()
      modifies this
      ensures Valid() && (Model(), r) == old(Model()).UpdateLastActivity(userId, now)
    {
      UpdateLastActivitySpec(Model(), userId, now);
      var user := OM.Get(usersMap, UserKey, userId);
      if user.None? {
        return Err("User not found");
      }
      var updated := user.value.(lastActivity := now);
      usersMap := OM.Set(usersMap, UserKey, updated);
      r := Ok(updated);
    }

    method CreateCategory(insertCategory: InsertCategory) returns (category: Category)
      requires Valid()
      modifies this
      ensures Valid() && (Model(), category) == old(Model()).CreateCategory(insertCategory)
    {
      CreateCategoryFresh(Model(), insertCategory);
      var id := currentCategoryId;
      currentCategoryId := currentCategoryId + 1;
      category := Category(id, insertCategory.name, insertCategory.description, insertCategory.level);
      categoriesMap := OM.Set(categoriesMap, CategoryKey, category);
    }

    method CreateWord(insertWord: InsertWord, now: Time) returns (word: Word)
      requires Valid()
      modifies this
      ensures Valid() && (Model(), word) == old(Model()).CreateWord(insertWord, now)
    {
      CreateWordFresh(Model(), insertWord, now);
      var id := currentWordId;
      currentWordId := currentWordId + 1;
      word := Word(id, insertWord.ottoman, insertWord.turkish, insertWord.meaning,
        insertWord.exampleOttoman, insertWord.exampleTurkish, insertWord.categoryId,
        insertWord.difficulty, insertWord.etymology, insertWord.audioUrl, now);
      wordsMap := OM.Set(wordsMap, WordKey, word);
    }

    method AddRelatedWord(wordId: int, relatedWordId: int)
      requires Valid()
      modifies this
      ensures Valid() && Model() == old(Model()).AddRelatedWord(wordId, relatedWordId)
    {
      AddRelatedWordSpec(Model(), wordId, relatedWordId);
      var id := currentRelatedWordId;
      currentRelatedWordId := currentRelatedWordId + 1;
      var relation := RelatedWord(id, wordId, relatedWordId);
      relatedWordsMap := OM.Set(relatedWordsMap, RelationKey, relation);
    }

    method RecordProgress(insertProgress: InsertProgress) returns (p: Progress)
      requires Valid()
      modifies this
      ensures Valid() && (Model(), p) == old(Model()).RecordProgress(insertProgress)
    {
      RecordProgressSpec(Model(), insertProgress);
      var id := currentProgressId;
      currentProgressId := currentProgressId + 1;
      p := Progress(id, insertProgress.userId, insertProgress.wordId,
        insertProgress.correctCount.GetOr(0), insertProgress.incorrectCount.GetOr(0),
        insertProgress.lastPracticed, insertProgress.isMastered.GetOr(false));
      progressMap := OM.Set(progressMap, ProgressKey, p);
    }

    method UpdateProgress(id: int, correctCount: int, incorrectCount: int, now: Time) returns (r: Result<Progress>)
      requires Valid()
      modifies this
      ensures Valid() && (Model(), r) == old(Model()).UpdateProgress(id, correctCount, incorrectCount, now)
    {
      UpdateProgressSpec(Model(), id, correctCount, incorrectCount, now);
      var k := OM.Find(progressMap, ProgressId, id);
      if k.None? {
        return Err("Progress not found");
      }
      var updated := progressMap[k.value].(correctCount := correctCount, incorrectCount := incorrectCount,
        lastPracticed := Some(now), isMastered := MasteryRule(correctCount, incorrectCount));
      progressMap := OM.Set(progressMap, ProgressKey, updated);
      r := Ok(updated);
    }

    /** One item per catalog word, in catalog order, each paired with the user's record for
        that word. */
    method GetWordsWithProgress(userId: int) returns (r: seq<WordWithProgress>)
      ensures |r| == |wordsMap|
      ensures forall j :: 0 <= j < |r| ==>
        r[j].word == wordsMap[j] && r[j].progress == Model().GetUserProgress(userId, wordsMap[j].id)
      ensures r == Model().GetWordsWithProgress(userId)
    {
      var words := wordsMap;
      r := [];
      for k := 0 to |words|
        invariant |r| == k
        invariant forall j :: 0 <= j < k ==>
          r[j] == WordWithProgress(words[j], OM.Get(progressMap, ProgressKey, (userId, words[j].id)))
      {
        var p := OM.Get(progressMap, ProgressKey, (userId, words[k].id));
        r := r + [WordWithProgress(words[k], p)];
      }
    }
  }
}
