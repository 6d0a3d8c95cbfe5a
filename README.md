# Ottoman translator: a verified model of its core

The application teaches Ottoman Turkish vocabulary. An Express server keeps users,
word categories, words, relations between words and per-user progress records in an
in-memory store, and serves them over a JSON API. Three client screens drive the
learning, and two scripts turn word lists in text form into records:

- the matching game pairs each word's Ottoman card with its Turkish card;
- the writing exercise asks for a word's translation and checks the typed answer;
- the word list page filters the words and colours each row by its share of right answers;
- the scripts `extract-words.js` and `import-all-words.js` read the word lists.

This project models each of these parts in Dafny and proves what the code promises about
it. The modules follow the source:

- `Storage` models the store. `Store` is a datatype holding the store's state, with one
  function per storage operation. `MemStorage` is a class over the same maps whose methods
  update its fields; each method's contract is that its new state is that function
  applied to its old state.
- `Routes` models the HTTP handlers. Each route is a function of the request and the
  store's state: a read route gives the response, and a route that changes the store gives
  the new state and the response. The routes that change the store, and GET
  /words-with-progress, are also written as methods that take the `MemStorage` object.
- `MatchingGame` and `WritingPractice` model the client screens. A datatype holds the
  screen's state and its transitions, and a class holds the component's state variables,
  with one method per event handler.
- `WordList` models the word list's filter and its percentage colouring.
- `CategoryFilter` holds the category filter shared by the two exercise screens and the
  word list.
- `ExtractWords` and `ImportAllWords` model the two scripts. Each has a loop-based method
  proved equal to a recursive function. About `import-all-words.js` the lemmas prove how
  many records come out, and about `extract-words.js` at most how many; for both they
  prove where each record comes from.
- `Text`, `Seqs`, `OrderedMap`, `Schema` and `Wrappers` supply the building blocks:
  JavaScript's string built-ins, filtering, insertion-ordered maps, the shared record
  types and the mastery rule.

## Modelling choices

Several parts of the source cannot be stated as they are in Dafny, so the model takes
them as follows.

- **Maps.** A JavaScript `Map` keeps its entries in insertion order. It is modelled as a
  sequence with a key function:
  - `set` on a present key replaces the entry in place;
  - `set` on a new key appends the entry;
  - `Array.from(map.values())` is the sequence itself.
- **Progress records.** These are keyed by the pair (user id, word id).
- **Relations.** These are keyed by the pair (word id, related word id).
- **`parseInt(_, 10)`.** This becomes `Text.ParseInt`, which gives `None` where JavaScript
  gives NaN. Since NaN equals no stored key, a NaN id finds nothing. Every call in
  `server/routes.ts` passes radix 10. The category filters of the clients
  (`MatchingGame.tsx:49`, `WritingPractice.tsx:47`, `WordList.tsx:52`) call `parseInt`
  without a radix and are modelled with `Text.ParseInt` too; see Left out.
- **Time.** Every clock reading is a parameter `now`.
- **Randomness.** Every `Math.random()` shuffle is a parameter: an index permutation
  (`MatchingGame.IsPermutation`) that the caller supplies.
- **Request bodies.** Insert-schema validation is abstracted as `Routes.Parsed`, which either
  accepts the body or rejects it with a message.
- **`Math.round` of a ratio.** This is exact integer arithmetic, rounding halves up
  (`Schema.RoundedPercent`).
- **Mastery.** `Schema.MasteryRule` states the rule in integers: `c / (c + i) >= 0.8` and
  `c + i >= 5`.
- **`toLowerCase`.** This is a character map covering ASCII, the Latin-1 capitals and the
  Turkish capitals Ğ and Ş (`Text.LowerChar`).

## Model

| member | source | states |
|---|---|---|
| Text.TrimStartSpec | extract-words.js:17 | `trim`'s leading part drops exactly the leading whitespace run and keeps a suffix that is empty or starts with non-whitespace |
| Text.TrimEndSpec | extract-words.js:17 | `trim`'s trailing part drops exactly the trailing whitespace run and keeps a prefix that is empty or ends with non-whitespace |
| Text.TrimEnds | client/src/components/WritingPractice.tsx:75 | a trimmed string neither starts nor ends with whitespace |
| Text.TrimOfTrimmed | client/src/components/WritingPractice.tsx:75 | trimming a string without end whitespace changes nothing |
| Text.LowerContains | server/storage.ts:313-320 | when the query occurs in a text, the lower-cased query occurs in the lower-cased text, so lower-casing both sides never loses a match |
| Text.ContainsIff | server/storage.ts:317-319 | `includes` holds exactly when the text occurs at some position |
| Text.IndexOf | extract-words.js:37 | the first position of the character, or none exactly when it does not occur |
| Text.Split | extract-words.js:8 | `split` gives at least one piece and no piece holds the separator |
| Text.JoinSplit | extract-words.js:44 | joining the pieces of a split with the same separator gives the text back |
| Text.SplitFirst | extract-words.js:43-44 | the first piece is the text before the first separator; the other pieces re-joined are the text after it |
| Text.WordsSpec | import-all-words.js:26 | `split(/\s+/)` of a trimmed line: no pieces exactly when the line is all whitespace; otherwise the first piece is the run after the leading whitespace, ended by whitespace or the end, and the rest are the pieces of what follows; the pieces written together are the line's non-whitespace characters in order |
| Text.RunLength | import-all-words.js:26 | the run measured is the longest whitespace-free prefix |
| Text.SpacedAppend | import-all-words.js:38-40 | adding one more token and a space extends the meaning text |
| Text.TrimSpaced | import-all-words.js:45 | trimming the space-terminated tokens gives the tokens joined by single spaces |
| Text.SpacedIsJoin | import-all-words.js:45 | the space-terminated tokens are the joined tokens and one space |
| Text.JoinEnds | import-all-words.js:45 | tokens joined by spaces start and end with non-whitespace |
| Text.NatToString | client/src/components/MatchingGame.tsx:217-221 | the decimal text of a number is non-empty and all digits |
| Text.IntToString | client/src/components/MatchingGame.tsx:98-118 | the decimal text of a word id is non-empty |
| Text.PadStart | client/src/components/MatchingGame.tsx:220 | `padStart` gives the larger of the length and the width, the text at the end, the pad character before it |
| Text.DigitRun | server/routes.ts:39 | `parseInt` reads the longest run of digits |
| Text.DigitsValueOfNatToString | server/routes.ts:39 | the digits of a number's decimal text have that number's value |
| Text.AllDigitsRun | server/routes.ts:39 | an all-digit text is read to its end |
| Text.ParseIntNatToString | server/routes.ts:39 | `parseInt` reads back the decimal text of a natural number |
| Text.ParseIntIntToString | server/routes.ts:39 | `parseInt` reads back the decimal text of any integer, negative ones included |
| Text.IntToStringInjective | client/src/components/MatchingGame.tsx:98-118 | distinct ids print differently |
| Text.TwoDigits | client/src/components/MatchingGame.tsx:220 | a number below 100 padded to two places is its tens digit and its units digit |
| Seqs.Filter | server/storage.ts:307-311 | an item is in the result of `filter` exactly when it is in the input and satisfies the predicate, and the result is no longer than the input |
| Seqs.FilterMultiset | server/storage.ts:307-311 | `filter` keeps each satisfying item as often as it occurs and drops every other one |
| Seqs.FilterIsSubsequence | server/storage.ts:307-311 | `filter` keeps the order of the items |
| Seqs.FilterAll | client/src/pages/WordList.tsx:38-60 | a filter accepting everything keeps everything |
| Seqs.FilterFilter | client/src/pages/WordList.tsx:38-60 | filtering by one predicate and then another is filtering once by their conjunction |
| OrderedMap.Find | server/storage.ts:232 | the position of the first entry with the key, or none exactly when no entry has it |
| OrderedMap.Get | server/storage.ts:232 | `Map.get` gives an entry with the key, or nothing exactly when no entry has it |
| OrderedMap.FindFirst | server/storage.ts:232 | the first position holding the key is the one found |
| OrderedMap.GetAt | server/storage.ts:232 | with distinct keys, the entry at a position is found by its key |
| OrderedMap.GetSet | server/storage.ts:250 | after `Map.set`, its key gives the new value and every other key what it gave before |
| OrderedMap.SetShape | server/storage.ts:250 | `Map.set` grows the map by one entry exactly when the key is new, and the new entry then comes last; otherwise the first entry with the key takes the new value where it stands; every other entry keeps its position |
| OrderedMap.SetKeysDistinct | server/storage.ts:250 | `Map.set` keeps the keys distinct |
| Schema.MasteryExamples | server/storage.ts:394 | the mastery rule on worked cases: 4 of 5 right is mastered; 3 of 4, 3 of 5 and 7 of 10 are not |
| Schema.RoundedPercent | server/storage.ts:410-412 | the rounded percentage is within half a percent of the exact share, and between 0 and 100 for a share that is one |
| Schema.RoundedPercentBounds | server/storage.ts:410-412 | how the rounding relates to the exact share |
| Storage.EmptyStoreValid | server/storage.ts:53-63 | the constructed store has empty maps, counters at 1 and holds the store invariant |
| Storage.AppendFresh | server/storage.ts:242-250 | storing under a fresh counter id appends and keeps the ids ascending |
| Storage.ReplaceAt | server/storage.ts:264 | re-storing a present key replaces the entry in place |
| Storage.SetFreshId | server/storage.ts:376-381 | storing under a fresh id keeps keys and ids distinct |
| Storage.CreateUserFresh | server/storage.ts:241-252 | a new user takes the next id, streak 0 and the time, is appended, and is then found by id |
| Storage.CreateCategoryFresh | server/storage.ts:291-296 | a new category takes the next id and the given fields and is appended |
| Storage.CreateWordFresh | server/storage.ts:323-333 | a new word takes the next id, the time and the given fields, is appended and is then found by id |
| Storage.CreateCategoryAllowsDuplicateNames | server/storage.ts:291-296 | a category name in use may be used again |
| Storage.CreateWordWithoutCategory | server/storage.ts:323-333 | a word may name a category that does not exist |
| Storage.UpdateUserStreakSpec | server/storage.ts:254-266 | a missing user is the error "User not found" and changes nothing; otherwise only that user's streak changes, in place |
| Storage.UpdateLastActivitySpec | server/storage.ts:268-280 | a missing user is the error "User not found" and changes nothing; otherwise only that user's last activity changes, in place |
| Storage.UserReplace | server/storage.ts:264 | replacing a user under its own id keeps the store invariant |
| Storage.SearchWordsSpec | server/storage.ts:313-321 | the search keeps exactly the words matching the lower-cased query, in catalog order |
| Storage.SearchFindsTurkish | server/storage.ts:313-317 | a catalog word whose Turkish text contains the query is found, whatever the letter case of either |
| Storage.SearchEmptyQuery | server/storage.ts:313-321 | the empty query finds every word |
| Storage.GetWordsByCategorySpec | server/storage.ts:307-311 | exactly the category's words, in catalog order |
| Storage.RelatedIdsIff | server/storage.ts:336-339 | the related ids of a word are exactly the targets of its relations |
| Storage.ExistingWordsIff | server/storage.ts:340 | the ids mapped to words, with the missing ones dropped, are exactly the words with those ids |
| Storage.GetRelatedWordsIff | server/storage.ts:335-341 | the related words are exactly the catalog words a relation from the word points to |
| Storage.RelatedIdsReplace | server/storage.ts:343-351 | re-storing a relation under its own pair leaves every word's related ids unchanged |
| Storage.AddRelatedWordSpec | server/storage.ts:343-351 | the counter advances; a new pair is appended; an old pair is replaced in place and the related words stay as they were |
| Storage.AddRelatedWordTwice | server/storage.ts:343-351 | adding a pair twice stores it once while the counter advances twice |
| Storage.GetDailyWordSpec | server/storage.ts:353-369 | nothing exactly when the catalog is empty or has no word 7; otherwise word 7 with its related words |
| Storage.RecordProgressSpec | server/storage.ts:376-381 | the payload is stored under its pair with the next id (an absent count is read as 0 and an absent flag as false, see Left out); every other pair is unchanged |
| Storage.RecordProgressPairs | server/storage.ts:376-381 | the payload's pair holds the new record and every other pair keeps its record, with or without the invariant |
| Storage.RecordProgressTrustsClientMastery | server/storage.ts:376-381 | a record is stored mastered on the client's word even with no answers |
| Storage.UpdateProgressAt | server/storage.ts:383-399 | an update takes the counts and the time, is mastered exactly by the mastery rule, stays in place and leaves other pairs alone |
| Storage.UpdateProgressSpec | server/storage.ts:383-399 | an unknown id is the error "Progress not found" and changes nothing; otherwise the update of the record with that id |
| Storage.UpdateProgressOfPair | server/storage.ts:383-399 | updating the record a pair holds recounts that record, keeps it under its pair, keeps the invariant and leaves other pairs alone |
| Storage.SumsNonNegative | server/storage.ts:408-409 | sums of non-negative counts are non-negative |
| Storage.GetUserStatsSpec | server/storage.ts:401-429 | catalog size, mastered count bounded by the user's records, accuracy rounded from the summed counts (0 with no attempts), streak 0 for a missing user, fixed week strip |
| Storage.LearnedWordsCount | server/storage.ts:405-408 | under the store invariant, learnedWords is the number of distinct words the user has a mastered record for |
| Storage.MemStorage.constructor | server/storage.ts:53-63 | the new object is the empty store |
| Storage.MemStorage.CreateUser | server/storage.ts:241-252 | updates the maps as `Store.CreateUser` and keeps the invariant |
| Storage.MemStorage.UpdateUserStreak | server/storage.ts:254-266 | updates the maps as `Store.UpdateUserStreak` and keeps the invariant |
| Storage.MemStorage.UpdateLastActivity | server/storage.ts:268-280 | updates the maps as `Store.UpdateLastActivity` and keeps the invariant |
| Storage.MemStorage.CreateCategory | server/storage.ts:291-296 | updates the maps as `Store.CreateCategory` and keeps the invariant |
| Storage.MemStorage.CreateWord | server/storage.ts:323-333 | updates the maps as `Store.CreateWord` and keeps the invariant |
| Storage.MemStorage.AddRelatedWord | server/storage.ts:343-351 | updates the maps as `Store.AddRelatedWord` and keeps the invariant |
| Storage.MemStorage.RecordProgress | server/storage.ts:376-381 | updates the maps as `Store.RecordProgress` and keeps the invariant |
| Storage.MemStorage.UpdateProgress | server/storage.ts:383-399 | updates the maps as `Store.UpdateProgress` and keeps the invariant |
| Storage.MemStorage.GetWordsWithProgress | server/storage.ts:431-444 | its loop returns every word, in order, each with the user's record for it |
| Routes.PostUsersSpec | server/routes.ts:18-35 | a taken username is 400 and changes nothing; a free one is 201 with the appended user, found afterwards by name |
| Routes.RejectedBodies | server/routes.ts:29-32 | a body failing its schema is 400 with the message and changes nothing, on every route with a body |
| Routes.PatchStreakSpec | server/routes.ts:52-66 | a non-number streak is 400; 200 with the updated user exactly when the id names a user, the store then being the streak update; 500 otherwise, with nothing changed |
| Routes.PatchActivitySpec | server/routes.ts:68-76 | 200 with the updated user exactly when the id names a user, the store then being the activity update; 500 otherwise, with nothing changed |
| Routes.GetWordsDispatch | server/routes.ts:102-120 | a category parameter wins over a query; a number keeps exactly its words; a query alone keeps the matches; neither gives all words |
| Routes.LookupsNotFound | server/routes.ts:37-50 | user, word, progress and daily-word lookups are 404 exactly when the id is NaN or names nothing, else 200 with a stored entity |
| Routes.ReadRoutesSpec | server/routes.ts:150-158 | categories listed in order; related words none for NaN, else exactly those related; stats of NaN only the catalog size; words with progress in catalog order |
| Routes.PostProgressExisting | server/routes.ts:205-232 | a pair with record e answers 200 with e's id and pair, the summed counts, the time and the mastery rule's verdict; the store is the update of e by its id, keeps the invariant and leaves other pairs alone |
| Routes.PostProgressFirst | server/routes.ts:205-232 | a pair without a record is 201 and stores the payload (absent counts read as 0, see Left out), without checking the user or the word |
| Routes.PostProgressNoServerError | server/routes.ts:226-231 | under the store invariant the route never answers 500 |
| Routes.PostAllCounts | server/routes.ts:209-225 | after a run of posts for a new pair its record holds the sums of the posted counts (an absent count adds 0, see Left out); from the second post on mastery follows the rule |
| Routes.PostProgressOtherPair | server/routes.ts:205-232 | a post for another pair leaves this pair's record alone |
| Routes.AnswerSums | server/routes.ts:209-222 | for one-answer posts the summed counts are the numbers of right and wrong answers |
| Routes.AnswerCounts | server/routes.ts:209-225 | for any order of answers, each posting both counts as the clients do, the record counts the right and the wrong answers; four right and one wrong masters the word |
| Routes.HandlePostUsers | server/routes.ts:18-35 | the store object ends as `PostUsers` says and answers the same |
| Routes.HandlePatchStreak | server/routes.ts:52-66 | the store object ends as `PatchStreak` says and answers the same |
| Routes.HandlePatchActivity | server/routes.ts:68-76 | the store object ends as `PatchActivity` says and answers the same |
| Routes.HandlePostCategories | server/routes.ts:88-99 | the store object ends as `PostCategories` says and answers the same |
| Routes.HandlePostWords | server/routes.ts:137-148 | the store object ends as `PostWords` says and answers the same |
| Routes.HandlePostRelated | server/routes.ts:160-171 | the store object ends as `PostRelated` says and answers the same |
| Routes.HandlePostProgress | server/routes.ts:205-232 | the read-modify-write ends as `PostProgress` says and answers the same |
| Routes.HandleWordsWithProgress | server/routes.ts:244-252 | 200 with every catalog word, in order |
| CategoryFilter.CategoryWordsSpec | client/src/components/MatchingGame.tsx:47-52 | "all" keeps every word; otherwise exactly the words whose category is the parsed id, in order |
| ExtractWords.TrimLines | extract-words.js:17 | every line trimmed |
| ExtractWords.TrimEndsOf | extract-words.js:29 | the trimmed line has no whitespace at either end |
| ExtractWords.ScanStep | extract-words.js:15-79 | each step advances one or two lines and emits at most one record, only when advancing two |
| ExtractWords.Extract | extract-words.js:8-80 | the script's result is `Extracted` of the text |
| ExtractWords.ScanLines | extract-words.js:14-80 | the while loop computes the recursive scan from line 1 |
| ExtractWords.ExtractStep | extract-words.js:15-79 | the scan from a line is that step's record followed by the scan from where it lands |
| ExtractWords.ScanLine | extract-words.js:16-75 | one loop body's advance and emitted record agree with the scan |
| ExtractWords.ScanPair | extract-words.js:29-75 | the part after the continuation check agrees with the step on the trimmed next line |
| ExtractWords.ParsePair | extract-words.js:37-64 | the words and meaning built agree with `PairRecord` |
| ExtractWords.SplitHead | extract-words.js:37-44 | the split-and-join computes the first word and the rest of the line as `FirstAndRest` |
| ExtractWords.FirstAndRestSpec | extract-words.js:43-44 | the first word of a trimmed line is non-empty and space-free; the line is it, a space and the rest |
| ExtractWords.PairRecordSpec | extract-words.js:43-64 | both words are non-empty prefixes of their lines; the meaning is "a (b)", a, b or empty as the remainders are present |
| ExtractWords.ExtractedRecords | extract-words.js:20-73 | every record comes from a pair of non-empty lines, the first not a continuation, and has both words |
| ExtractWords.PairAlwaysEmitted | extract-words.js:31-73 | two non-empty lines, the first not a continuation, always give their record and skip both |
| ExtractWords.ExtractFrom | extract-words.js:15-79 | the scan from line i gives at most one record per two lines from i on |
| ExtractWords.ExtractedSpec | extract-words.js:8-80 | at most one record per two lines after the header; each from a pair of lines after it |
| ImportAllWords.ImportAll | import-all-words.js:15-65 | the script's result is `Imported` of the text |
| ImportAllWords.ImportLines | import-all-words.js:21-65 | the outer loop computes the records of the lines after the header |
| ImportAllWords.ParseLine | import-all-words.js:23-26 | the records of one line's tokens |
| ImportAllWords.ParseTokens | import-all-words.js:29-63 | the records built agree with `TokenRecords` |
| ImportAllWords.BuildMeaning | import-all-words.js:38-40 | the inner loop gives each token in the range followed by a space |
| ImportAllWords.TokenRecordSpec | import-all-words.js:42-46 | the meaning of a record is its tokens joined by single spaces, the Turkish form the word lower-cased |
| ImportAllWords.LineRecordsSpec | import-all-words.js:29-63 | fewer than two tokens give nothing; otherwise exactly two records, for the first and the midpoint token, with the tokens before and after the midpoint |
| ImportAllWords.TokenRecordsCount | import-all-words.js:29-63 | zero or two records per line |
| ImportAllWords.TwoTokenLines | import-all-words.js:29 | at most one counted line per line |
| ImportAllWords.RecordsFromCount | import-all-words.js:21-65 | twice as many records as lines with two tokens |
| ImportAllWords.RecordsFromOrigin | import-all-words.js:21-65 | every record is one of some line's records |
| ImportAllWords.RecordsFromSuffix | import-all-words.js:21 | the header line never contributes |
| ImportAllWords.NonBlankLinesSpec | import-all-words.js:15 | exactly the non-blank lines, in order |
| ImportAllWords.ImportedSpec | import-all-words.js:12-65 | an even number of records, at most two per line after the header, each from such a line |
| MatchingGame.PairCount | client/src/components/MatchingGame.tsx:55-62 | easy 5, medium 8, hard 12, anything else 5 |
| MatchingGame.Permute | client/src/components/MatchingGame.tsx:94-96 | a shuffle keeps the length |
| MatchingGame.PermuteMembers | client/src/components/MatchingGame.tsx:121 | a shuffle keeps exactly the same items |
| MatchingGame.MarkSelected | client/src/components/MatchingGame.tsx:130-134 | marking keeps the deck size |
| MatchingGame.MarkMatched | client/src/components/MatchingGame.tsx:143-158 | marking keeps the deck size |
| MatchingGame.Unselect | client/src/components/MatchingGame.tsx:159-176 | unselecting keeps the deck size |
| MatchingGame.DealLength | client/src/components/MatchingGame.tsx:98-118 | two cards per word |
| MatchingGame.DealAt | client/src/components/MatchingGame.tsx:98-118 | word k gives the Ottoman card at 2k and the Turkish card at 2k+1 |
| MatchingGame.DealIndex | client/src/components/MatchingGame.tsx:98-118 | the card at position i belongs to word i/2, Ottoman when i is even |
| MatchingGame.DealSpec | client/src/components/MatchingGame.tsx:98-118 | two unselected unmatched cards per word, all ids distinct when word ids are distinct |
| MatchingGame.DealFresh | client/src/components/MatchingGame.tsx:98-118 | dealt cards are neither selected nor matched |
| MatchingGame.DealDistinct | client/src/components/MatchingGame.tsx:98-118 | distinct word ids give distinct card ids |
| MatchingGame.CardIdsDiffer | client/src/components/MatchingGame.tsx:98-118 | two cards share an id only for the same word and side |
| MatchingGame.InitializeSpec | client/src/components/MatchingGame.tsx:64-122 | too few words change nothing; otherwise two cards per pair from the chosen words, counters and timer reset, game running |
| MatchingGame.InitializeValid | client/src/components/MatchingGame.tsx:64-122 | starting keeps the game invariant when word ids are distinct |
| MatchingGame.CategoryWordsDistinct | client/src/components/MatchingGame.tsx:47-52 | the filter keeps word ids distinct |
| MatchingGame.FilterDistinct | client/src/components/MatchingGame.tsx:47-52 | any filter keeps word ids distinct |
| MatchingGame.ClickIgnored | client/src/components/MatchingGame.tsx:125-127 | a click before the start, or on a matched, selected or pending card, does nothing |
| MatchingGame.ClickFirst | client/src/components/MatchingGame.tsx:130-138 | a first click selects the card and changes nothing else |
| MatchingGame.ClickSecond | client/src/components/MatchingGame.tsx:141-179 | a turn: a match marks the word matched, sends one right answer and may complete; a mismatch sends one or two wrong answers |
| MatchingGame.ClickSendsAnswers | client/src/components/MatchingGame.tsx:183-200 | every progress post of a turn is one right or one wrong answer |
| MatchingGame.ClickValid | client/src/components/MatchingGame.tsx:124-181 | a click keeps the game invariant |
| MatchingGame.HideMismatchSpec | client/src/components/MatchingGame.tsx:166-175 | the delayed hide changes only selection flags: a card stays selected exactly when it was and is matched or not one of the two named cards; the rest of the game stays |
| MatchingGame.HideMismatchValid | client/src/components/MatchingGame.tsx:166-175 | hiding a mismatch keeps the game invariant |
| MatchingGame.QuitSpec | client/src/components/MatchingGame.tsx:295-302 | after "new game" the clock stops and clicks are ignored; the deck and the counters stay |
| MatchingGame.FormatTimeSpec | client/src/components/MatchingGame.tsx:217-221 | below 100 minutes the time is "mm:ss" and its digits read back to the seconds |
| MatchingGame.TwoDigitsValue | client/src/components/MatchingGame.tsx:220 | two digits read back to the number |
| MatchingGame.Game.constructor | client/src/components/MatchingGame.tsx:34-43 | the component starts on category "all", difficulty "easy", no game |
| MatchingGame.Game.SelectCategory | client/src/components/MatchingGame.tsx:237-252 | only the category changes |
| MatchingGame.Game.SelectDifficulty | client/src/components/MatchingGame.tsx:254-256 | only the difficulty changes |
| MatchingGame.Game.InitializeGame | client/src/components/MatchingGame.tsx:64-122 | the state variables end as `Initialize` says |
| MatchingGame.Game.NewDeck | client/src/components/MatchingGame.tsx:94-121 | the deck built is the one `Initialize` sets, or the game does not start |
| MatchingGame.Game.DealCards | client/src/components/MatchingGame.tsx:98-118 | the loop building the cards gives `Deal` |
| MatchingGame.Game.HandleCardClick | client/src/components/MatchingGame.tsx:124-181 | the state variables and posts are those of `Click` |
| MatchingGame.Game.HideMismatch | client/src/components/MatchingGame.tsx:166-175 | the state variables end as `HideMismatch` says |
| MatchingGame.Game.Tick | client/src/components/MatchingGame.tsx:88-91 | one second added while the timer runs |
| MatchingGame.Game.QuitGame | client/src/components/MatchingGame.tsx:295-302 | the state variables end as `Quit` says |
| WritingPractice.PracticeState.CurrentWord | client/src/components/WritingPractice.tsx:67 | a word exactly when the index is in range, and then one of the filtered words |
| WritingPractice.LowerCharWhitespace | client/src/components/WritingPractice.tsx:75-76 | lower-casing keeps whitespace apart from other characters |
| WritingPractice.LowerLower | client/src/components/WritingPractice.tsx:75-76 | lower-casing twice is lower-casing once |
| WritingPractice.TrimStartPadded | client/src/components/WritingPractice.tsx:75 | leading whitespace added is trimmed away |
| WritingPractice.TrimEndPadded | client/src/components/WritingPractice.tsx:75 | trailing whitespace added is trimmed away |
| WritingPractice.TrimPadded | client/src/components/WritingPractice.tsx:75 | an answer with whitespace around it trims back to the answer |
| WritingPractice.TypedAnswerAccepted | client/src/components/WritingPractice.tsx:74-80 | the answer in any case and padded with whitespace is accepted |
| WritingPractice.PaddedAnswerNeverAccepted | client/src/components/WritingPractice.tsx:74-80 | a stored answer with whitespace at an end can never be matched |
| WritingPractice.AnswerCheckNormalises | client/src/components/WritingPractice.tsx:74-80 | the check ignores input padding and the answer's case |
| WritingPractice.SubmitSpec | client/src/components/WritingPractice.tsx:69-131 | without a word or once submitted nothing; otherwise marked, tallied, and one answer posted with the time and the word's mastery flag |
| WritingPractice.MoveToNextSpec | client/src/components/WritingPractice.tsx:133-150 | before the last word the next one, cleared; at the last the same words reshuffled, a new tally, from the first |
| WritingPractice.MoveToPreviousSpec | client/src/components/WritingPractice.tsx:152-160 | back one word, cleared, or nothing at the first |
| WritingPractice.RefilterSpec | client/src/components/WritingPractice.tsx:43-65 | exactly the category's words, shuffled, from the first, with a tally over all of them |
| WritingPractice.OperationsValid | client/src/components/WritingPractice.tsx:43-181 | every handler keeps the tally adding up and the index in range |
| WritingPractice.CompletedCanExceedTotal | client/src/components/WritingPractice.tsx:242-245 | going back and answering again counts a word twice, so the completed count can exceed the total |
| WritingPractice.Practice.constructor | client/src/components/WritingPractice.tsx:25-38 | the component's initial state |
| WritingPractice.Practice.ApplyFilter | client/src/components/WritingPractice.tsx:43-65 | the state variables end as `Refilter` says |
| WritingPractice.Practice.SelectCategory | client/src/components/WritingPractice.tsx:202 | the category set, then the filter effect |
| WritingPractice.Practice.SelectMode | client/src/components/WritingPractice.tsx:219 | the mode set, then the filter effect |
| WritingPractice.Practice.SetUserInput | client/src/components/WritingPractice.tsx:276-277 | the state variables end as `Type` says |
| WritingPractice.Practice.HandleSubmit | client/src/components/WritingPractice.tsx:69-131 | the state variables and the post are those of `Submit` |
| WritingPractice.Practice.MoveToNext | client/src/components/WritingPractice.tsx:133-150 | the state variables end as `MoveToNext` says |
| WritingPractice.Practice.MoveToPrevious | client/src/components/WritingPractice.tsx:152-160 | the state variables end as `MoveToPrevious` says |
| WritingPractice.Practice.ResetSession | client/src/components/WritingPractice.tsx:162-177 | the state variables end as `ResetSession` says |
| WritingPractice.Practice.ToggleHint | client/src/components/WritingPractice.tsx:179-181 | the hint flag flips |
| WordList.FilteredWordsSpec | client/src/pages/WordList.tsx:38-60 | a word is listed exactly when it matches the search, the category and the difficulty; order kept |
| WordList.OpenFilters | client/src/pages/WordList.tsx:43-57 | an empty search, category "all" or difficulty "all" drops its clause; all three list every word |
| WordList.SearchClauseIsStoreSearch | client/src/pages/WordList.tsx:43-49 | the page's search clause is the store's search predicate |
| WordList.ProgressPercentage | client/src/pages/WordList.tsx:153-156 | 0 with no attempts; otherwise within half a percent of the share of right answers, between 0 and 100 |
| WordList.PercentAtLeast | client/src/pages/WordList.tsx:172-181 | the rounded percentage reaches k exactly when 200c + t ≥ 2tk |
| WordList.ProgressShadeSpec | client/src/pages/WordList.tsx:172-181 | a dash without attempts; green from 79.5% right, yellow from 49.5%, red below |

## Left out

- The Express app, its middleware, JSON parsing and the `try`/`catch` around each route are
  left out. The 500 answers of POST /users, /categories, /words and /words/related come only from
  exceptions the in-memory store never throws, so they are not modelled.
- The insert schemas (`shared/schema.ts`, drizzle-zod) are not part of this model. A body
  arrives as accepted or rejected.
- The sample data loaded by the store's constructor (`initializeSampleData`) is left out.
  The store starts empty.
- Reading the word-list file and writing the JSON result in both scripts are left out.
  The input is the file's text.
- `ExtractWords`: the `catch` branch, which steps one line, is left out because the body
  cannot throw. The `length < 1` checks after `split(' ')` are dead, since a split always
  gives at least one piece (`Text.Split`).
- The client's data fetching is turned into parameters: react-query, the `apiRequest`
  calls, cache invalidation and the loading states. The words a screen shows are an
  input, and each progress post is returned as an output rather than sent.
- Timers are not modelled as such. The matching game's mismatch delay is the separate
  event `HideMismatch`, and its one-second interval is the event `Tick`.
- Toasts, audio and rendering are left out. This includes the writing exercise's
  progress bar, whose value `completed / total` can pass 1 in the model;
  `CompletedCanExceedTotal` shows how, within a session that no refetch restarts.
- React batches state updates and its closures may read stale values. The model applies
  each handler's updates in order to the current state.
- `Math.random` shuffles are left out. Each is an index permutation the caller supplies,
  so the model covers every possible shuffle.
- `Schema.RoundedPercent` uses exact rational rounding. Floating-point `Math.round` may
  differ when the exact share lies on a half-percent tie that the double cannot represent.
- `Text.LowerChar` covers only ASCII, Latin-1 and the Turkish capitals Ğ and Ş. Other
  Unicode case mappings, such as the dotted İ, are left out.
- `WritingPractice.SubmitSpec` passes on the word's mastery flag as the client does. The
  server's recomputation is stated separately, in `Routes.PostProgressExisting`.
- The other screens are presentation or repeat the modelled logic, and are left out:
  Home, Flashcards, Profile, Statistics and the daily word card.
- The other import scripts are one-off data fixes and are left out: `import-words.js`,
  `import-direct-words.js`, `fix-words.js` and `add-all-words.js`.
- `WordWithProgress` is the word with an optional record, not the word's fields spread
  beside `progress`.
- Storage.RecordProgress, Storage.RecordProgressSpec and Routes.PostProgressFirst read an
  absent `correctCount` or `incorrectCount` as 0 and an absent `isMastered` as false. The
  source stores the payload as it is given. Defaulted columns are optional in the insert
  schema, so an absent field stays undefined in the stored record, and a later post then
  sums `undefined + n`, which is NaN. The model states nothing about such records. Both
  clients always send both counts and the flag.
- PostAllCounts: a run whose first payload lacks a count is summed from 0 here. In the
  source that record's count is undefined and every later sum is NaN.
- AnswerCounts: it covers only answers that carry both counts, which are the ones the two
  clients post. An answer without a count falls under the line above.
- PatchStreakSpec (and Routes.PatchStreak): the streak is an integer. A JSON number such
  as 2.5 passes the `typeof` check at `server/routes.ts:57` and would be stored. The model
  has no such value.
- `WritingPractice.Submit` does not model the disabled check button when the input is
  blank (`WritingPractice.tsx:335`). A blank answer is marked wrong here, where the UI
  does not let it be sent.
- `WritingPractice.MoveToNext` does not model the disabled "next" button on the last word
  before an answer (`WritingPractice.tsx:376`). Here that step reshuffles and restarts.
- WritingPractice: the refetch of the words with progress after each answer
  (`WritingPractice.tsx:121`) gives the screen new words, and the filter effect then runs
  `Refilter` again, which restarts the session. The model has no refetch. Its session
  goes on after an answer, which is what `CompletedCanExceedTotal` relies on; with the
  refetch, a reset can come between the answers in that lemma.
- The clients' category filters call `parseInt` without a radix, so a text such as
  "0x1A" reads as 26 there but as 0 (its leading digit run) in `Text.ParseInt`. The category values come
  from the integer ids of the category list, which print in decimal.
