/**
 * The matching game: a deck of two cards per chosen word (its Ottoman form and its Turkish
 * form), shuffled; the learner turns cards two at a time, a pair of the same word in its
 * two forms is a match, and every turn is sent to the server as a progress answer.
 * The random shuffles are inputs (index permutations), the interval timer is a `Tick`
 * operation, and the delayed hiding of a mismatched pair is an operation of its own.
 */
module MatchingGame {
  import opened Wrappers
  import opened Text
  import opened Schema
  import opened Seqs
  import opened CategoryFilter
  import Routes

  datatype Card = Card(id: string, wordId: int, text: string, isOttoman: bool, isSelected: bool, isMatched: bool)

  /** The number of pairs for a difficulty level. */
  function PairCount(difficulty: string): (n: nat)
    ensures difficulty == "medium" ==> n == 8
    ensures difficulty == "hard" ==> n == 12
    ensures difficulty != "medium" && difficulty != "hard" ==> n == 5
  {
    match difficulty
    case "easy" => 5
    case "medium" => 8
    case "hard" => 12
    case _ => 5
  }

  /** No two words share an id. */
  predicate WordIdsDistinct(ws: seq<WordWithProgress>) {
    forall a, b :: 0 <= a < b < |ws| ==> ws[a].word.id != ws[b].word.id
  }

  /** No two cards share an id. */
  predicate CardIdsDistinct(cards: seq<Card>) {
    forall i, j :: 0 <= i < j < |cards| ==> cards[i].id != cards[j].id
  }

  /** p lists 0 .. n - 1, each once: the outcome of a random shuffle of n items. */
  predicate IsPermutation(p: seq<nat>, n: nat) {
    && |p| == n
    && (forall i :: 0 <= i < n ==> p[i] < n)
    && (forall i, j :: 0 <= i < j < n ==> p[i] != p[j])
    && (forall v :: 0 <= v < n ==> v in p)
  }

  /** s rearranged by p: item i of the result is item p[i] of s. */
  function Permute<T>(s: seq<T>, p: seq<nat>): (r: seq<T>)
    requires IsPermutation(p, |s|)
    ensures |r| == |s|
  {
    seq(|s|, i requires 0 <= i < |s| => s[p[i]])
  }

  /** A rearrangement has the same items. */
  lemma PermuteMembers<T>(s: seq<T>, p: seq<nat>)
    requires IsPermutation(p, |s|)
    ensures forall x :: x in Permute(s, p) <==> x in s
  {
    var r := Permute(s, p);
    forall x | x in s
      ensures x in r
    {
      var v :| 0 <= v < |s| && s[v] == x;
      assert v in p;
      var i :| 0 <= i < |p| && p[i] == v;
      assert r[i] == x;
    }
  }

  function OttomanCard(w: WordWithProgress): Card {
    Card("ottoman-" + IntToString(w.word.id), w.word.id, w.word.ottoman, true, false, false)
  }

  function TurkishCard(w: WordWithProgress): Card {
    Card("turkish-" + IntToString(w.word.id), w.word.id, w.word.turkish, false, false, false)
  }

  /** The cards of the chosen words before the shuffle: for each word in turn, its Ottoman
      card and then its Turkish card. */
  function Deal(ws: seq<WordWithProgress>): seq<Card> {
    if |ws| == 0 then [] else Deal(ws[..|ws| - 1]) + [OttomanCard(ws[|ws| - 1]), TurkishCard(ws[|ws| - 1])]
  }

  /** The progress a turn sends for a word. */
  function Answer(userId: int, wordId: int, correct: bool, now: Time): InsertProgress {
    InsertProgress(userId, wordId, Some(if correct then 1 else 0), Some(if correct then 0 else 1), Some(now), Some(false))
  }

  /** Marks selected the cards with the given id. */
  function MarkSelected(cards: seq<Card>, id: string): (r: seq<Card>)
    ensures |r| == |cards|
  {
    seq(|cards|, i requires 0 <= i < |cards| => if cards[i].id == id then cards[i].(isSelected := true) else cards[i])
  }

  /** Marks matched the cards of the given word. */
  function MarkMatched(cards: seq<Card>, wordId: int): (r: seq<Card>)
    ensures |r| == |cards|
  {
    seq(|cards|, i requires 0 <= i < |cards| => if cards[i].wordId == wordId then cards[i].(isMatched := true) else cards[i])
  }

  /** Turns back the two cards of a mismatch, unless they have been matched since. */
  function Unselect(cards: seq<Card>, id1: string, id2: string): (r: seq<Card>)
    ensures |r| == |cards|
  {
    seq(|cards|, i requires 0 <= i < |cards| =>
      if (cards[i].id == id1 || cards[i].id == id2) && !cards[i].isMatched then cards[i].(isSelected := false) else cards[i])
  }

  /** The state of the game screen. */
  datatype GameState = GameState(
    categoryId: string,
    difficulty: string,
    cards: seq<Card>,
    selectedCard: Option<Card>,
    matchedPairs: int,
    moves: int,
    gameStarted: bool,
    gameCompleted: bool,
    timer: int,
    ticking: bool)
  {
    /** The words the game may use. */
    function FilteredWords(words: seq<WordWithProgress>): seq<WordWithProgress> {
      CategoryWords(words, categoryId)
    }

    /** The two shuffles a new game draws: one of the words, and, when there are enough
        words for a game, one of its cards. */
    predicate Shuffles(words: seq<WordWithProgress>, order: seq<nat>, shuffle: seq<nat>) {
      && IsPermutation(order, |FilteredWords(words)|)
      && (|FilteredWords(words)| >= PairCount(difficulty) ==> IsPermutation(shuffle, 2 * PairCount(difficulty)))
    }

    /** Starting a game: nothing changes when there are fewer words than pairs; otherwise the
        counters are reset, the timer restarts, and the deck is the dealt cards of the first
        pairs of the shuffled words, shuffled. */

    function Initialize(words: seq<WordWithProgress>, order: seq<nat>, shuffle: seq<nat>): GameState
      requires Shuffles(words, order, shuffle)
    {
      var filtered := FilteredWords(words);
      var n := PairCount(difficulty);
      if |filtered| < n then this
      else
        var gameWords := Permute(filtered, order)[..n];
        DealLength(gameWords);
        this.(cards := Permute(Deal(gameWords), shuffle), selectedCard := None, matchedPairs := 0, moves := 0,
          gameStarted := true, gameCompleted := false, timer := 0, ticking := true)
    }

    /** A click on card k, and the progress answers it sends. */
    function Click(k: nat, userId: int, now: Time): (GameState, seq<InsertProgress>)
      requires k < |cards|
    {
      var card := cards[k];
      if !gameStarted || card.isMatched || card.isSelected || (selectedCard.Some? && selectedCard.value.id == card.id) then
        (this, [])
      else
        var marked := MarkSelected(cards, card.id);
        match selectedCard
        case None => (this.(cards := marked, selectedCard := Some(card)), [])
        case Some(first) =>
          if first.wordId == card.wordId && first.isOttoman != card.isOttoman then
            var done := matchedPairs + 1 == PairCount(difficulty);
            (this.(cards := MarkMatched(marked, card.wordId), selectedCard := None, moves := moves + 1,
                matchedPairs := matchedPairs + 1, gameCompleted := gameCompleted || done, ticking := ticking && !done),
             [Answer(userId, card.wordId, true, now)])
          else
            (this.(cards := marked, selectedCard := None, moves := moves + 1),
             [Answer(userId, first.wordId, false, now)]
             + (if first.wordId != card.wordId then [Answer(userId, card.wordId, false, now)] else []))
    }

    /** The delayed callback after a mismatch of the cards with ids id1 and id2. */
    function HideMismatch(id1: string, id2: string): GameState {
      this.(cards := Unselect(cards, id1, id2))
    }

    /** One second of the interval timer, while it runs. */
    function Tick(): GameState {
      if ticking then this.(timer := timer + 1) else this
    }

    /** The "new game" button: the timer stops and the board is left; the deck and the
        counters stay as they were until the next start. */
    function Quit(): GameState {
      this.(gameStarted := false, ticking := false)
    }

    /** Distinct card ids; a pending selection is a card of the deck, selected and not
        matched; there are never more matches than turns. */
    ghost predicate Valid() {
      && CardIdsDistinct(cards)
      && (selectedCard.Some? ==>
        exists i :: 0 <= i < |cards| && cards[i].id == selectedCard.value.id && cards[i].isSelected && !cards[i].isMatched)
      && 0 <= matchedPairs <= moves
    }
  }

  /** The screen before any game: category "all", difficulty "easy". */
  const InitialGame := GameState("all", "easy", [], None, 0, 0, false, false, 0, false)

  /** `mm:ss`: minutes and seconds, each padded to two digits. */
  function FormatTime(seconds: nat): string {
    var mins := seconds / 60;
    var secs := seconds % 60;
    PadStart(NatToString(mins), 2, '0') + ":" + PadStart(NatToString(secs), 2, '0')
  }

  // ---- properties

  lemma {:induction false} DealLength(ws: seq<WordWithProgress>)
    ensures |Deal(ws)| == 2 * |ws|
  {
    if |ws| > 0 {
      DealLength(ws[..|ws| - 1]);
    }
  }

  /** The dealt deck has two cards per word, at positions 2k and 2k + 1: its Ottoman card,
      then its Turkish card. */
  lemma {:induction false} DealAt(ws: seq<WordWithProgress>)
    ensures |Deal(ws)| == 2 * |ws|
    ensures forall k :: 0 <= k < |ws| ==> Deal(ws)[2 * k] == OttomanCard(ws[k]) && Deal(ws)[2 * k + 1] == TurkishCard(ws[k])
  {
    if |ws| > 0 {
      var front := ws[..|ws| - 1];
      var last := ws[|ws| - 1];
      DealAt(front);
      var d := Deal(front);
      assert Deal(ws) == d + [OttomanCard(last), TurkishCard(last)];
      forall k | 0 <= k < |ws|
        ensures Deal(ws)[2 * k] == OttomanCard(ws[k]) && Deal(ws)[2 * k + 1] == TurkishCard(ws[k])
      {
        if k < |front| {
          assert ws[k] == front[k];
          assert Deal(ws)[2 * k] == d[2 * k] && Deal(ws)[2 * k + 1] == d[2 * k + 1];
        } else {
          assert k == |front| && ws[k] == last && 2 * k == |d|;
        }
      }
    }
  }

  /** Position i of a deck of pairs is card i % 2 of pair i / 2. */
  lemma Halves(i: nat)
    ensures i == 2 * (i / 2) + i % 2 && (i % 2 == 0 || i % 2 == 1)
  {
  }

  /** No card of a new deck is selected or matched; when the words' ids are distinct, the
      card ids are distinct. */
  lemma DealSpec(ws: seq<WordWithProgress>)
    ensures var d := Deal(ws);
      && |d| == 2 * |ws|
      && (forall c :: c in d ==> !c.isSelected && !c.isMatched)
      && (WordIdsDistinct(ws) ==> CardIdsDistinct(d))
  {
    DealLength(ws);
    DealFresh(ws);
    if WordIdsDistinct(ws) {
      DealDistinct(ws);
    }
  }

  lemma DealFresh(ws: seq<WordWithProgress>)
    ensures forall c :: c in Deal(ws) ==> !c.isSelected && !c.isMatched
  {
    DealAt(ws);
    var d := Deal(ws);
    forall c | c in d
      ensures !c.isSelected && !c.isMatched
    {
      var i :| 0 <= i < |d| && d[i] == c;
      Halves(i);
    }
  }

  lemma DealDistinct(ws: seq<WordWithProgress>)
    requires WordIdsDistinct(ws)
    ensures CardIdsDistinct(Deal(ws))
  {
    var d := Deal(ws);
    DealLength(ws);
    forall i, j | 0 <= i < j < |d|
      ensures d[i].id != d[j].id
    {
      DealIndex(ws, i);
      DealIndex(ws, j);
      var a, b := i / 2, j / 2;
      Halves(i);
      Halves(j);
      CardIdsDiffer(ws[a], ws[b], i % 2 == 0, j % 2 == 0);
    }
  }

  /** Card i of a deal is the Ottoman (i even) or Turkish (i odd) card of word i / 2. */
  lemma DealIndex(ws: seq<WordWithProgress>, i: nat)
    requires i < 2 * |ws|
    ensures |Deal(ws)| == 2 * |ws|
    ensures i / 2 < |ws| && Deal(ws)[i] == if i % 2 == 0 then OttomanCard(ws[i / 2]) else TurkishCard(ws[i / 2])
  {
    DealAt(ws);
    Halves(i);
    var k := i / 2;
    assert i == 2 * k || i == 2 * k + 1;
  }

  /** Two cards have the same id only when they are the same form of the same word. */
  lemma CardIdsDiffer(a: WordWithProgress, b: WordWithProgress, aOttoman: bool, bOttoman: bool)
    ensures var ca := if aOttoman then OttomanCard(a) else TurkishCard(a);
      var cb := if bOttoman then OttomanCard(b) else TurkishCard(b);
      ca.id == cb.id ==> aOttoman == bOttoman && a.word.id == b.word.id
  {
    var ca := if aOttoman then OttomanCard(a) else TurkishCard(a);
    var cb := if bOttoman then OttomanCard(b) else TurkishCard(b);
    if ca.id == cb.id {
      assert ca.id[0] == cb.id[0];
      var sa := IntToString(a.word.id);
      var sb := IntToString(b.word.id);
      assert ca.id == (if aOttoman then "ottoman-" else "turkish-") + sa;
      assert cb.id == (if bOttoman then "ottoman-" else "turkish-") + sb;
      assert sa == ca.id[8..] && sb == cb.id[8..];
      IntToStringInjective(a.word.id, b.word.id);
    }
  }

  /** With fewer words than pairs, starting a game changes nothing; otherwise the deck has
      two cards for each of the first pairs of the shuffled words, every card a card of that
      deal, none selected or matched, and the counters start at zero. */
  lemma InitializeSpec(st: GameState, words: seq<WordWithProgress>, order: seq<nat>, shuffle: seq<nat>)
    requires st.Shuffles(words, order, shuffle)
    ensures var filtered := st.FilteredWords(words);
      var n := PairCount(st.difficulty);
      var t := st.Initialize(words, order, shuffle);
      && (|filtered| < n ==> t == st)
      && (|filtered| >= n ==>
        var gameWords := Permute(filtered, order)[..n];
        && |t.cards| == 2 * n
        && (forall c :: c in t.cards <==> c in Deal(gameWords))
        && (forall c :: c in t.cards ==> !c.isSelected && !c.isMatched)
        && t.selectedCard == None && t.matchedPairs == 0 && t.moves == 0 && t.timer == 0
        && t.gameStarted && !t.gameCompleted && t.ticking
        && t.categoryId == st.categoryId && t.difficulty == st.difficulty)
  {
    var filtered := st.FilteredWords(words);
    var n := PairCount(st.difficulty);
    if |filtered| >= n {
      var gameWords := Permute(filtered, order)[..n];
      DealSpec(gameWords);
      PermuteMembers(Deal(gameWords), shuffle);
    }
  }

  /** When the words' ids are distinct, a new game is in a valid state. */
  lemma InitializeValid(st: GameState, words: seq<WordWithProgress>, order: seq<nat>, shuffle: seq<nat>)
    requires st.Valid()
    requires st.Shuffles(words, order, shuffle)
    requires WordIdsDistinct(words)
    ensures st.Initialize(words, order, shuffle).Valid()
  {
    var filtered := st.FilteredWords(words);
    var n := PairCount(st.difficulty);
    if |filtered| >= n {
      var shuffled := Permute(filtered, order);
      var gameWords := shuffled[..n];
      assert WordIdsDistinct(gameWords) by {
        forall a, b | 0 <= a < b < |gameWords|
          ensures gameWords[a].word.id != gameWords[b].word.id
        {
          CategoryWordsDistinct(words, st.categoryId);
          assert gameWords[a] == filtered[order[a]] && gameWords[b] == filtered[order[b]];
        }
      }
      DealSpec(gameWords);
      var d := Deal(gameWords);
      var cards := Permute(d, shuffle);
      forall i, j | 0 <= i < j < |cards|
        ensures cards[i].id != cards[j].id
      {
        assert cards[i] == d[shuffle[i]] && cards[j] == d[shuffle[j]];
        if shuffle[i] > shuffle[j] {
          assert d[shuffle[j]].id != d[shuffle[i]].id;
        }
      }
    }
  }

  /** Keeping some of the words keeps their ids distinct. */
  lemma CategoryWordsDistinct(words: seq<WordWithProgress>, categoryId: string)
    requires WordIdsDistinct(words)
    ensures WordIdsDistinct(CategoryWords(words, categoryId))
  {
    FilterDistinct(words, InCategory(categoryId));
  }

  lemma {:induction false} FilterDistinct(words: seq<WordWithProgress>, p: WordWithProgress -> bool)
    requires WordIdsDistinct(words)
    ensures WordIdsDistinct(Filter(words, p))
  {
    if |words| > 0 {
      var rest := words[1..];
      assert WordIdsDistinct(rest) by {
        forall a, b | 0 <= a < b < |rest|
          ensures rest[a].word.id != rest[b].word.id
        {
          assert rest[a] == words[a + 1] && rest[b] == words[b + 1];
        }
      }
      FilterDistinct(rest, p);
      var tail := Filter(rest, p);
      var r := Filter(words, p);
      if p(words[0]) {
        assert r == [words[0]] + tail;
        forall a, b | 0 <= a < b < |r|
          ensures r[a].word.id != r[b].word.id
        {
          assert r[b] == tail[b - 1];
          if a == 0 {
            assert tail[b - 1] in tail;
            var m :| 0 <= m < |rest| && rest[m] == tail[b - 1];
            assert rest[m] == words[m + 1];
          } else {
            assert r[a] == tail[a - 1];
          }
        }
      } else {
        assert r == tail;
      }
    }
  }

  /** A click is ignored, changing nothing and sending nothing, before the game starts, on a
      matched or selected card, and on the pending selection. */
  lemma ClickIgnored(st: GameState, k: nat, userId: int, now: Time)
    requires k < |st.cards|
    requires var card := st.cards[k];
      !st.gameStarted || card.isMatched || card.isSelected || (st.selectedCard.Some? && st.selectedCard.value.id == card.id)
    ensures st.Click(k, userId, now) == (st, [])
  {
  }

  /** A first click selects the card and remembers it; nothing else changes and nothing is
      sent. */
  lemma ClickFirst(st: GameState, k: nat, userId: int, now: Time)
    requires k < |st.cards| && st.gameStarted && st.selectedCard.None?
    requires !st.cards[k].isMatched && !st.cards[k].isSelected
    ensures var (t, posts) := st.Click(k, userId, now);
      && t.selectedCard == Some(st.cards[k]) && t.cards[k].isSelected && posts == []
      && |t.cards| == |st.cards|
      && (forall i :: 0 <= i < |st.cards| && st.cards[i].id != st.cards[k].id ==> t.cards[i] == st.cards[i])
      && t.moves == st.moves && t.matchedPairs == st.matchedPairs && t.gameCompleted == st.gameCompleted
  {
  }

  /** A second click is one more move and clears the selection. It is a match exactly when
      the two cards are the two forms of one word: then every card of that word is matched,
      one more pair is counted, one correct answer is sent, and the game completes exactly
      when that brings the pairs to the pair count. Otherwise the first word is sent as
      wrong, and the second word too when it is another word. */
  lemma ClickSecond(st: GameState, k: nat, userId: int, now: Time)
    requires k < |st.cards| && st.gameStarted && st.selectedCard.Some?
    requires !st.cards[k].isMatched && !st.cards[k].isSelected && st.selectedCard.value.id != st.cards[k].id
    ensures var (t, posts) := st.Click(k, userId, now);
      var first := st.selectedCard.value;
      var card := st.cards[k];
      var isMatch := first.wordId == card.wordId && first.isOttoman != card.isOttoman;
      && t.moves == st.moves + 1 && t.selectedCard == None && |t.cards| == |st.cards|
      && (isMatch ==>
        && t.matchedPairs == st.matchedPairs + 1
        && (forall i :: 0 <= i < |t.cards| ==> (t.cards[i].isMatched <==> st.cards[i].isMatched || st.cards[i].wordId == card.wordId))
        && posts == [Answer(userId, card.wordId, true, now)]
        && (t.gameCompleted <==> st.gameCompleted || st.matchedPairs + 1 == PairCount(st.difficulty)))
      && (!isMatch ==>
        && t.matchedPairs == st.matchedPairs && t.gameCompleted == st.gameCompleted
        && t.cards[k].isSelected
        && (forall i :: 0 <= i < |t.cards| ==> t.cards[i].isMatched == st.cards[i].isMatched)
        && |posts| == (if first.wordId != card.wordId then 2 else 1)
        && posts[0] == Answer(userId, first.wordId, false, now)
        && (first.wordId != card.wordId ==> posts[1] == Answer(userId, card.wordId, false, now)))
  {
  }

  /** Every answer a click sends is, for the server, one answer of this user for that word:
      one correct or one incorrect attempt. */
  lemma ClickSendsAnswers(st: GameState, k: nat, userId: int, now: Time)
    requires k < |st.cards|
    ensures var posts := st.Click(k, userId, now).1;
      forall i :: 0 <= i < |posts| ==> Routes.IsAnswer(posts[i], userId, posts[i].wordId)
  {
  }

  /** A click keeps the game valid. */
  lemma ClickValid(st: GameState, k: nat, userId: int, now: Time)
    requires st.Valid() && k < |st.cards|
    ensures st.Click(k, userId, now).0.Valid()
  {
    var t := st.Click(k, userId, now).0;
    var card := st.cards[k];
    if t != st {
      forall i, j | 0 <= i < j < |t.cards|
        ensures t.cards[i].id != t.cards[j].id
      {
        assert t.cards[i].id == st.cards[i].id && t.cards[j].id == st.cards[j].id;
      }
      if t.selectedCard.Some? {
        assert t.cards[k].id == card.id && t.cards[k].isSelected && !t.cards[k].isMatched;
      }
    }
  }

  /** The delayed hide touches only the selection flags of the cards: a card ends selected
      exactly when it was selected and is either matched or neither of the two named cards.
      Every other field of every card, and all the rest of the game, stays. */
  lemma HideMismatchSpec(st: GameState, id1: string, id2: string)
    ensures st.HideMismatch(id1, id2) == st.(cards := st.HideMismatch(id1, id2).cards)
    ensures |st.HideMismatch(id1, id2).cards| == |st.cards|
    ensures forall i :: 0 <= i < |st.cards| ==>
      st.HideMismatch(id1, id2).cards[i].(isSelected := st.cards[i].isSelected) == st.cards[i]
    ensures forall i :: 0 <= i < |st.cards| ==>
      (st.HideMismatch(id1, id2).cards[i].isSelected <==>
        st.cards[i].isSelected && (st.cards[i].isMatched || (st.cards[i].id != id1 && st.cards[i].id != id2)))
  {
  }

  /** Turning back a mismatch keeps the game valid, since the pending selection is never one
      of the two cards turned back. */
  lemma HideMismatchValid(st: GameState, id1: string, id2: string)
    requires st.Valid()
    requires st.selectedCard.Some? ==> st.selectedCard.value.id != id1 && st.selectedCard.value.id != id2
    ensures st.HideMismatch(id1, id2).Valid()
  {
    var t := st.HideMismatch(id1, id2);
    if st.selectedCard.Some? {
      var i :| 0 <= i < |st.cards| && st.cards[i].id == st.selectedCard.value.id && st.cards[i].isSelected && !st.cards[i].isMatched;
      assert t.cards[i] == st.cards[i];
    }
  }

  /** After the "new game" button the clock stands still and every click is ignored, until
      the next start; the state stays valid. */
  lemma QuitSpec(st: GameState, k: nat, userId: int, now: Time)
    requires k < |st.cards|
    ensures var q := st.Quit();
      && !q.gameStarted && !q.ticking
      && q.Tick() == q
      && q.Click(k, userId, now) == (q, [])
      && q.cards == st.cards && q.moves == st.moves && q.matchedPairs == st.matchedPairs
      && (st.Valid() ==> q.Valid())
  {
  }

  /** A time below 100 minutes prints as five characters, minutes and seconds two digits
      each around a colon, and reads back as the same number of seconds. */
  lemma FormatTimeSpec(seconds: nat)
    requires seconds < 6000
    ensures var r := FormatTime(seconds);
      && |r| == 5 && r[2] == ':'
      && IsDigit(r[0]) && IsDigit(r[1]) && IsDigit(r[3]) && IsDigit(r[4])
      && 60 * DigitsValue([r[0], r[1]]) + DigitsValue([r[3], r[4]]) == seconds
  {
    var mins := seconds / 60;
    var secs := seconds % 60;
    TwoDigits(mins);
    TwoDigits(secs);
    var r := FormatTime(seconds);
    assert r == [Digit(mins / 10), Digit(mins % 10)] + ":" + [Digit(secs / 10), Digit(secs % 10)];
    TwoDigitsValue(mins);
    TwoDigitsValue(secs);
  }

  lemma TwoDigitsValue(n: nat)
    requires n < 100
    ensures DigitsValue([Digit(n / 10), Digit(n % 10)]) == n
  {
    var ds := [Digit(n / 10), Digit(n % 10)];
    assert ds[..1] == [Digit(n / 10)];
    assert ds[..1][..0] == [];
    assert Digit(n / 10) as int - '0' as int == n / 10;
    assert Digit(n % 10) as int - '0' as int == n % 10;
    assert DigitsValue(ds[..1]) == n / 10;
    assert DigitsValue(ds) == DigitsValue(ds[..1]) * 10 + n % 10;
  }

  /** The game screen, whose fields the handlers update in place. */
  class Game {
    var categoryId: string
    var difficulty: string
    var cards: seq<Card>
    var selectedCard: Option<Card>
    var matchedPairs: int
    var moves: int
    var gameStarted: bool
    var gameCompleted: bool
    var timer: int
    var ticking: bool

    function Model(): GameState
      reads this
    {
      GameState(categoryId, difficulty, cards, selectedCard, matchedPairs, moves, gameStarted, gameCompleted, timer, ticking)
    }

    constructor ()
      ensures Model() == InitialGame
    {
      categoryId, difficulty, cards, selectedCard := "all", "easy", [], None;
      matchedPairs, moves, gameStarted, gameCompleted, timer, ticking := 0, 0, false, false, 0, false;
    }

    method SelectCategory(id: string)
      modifies this
      ensures Model() == old(Model()).(categoryId := id)
    {
      categoryId := id;
    }

    method SelectDifficulty(level: string)
      modifies this
      ensures Model() == old(Model()).(difficulty := level)
    {
      difficulty := level;
    }

    /** `initializeGame`, with the two shuffles as inputs. */
    method InitializeGame(words: seq<WordWithProgress>, order: seq<nat>, shuffle: seq<nat>)
      requires Model().Shuffles(words, order, shuffle)
      modifies this
      ensures Model() == old(Model()).Initialize(words, order, shuffle)
    {
      var started, deck := NewDeck(Model(), words, order, shuffle);
      if started {
        cards, selectedCard, matchedPairs, moves := deck, None, 0, 0;
        gameStarted, gameCompleted, timer, ticking := true, false, 0, true;
      }
    }

    /** The deck of a new game, when there are enough words for one: the first pairs of the
        shuffled words, their cards dealt and then shuffled. */
    static method NewDeck(st: GameState, words: seq<WordWithProgress>, order: seq<nat>, shuffle: seq<nat>)
      returns (started: bool, deck: seq<Card>)
      requires st.Shuffles(words, order, shuffle)
      ensures var t := st.Initialize(words, order, shuffle);
        if started then t == st.(cards := deck, selectedCard := None, matchedPairs := 0, moves := 0,
          gameStarted := true, gameCompleted := false, timer := 0, ticking := true)
        else t == st
    {
      var filtered := CategoryWords(words, st.categoryId);
      var n := PairCount(st.difficulty);
      if |filtered| < n {
        return false, [];
      }
      var gameWords := Permute(filtered, order)[..n];
      var gameCards := DealCards(gameWords);
      DealLength(gameWords);
      started, deck := true, Permute(gameCards, shuffle);
    }

    /** The `forEach` that pushes the two cards of each chosen word. */
    static method DealCards(gameWords: seq<WordWithProgress>) returns (gameCards: seq<Card>)
      ensures gameCards == Deal(gameWords)
    {
      gameCards := [];
      for k := 0 to |gameWords|
        invariant gameCards == Deal(gameWords[..k])
      {
        assert gameWords[..k + 1][..k] == gameWords[..k];
        gameCards := gameCards + [OttomanCard(gameWords[k]), TurkishCard(gameWords[k])];
      }
      assert gameWords[..|gameWords|] == gameWords;
    }

    /** `handleCardClick` on card k; returns the progress answers it sends. */
    method HandleCardClick(k: nat, userId: int, now: Time) returns (posts: seq<InsertProgress>)
      requires k < |cards|
      modifies this
      ensures (Model(), posts) == old(Model()).Click(k, userId, now)
    {
      var card := cards[k];
      if !gameStarted || card.isMatched || card.isSelected || (selectedCard.Some? && selectedCard.value.id == card.id) {
        return [];
      }
      cards := MarkSelected(cards, card.id);
      if selectedCard.None? {
        selectedCard := Some(card);
        return [];
      }
      var first := selectedCard.value;
      moves := moves + 1;
      if first.wordId == card.wordId && first.isOttoman != card.isOttoman {
        cards := MarkMatched(cards, card.wordId);
        posts := [Answer(userId, card.wordId, true, now)];
        if matchedPairs + 1 == PairCount(difficulty) {
          gameCompleted := true;
          ticking := false;
        }
        matchedPairs := matchedPairs + 1;
      } else {
        var second := if first.wordId != card.wordId then [Answer(userId, card.wordId, false, now)] else [];
        posts := [Answer(userId, first.wordId, false, now)] + second;
      }
      selectedCard := None;
    }

    /** The delayed callback that turns a mismatched pair back. */
    method HideMismatch(id1: string, id2: string)
      modifies this
      ensures Model() == old(Model()).HideMismatch(id1, id2)
    {
      cards := Unselect(cards, id1, id2);
    }

    /** One tick of the interval timer. */
    method Tick()
      modifies this
      ensures Model() == old(Model()).Tick()
    {
      if ticking {
        timer := timer + 1;
      }
    }

    /** The "new game" button. */
    method QuitGame()
      modifies this
      ensures Model() == old(Model()).Quit()
    {
      gameStarted, ticking := false, false;
    }
  }
}
