/**
 * The second word-list importer: drops the blank lines of a text, skips the header line,
 * and reads every other line as two words, splitting its whitespace-separated tokens at
 * the midpoint. Reading the file and writing the JSON result are not part of the model;
 * the input is the file's text.
 */
module ImportAllWords {
  import opened Text
  import opened Schema
  import opened Seqs

  /** `line.trim() !== ''`. */
  predicate NonBlank(line: string) {
    Trim(line) != ""
  }

  /** The lines of the text with the blank ones dropped. */
  function NonBlankLines(content: string): seq<string> {
    Filter(Split(content, '\n'), NonBlank)
  }

  /** The record for token w with the given meaning text: the Turkish form is the token
      lower-cased. */
  function TokenRecord(w: string, meaning: string): RawWord {
    RawWord(w, Lower(w), Trim(meaning))
  }

  /** `line.trim().split(/\s+/)`: the whitespace-separated tokens of the line. */
  function LineTokens(line: string): seq<string> {
    Words(Trim(line))
  }

  /** The records a line with these tokens gives: none with fewer than two tokens; otherwise
      a record for the first token, whose meaning runs up to the midpoint token, and, when
      there is a token at the midpoint, a record for it, whose meaning is the rest of the
      line. */
  function TokenRecords(parts: seq<string>): seq<RawWord> {
    if |parts| < 2 then []
    else
      var mid := |parts| / 2;
      [TokenRecord(parts[0], Spaced(parts[1..mid]))]
      + (if |parts| > mid then [TokenRecord(parts[mid], Spaced(parts[mid + 1..]))] else [])
  }

  /** The records one line gives. */
  function LineRecords(line: string): seq<RawWord> {
    TokenRecords(LineTokens(line))
  }

  /** The records of lines i onwards, in line order. */
  function RecordsFrom(lines: seq<string>, i: nat): seq<RawWord>
    decreases |lines| - i
  {
    if i >= |lines| then [] else LineRecords(lines[i]) + RecordsFrom(lines, i + 1)
  }

  /** The whole text: blank lines dropped, then every line after the first. */
  function Imported(content: string): seq<RawWord> {
    RecordsFrom(NonBlankLines(content), 1)
  }

  /** The importer. */
  method ImportAll(content: string) returns (words: seq<RawWord>)
    ensures words == Imported(content)
  {
    var lines := Filter(Split(content, '\n'), NonBlank);
    words := ImportLines(lines);
  }

  /** The importer's outer loop over the non-blank lines, header skipped. */
  method ImportLines(lines: seq<string>) returns (words: seq<RawWord>)
    ensures words == RecordsFrom(lines, 1)
  {
    ghost var all := RecordsFrom(lines, 1);
    words := [];
    AppendEmpty(all);
    var i := 1;
    while i < |lines|
      invariant 1 <= i
      invariant words + RecordsFrom(lines, i) == all
      decreases |lines| - i
    {
      var records := ParseLine(lines[i]);
      ghost var rest := RecordsFrom(lines, i + 1);
      AppendAssoc(words, records, rest);
      words := words + records;
      i := i + 1;
    }
  }

  /** The body of the outer loop: the line trimmed and split at whitespace. */
  method ParseLine(raw: string) returns (records: seq<RawWord>)
    ensures records == LineRecords(raw)
  {
    var line := Trim(raw);
    var parts := Words(line);
    records := ParseTokens(parts);
  }

  /** The records of a line's tokens: the first token with the meaning built from the
      tokens before the midpoint, then the midpoint token with the meaning built from the
      tokens after it. */
  method ParseTokens(parts: seq<string>) returns (records: seq<RawWord>)
    ensures records == TokenRecords(parts)
  {
    if |parts| < 2 {
      return [];
    }
    var word1 := parts[0];
    var mid := |parts| / 2;
    var meaning1 := BuildMeaning(parts, 1, mid);
    var first := RawWord(word1, Lower(word1), Trim(meaning1));
    var second: seq<RawWord> := [];
    if |parts| > mid {
      var word2 := parts[mid];
      var meaning2 := BuildMeaning(parts, mid + 1, |parts|);
      second := [RawWord(word2, Lower(word2), Trim(meaning2))];
    }
    records := [first] + second;
  }

  /** An inner loop: each token from lo up to hi, each followed by a space. */
  method BuildMeaning(parts: seq<string>, lo: nat, hi: nat) returns (meaning: string)
    requires lo <= hi <= |parts|
    ensures meaning == Spaced(parts[lo..hi])
    ensures hi == |parts| ==> meaning == Spaced(parts[lo..])
  {
    assert hi == |parts| ==> parts[lo..hi] == parts[lo..];
    meaning := "";
    for j := lo to hi
      invariant meaning == Spaced(parts[lo..j])
    {
      SpacedAppend(parts[lo..j], parts[j]);
      assert parts[lo..j + 1] == parts[lo..j] + [parts[j]];
      meaning := meaning + parts[j] + " ";
    }
  }

  // ---- properties

  /** The meaning of a token record built from whitespace-free tokens is those tokens
      joined by single spaces. */
  lemma TokenRecordSpec(w: string, tokens: seq<string>)
    requires forall k :: 0 <= k < |tokens| ==> tokens[k] != [] && NoWhitespace(tokens[k])
    ensures TokenRecord(w, Spaced(tokens)) == RawWord(w, Lower(w), Join(tokens, ' '))
  {
    TrimSpaced(tokens);
  }

  /** A line with fewer than two tokens gives nothing; any other line gives exactly two
      records, since the midpoint is always a token of the line. The first is for the first
      token, with the tokens before the midpoint as its meaning; the second is for the
      midpoint token, with the tokens after it. Both words are tokens of the line (not
      empty, no whitespace), and each Turkish form is the lower-cased word. */
  lemma LineRecordsSpec(line: string)
    ensures var parts := LineTokens(line);
      var r := LineRecords(line);
      && (|parts| < 2 ==> r == [])
      && (|parts| >= 2 ==>
        var mid := |parts| / 2;
        && 1 <= mid < |parts|
        && r == [RawWord(parts[0], Lower(parts[0]), Join(parts[1..mid], ' ')),
                 RawWord(parts[mid], Lower(parts[mid]), Join(parts[mid + 1..], ' '))])
      && forall e :: e in r ==> e.ottoman != "" && NoWhitespace(e.ottoman) && e.turkish == Lower(e.ottoman)
  {
    var parts := LineTokens(line);
    if |parts| >= 2 {
      var mid := |parts| / 2;
      TokenRecordSpec(parts[0], parts[1..mid]);
      TokenRecordSpec(parts[mid], parts[mid + 1..]);
    }
  }

  /** Zero records for fewer than two tokens, else two. */
  lemma TokenRecordsCount(parts: seq<string>)
    ensures |TokenRecords(parts)| == if |parts| < 2 then 0 else 2
  {
  }

  /** The number of lines from i on that have at least two tokens. */
  function TwoTokenLines(lines: seq<string>, i: nat): (n: nat)
    ensures n <= |lines| - i || i >= |lines|
    decreases |lines| - i
  {
    if i >= |lines| then 0
    else (if |LineTokens(lines[i])| >= 2 then 1 else 0) + TwoTokenLines(lines, i + 1)
  }

  /** Every line with at least two tokens gives exactly two records and every other line
      none, so the records of lines i onwards number twice those lines. */
  lemma {:induction false} RecordsFromCount(lines: seq<string>, i: nat)
    ensures |RecordsFrom(lines, i)| == 2 * TwoTokenLines(lines, i)
    decreases |lines| - i
  {
    if i < |lines| {
      TokenRecordsCount(LineTokens(lines[i]));
      RecordsFromCount(lines, i + 1);
    }
  }

  /** Every record of lines i onwards is one of the records of one of those lines. */
  lemma {:induction false} RecordsFromOrigin(lines: seq<string>, i: nat)
    ensures forall e :: e in RecordsFrom(lines, i) ==> exists k :: i <= k < |lines| && e in LineRecords(lines[k])
    decreases |lines| - i
  {
    if i < |lines| {
      RecordsFromOrigin(lines, i + 1);
    }
  }

  /** The records depend only on the lines from i on: in particular the header line never
      contributes. */
  lemma {:induction false} RecordsFromSuffix(a: seq<string>, b: seq<string>, i: nat)
    requires |a| == |b| && i <= |a| && a[i..] == b[i..]
    ensures RecordsFrom(a, i) == RecordsFrom(b, i)
    decreases |a| - i
  {
    if i < |a| {
      assert a[i] == a[i..][0] == b[i..][0] == b[i];
      assert a[i + 1..] == a[i..][1..];
      assert b[i + 1..] == b[i..][1..];
      RecordsFromSuffix(a, b, i + 1);
    }
  }

  /** The lines read are the non-blank lines of the text, in their order, each as often as
      it occurs in the text; blank lines never. */
  lemma NonBlankLinesSpec(content: string)
    ensures var lines := NonBlankLines(content);
      && (forall l :: l in lines <==> l in Split(content, '\n') && Trim(l) != "")
      && (forall l :: multiset(lines)[l] == if Trim(l) != "" then multiset(Split(content, '\n'))[l] else 0)
      && IsSubsequence(lines, Split(content, '\n'))
  {
    FilterIsSubsequence(Split(content, '\n'), NonBlank);
    FilterMultiset(Split(content, '\n'), NonBlank);
  }

  /** A text gives two records for every non-blank line after the first that has at least
      two tokens, so an even number and at most two per line; each comes from one of those
      lines. */
  lemma ImportedSpec(content: string)
    ensures var lines := NonBlankLines(content);
      var r := Imported(content);
      && |r| == 2 * TwoTokenLines(lines, 1)
      && (|lines| >= 1 ==> |r| <= 2 * (|lines| - 1))
      && forall e :: e in r ==> exists k :: 1 <= k < |lines| && e in LineRecords(lines[k])
  {
    var lines := NonBlankLines(content);
    RecordsFromCount(lines, 1);
    RecordsFromOrigin(lines, 1);
  }
}
