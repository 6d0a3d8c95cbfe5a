/**
 * The word-list extractor: reads a text in which each word takes two lines (the Ottoman
 * line, then the Turkish line) after a header line, and emits one record per pair.
 * Reading the file and writing the JSON result are not part of the model; the input is
 * the file's text.
 */
module ExtractWords {
  import opened Text
  import opened Schema
  import opened Seqs

  /** A line that continues the previous explanation: it starts with one of four known
      phrases. The extractor steps over such a line alone. */
  predicate IsContinuation(line: string) {
    || "i\U{015F}lemlerini yapan b\U{00FC}ro" <= line
    || "Hazine-i hassa; padi\U{015F}ah hazine" <= line
    || "g\U{00F6}stermek \U{00FC}zere verilen belge" <= line
    || "g\U{00F6}steren yaz\U{0131}l\U{0131} emir" <= line
  }

  /** `parts = line.split(' ')` read as the first piece and the other pieces re-joined with
      single spaces (empty when there is only one piece): the text before the first space
      and the text after it. */
  function FirstAndRest(line: string): (string, string) {
    match IndexOf(line, ' ')
    case None => (line, "")
    case Some(k) => (line[..k], line[k + 1..])
  }

  /** The combined meaning: both remainders as "om (tm)", else whichever is not empty. */
  function CombineMeaning(ottomanMeaning: string, turkishMeaning: string): string {
    if ottomanMeaning != "" && turkishMeaning != "" then ottomanMeaning + " (" + turkishMeaning + ")"
    else if ottomanMeaning != "" then ottomanMeaning
    else if turkishMeaning != "" then turkishMeaning
    else ""
  }

  /** The record of a pair of trimmed lines. */
  function PairRecord(line1: string, line2: string): RawWord {
    var (ottoman, ottomanMeaning) := FirstAndRest(line1);
    var (turkish, turkishMeaning) := FirstAndRest(line2);
    RawWord(ottoman, turkish, CombineMeaning(ottomanMeaning, turkishMeaning))
  }

  /** A string with no whitespace at either end, as `trim` leaves it. */
  predicate IsTrimmed(line: string) {
    line == [] || (!IsWhitespace(line[0]) && !IsWhitespace(line[|line| - 1]))
  }

  /** `lines[k].trim()` for every line. */
  function TrimLines(lines: seq<string>): (r: seq<string>)
    ensures |r| == |lines| && forall k :: 0 <= k < |lines| ==> r[k] == Trim(lines[k]) && IsTrimmed(r[k])
  {
    seq(|lines|, k requires 0 <= k < |lines| => TrimEndsOf(lines[k]))
  }

  /** `line.trim()`, with the fact that it is trimmed. */
  function TrimEndsOf(line: string): (r: string)
    ensures r == Trim(line) && IsTrimmed(r)
  {
    TrimEnds(line);
    Trim(line)
  }

  /** One turn of the scan at a line and the line after it, both trimmed: how far the index
      advances and what is emitted. A continuation line is stepped over alone; a pair with
      an empty line is skipped; any other pair gives its record when both of its first
      pieces are non-empty. */
  function ScanStep(line1: string, line2: string): (r: (nat, seq<RawWord>))
    ensures r.0 == 1 || r.0 == 2
    ensures |r.1| <= 1 && (|r.1| == 1 ==> r.0 == 2)
  {
    if IsContinuation(line1) then (1, [])
    else if line1 == "" || line2 == "" then (2, [])
    else
      var r := PairRecord(line1, line2);
      if r.ottoman != "" && r.turkish != "" then (2, [r]) else (2, [])
  }

  /** The records the scan emits from (trimmed) line i on; it stops before the last line.
      Every record uses up two lines, so there are at most half as many records as lines
      from i on. */
  function ExtractFrom(trimmed: seq<string>, i: nat): (r: seq<RawWord>)
    ensures |r| > 0 ==> 2 * |r| + i <= |trimmed|
    decreases |trimmed| - i
  {
    if i >= |trimmed| - 1 then []
    else
      var step := ScanStep(trimmed[i], trimmed[i + 1]);
      step.1 + ExtractFrom(trimmed, i + step.0)
  }

  /** The whole file: split into lines, header skipped. */
  function Extracted(content: string): seq<RawWord> {
    ExtractFrom(TrimLines(Split(content, '\n')), 1)
  }

  /** The extractor: the file split into lines, then scanned. */
  method Extract(content: string) returns (words: seq<RawWord>)
    ensures words == Extracted(content)
  {
    var lines := Split(content, '\n');
    words := ScanLines(lines);
  }

  /** The extractor's loop: i starts after the header and advances by one past a
      continuation line and by two past every pair. */
  method ScanLines(lines: seq<string>) returns (words: seq<RawWord>)
    ensures words == ExtractFrom(TrimLines(lines), 1)
  {
    ghost var all := ExtractFrom(TrimLines(lines), 1);
    words := [];
    AppendEmpty(all);
    var i := 1;
    while i < |lines| - 1
      invariant 1 <= i
      invariant words + ExtractFrom(TrimLines(lines), i) == all
      decreases |lines| - i
    {
      var advance, emitted := ScanLine(lines, i);
      ghost var rest := ExtractFrom(TrimLines(lines), i + advance);
      AppendAssoc(words, emitted, rest);
      words := words + emitted;
      i := i + advance;
    }
  }

  /** One unfolding of the scan at line i. */
  lemma ExtractStep(trimmed: seq<string>, i: nat)
    requires i < |trimmed| - 1
    ensures var step := ScanStep(trimmed[i], trimmed[i + 1]);
      ExtractFrom(trimmed, i) == step.1 + ExtractFrom(trimmed, i + step.0)
  {
  }

  /** One turn of the loop at line i: what it emits, followed by what the scan emits from
      where it moves i, is what the scan emits from line i. */
  method ScanLine(lines: seq<string>, i: nat) returns (advance: nat, emitted: seq<RawWord>)
    requires i < |lines| - 1
    ensures advance == 1 || advance == 2
    ensures emitted + ExtractFrom(TrimLines(lines), i + advance) == ExtractFrom(TrimLines(lines), i)
  {
    var line1 := Trim(lines[i]);
    advance, emitted := ScanPair(line1, lines[i + 1]);
    ghost var trimmed := TrimLines(lines);
    assert trimmed[i] == line1 && trimmed[i + 1] == Trim(lines[i + 1]);
    ExtractStep(trimmed, i);
  }

  /** The body of the loop for a trimmed line and the raw line after it: the continuation
      check, the empty-line check and the parse of the pair, with how far i advances. */
  method ScanPair(line1: string, next: string) returns (advance: nat, emitted: seq<RawWord>)
    ensures (advance, emitted) == ScanStep(line1, Trim(next))
  {
    if IsContinuation(line1) {
      return 1, [];
    }
    var line2 := Trim(next);
    if line1 == "" || line2 == "" {
      return 2, [];
    }
    var ottoman, turkish, meaning := ParsePair(line1, line2);
    emitted := [];
    if ottoman != "" && turkish != "" {
      emitted := [RawWord(ottoman, turkish, meaning)];
    }
    advance := 2;
  }

  /** The body of the scan for a pair of non-empty lines: the first single-space piece of
      each line, and the meaning combined from what follows them. */
  method ParsePair(line1: string, line2: string) returns (ottoman: string, turkish: string, meaning: string)
    ensures RawWord(ottoman, turkish, meaning) == PairRecord(line1, line2)
  {
    var ottomanMeaning, turkishMeaning;
    ottoman, ottomanMeaning := SplitHead(line1);
    turkish, turkishMeaning := SplitHead(line2);
    meaning := "";
    if ottomanMeaning != "" && turkishMeaning != "" {
      meaning := ottomanMeaning + " (" + turkishMeaning + ")";
    } else if ottomanMeaning != "" {
      meaning := ottomanMeaning;
    } else if turkishMeaning != "" {
      meaning := turkishMeaning;
    }
  }

  /** `parts = line.split(' ')`, then `parts[0]` and `parts.slice(1).join(' ')` (empty when
      there is one piece). */
  method SplitHead(line: string) returns (head: string, rest: string)
    ensures (head, rest) == FirstAndRest(line)
  {
    SplitFirst(line, ' ');
    var parts := Split(line, ' ');
    head := parts[0];
    rest := if |parts| > 1 then Join(parts[1..], ' ') else "";
  }

  // ---- properties

  /** For a trimmed, non-empty line: the first piece is non-empty and has no space; without
      a space it is the whole line; with one, the line is the first piece, a space and the
      remainder, and the remainder is not empty. */
  lemma FirstAndRestSpec(line: string)
    requires line != [] && IsTrimmed(line)
    ensures var (head, rest) := FirstAndRest(line);
      && head != "" && ' ' !in head
      && (' ' !in line ==> head == line && rest == "")
      && (' ' in line ==> line == head + " " + rest && rest != "")
  {
    match IndexOf(line, ' ')
    case None =>
    case Some(k) =>
      assert IsWhitespace(' ');
      assert k != 0 && k != |line| - 1;
      assert line == line[..k] + " " + line[k + 1..];
  }

  /** The record of two non-empty trimmed lines: its Ottoman and Turkish words are the
      lines' text up to the first space, never empty, and its meaning follows the
      combination rule on the text after those spaces. */
  lemma PairRecordSpec(line1: string, line2: string)
    requires line1 != "" && line2 != "" && IsTrimmed(line1) && IsTrimmed(line2)
    ensures var r := PairRecord(line1, line2);
      && r.ottoman != "" && r.turkish != ""
      && ' ' !in r.ottoman && ' ' !in r.turkish
      && r.ottoman <= line1 && r.turkish <= line2
      && (' ' !in line1 && ' ' !in line2 ==> r.meaning == "")
      && (' ' in line1 && ' ' in line2 ==>
        line1 == r.ottoman + " " + line1[|r.ottoman| + 1..]
        && r.meaning == line1[|r.ottoman| + 1..] + " (" + line2[|r.turkish| + 1..] + ")")
      && (' ' in line1 && ' ' !in line2 ==> r.meaning == line1[|r.ottoman| + 1..])
      && (' ' !in line1 && ' ' in line2 ==> r.meaning == line2[|r.turkish| + 1..])
  {
    FirstAndRestSpec(line1);
    FirstAndRestSpec(line2);
    var (o, om) := FirstAndRest(line1);
    var (t, tm) := FirstAndRest(line2);
    if ' ' in line1 {
      assert line1[|o| + 1..] == om;
    }
    if ' ' in line2 {
      assert line2[|t| + 1..] == tm;
    }
  }

  /** Record e comes from the pair of trimmed lines k and k + 1. */
  ghost predicate FromPair(trimmed: seq<string>, k: int, e: RawWord) {
    && 0 <= k < |trimmed| - 1
    && trimmed[k] != "" && trimmed[k + 1] != "" && !IsContinuation(trimmed[k])
    && e == PairRecord(trimmed[k], trimmed[k + 1])
  }

  /** A record has both words and comes from a pair of lines at or after i. */
  ghost predicate SourcedFrom(trimmed: seq<string>, i: int, e: RawWord) {
    e.ottoman != "" && e.turkish != "" && exists k :: i <= k && FromPair(trimmed, k, e)
  }

  /** Every record comes from a pair of non-empty lines at or after i whose first line is
      not a continuation; both its words are non-empty. */
  lemma {:induction false} ExtractedRecords(trimmed: seq<string>, i: nat, e: RawWord)
    requires e in ExtractFrom(trimmed, i)
    ensures SourcedFrom(trimmed, i, e)
    decreases |trimmed| - i
  {
    var step := ScanStep(trimmed[i], trimmed[i + 1]);
    ExtractStep(trimmed, i);
    if e in step.1 {
      assert FromPair(trimmed, i, e);
    } else {
      assert e in ExtractFrom(trimmed, i + step.0);
      ExtractedRecords(trimmed, i + step.0, e);
      SourcedEarlier(trimmed, i, i + step.0, e);
    }
  }

  lemma SourcedEarlier(trimmed: seq<string>, i: int, j: int, e: RawWord)
    requires i <= j && SourcedFrom(trimmed, j, e)
    ensures SourcedFrom(trimmed, i, e)
  {
    var k :| j <= k && FromPair(trimmed, k, e);
    assert i <= k;
  }

  /** The check that both words are non-empty never drops a pair: every pair of non-empty
      trimmed lines whose first line is not a continuation gives its record, and the scan
      goes on two lines further. */
  lemma PairAlwaysEmitted(lines: seq<string>, i: nat)
    requires i < |lines| - 1
    requires var trimmed := TrimLines(lines);
      !IsContinuation(trimmed[i]) && trimmed[i] != "" && trimmed[i + 1] != ""
    ensures var trimmed := TrimLines(lines);
      ExtractFrom(trimmed, i) == [PairRecord(trimmed[i], trimmed[i + 1])] + ExtractFrom(trimmed, i + 2)
  {
    var trimmed := TrimLines(lines);
    PairRecordSpec(trimmed[i], trimmed[i + 1]);
  }

  /** A file never gives more records than half its lines after the header, and each of
      them comes from two consecutive lines after the header. */
  lemma ExtractedSpec(content: string)
    ensures var lines := Split(content, '\n');
      var r := Extracted(content);
      && 2 * |r| <= |lines| - 1
      && forall e :: e in r ==>
        e.ottoman != "" && e.turkish != "" && exists k :: 1 <= k && FromPair(TrimLines(lines), k, e)
  {
    var lines := Split(content, '\n');
    forall e | e in Extracted(content)
      ensures SourcedFrom(TrimLines(lines), 1, e)
    {
      ExtractedRecords(TrimLines(lines), 1, e);
    }
  }
}
