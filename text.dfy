/**
 * The string operations of the JavaScript runtime that the core relies on:
 * `trim`, `toLowerCase`, `includes`, `startsWith`, `split`/`join`, the
 * `/\s+/` split, `parseInt(_, 10)`, `toString` and `padStart`.
 */
module Text {
  import opened Wrappers

  /** The code points JavaScript's `trim` strips and a regular expression's `\s` matches
      (WhiteSpace and LineTerminator of ECMAScript). */
  predicate IsWhitespace(c: char) {
    || c == ' ' || c == '\t' || c == '\n' || c == '\r' || c == '\U{000B}' || c == '\U{000C}'
    || c == '\U{00A0}' || c == '\U{1680}' || ('\U{2000}' <= c <= '\U{200A}')
    || c == '\U{2028}' || c == '\U{2029}' || c == '\U{202F}' || c == '\U{205F}'
    || c == '\U{3000}' || c == '\U{FEFF}'
  }

  predicate NoWhitespace(s: string) {
    forall k :: 0 <= k < |s| ==> !IsWhitespace(s[k])
  }

  /** Drops leading whitespace. */
  function TrimStart(s: string): string {
    if |s| > 0 && IsWhitespace(s[0]) then TrimStart(s[1..]) else s
  }

  /** Drops trailing whitespace. */
  function TrimEnd(s: string): string {
    if |s| > 0 && IsWhitespace(s[|s| - 1]) then TrimEnd(s[..|s| - 1]) else s
  }

  /** `TrimStart` drops exactly the leading run of whitespace: what it keeps is a suffix that
      is empty or starts with a non-whitespace character, and what it drops is whitespace.
      (Stated as a lemma rather than on the function so that the many contexts that only
      pass trimmed strings around need not reason about it.) */
  lemma {:induction false} TrimStartSpec(s: string)
    ensures var r := TrimStart(s);
      && |r| <= |s| && r == s[|s| - |r|..]
      && (r == [] || !IsWhitespace(r[0]))
      && forall k :: 0 <= k < |s| - |r| ==> IsWhitespace(s[k])
  {
    if |s| > 0 && IsWhitespace(s[0]) {
      var tail := s[1..];
      TrimStartSpec(tail);
      var r := TrimStart(tail);
      assert TrimStart(s) == r;
      assert tail[|tail| - |r|..] == s[|s| - |r|..];
      forall k | 0 <= k < |s| - |r|
        ensures IsWhitespace(s[k])
      {
        if k > 0 {
          assert s[k] == tail[k - 1];
        }
      }
    }
  }

  /** `TrimEnd` drops exactly the trailing run of whitespace. */
  lemma {:induction false} TrimEndSpec(s: string)
    ensures var r := TrimEnd(s);
      && |r| <= |s| && r == s[..|r|]
      && (r == [] || !IsWhitespace(r[|r| - 1]))
      && forall k :: |r| <= k < |s| ==> IsWhitespace(s[k])
  {
    if |s| > 0 && IsWhitespace(s[|s| - 1]) {
      var front := s[..|s| - 1];
      TrimEndSpec(front);
      var r := TrimEnd(front);
      assert TrimEnd(s) == r;
      assert front[..|r|] == s[..|r|];
      forall k | |r| <= k < |s|
        ensures IsWhitespace(s[k])
      {
        if k < |s| - 1 {
          assert s[k] == front[k];
        }
      }
    }
  }

  /** `String.prototype.trim`. */
  function Trim(s: string): string {
    TrimEnd(TrimStart(s))
  }

  /** A trimmed string neither starts nor ends with whitespace. */
  lemma TrimEnds(s: string)
    ensures var r := Trim(s); r == [] || (!IsWhitespace(r[0]) && !IsWhitespace(r[|r| - 1]))
  {
    var t := TrimStart(s);
    TrimStartHead(s);
    TrimEndEnds(t);
  }

  lemma {:induction false} TrimStartHead(s: string)
    ensures TrimStart(s) == [] || !IsWhitespace(TrimStart(s)[0])
  {
    if |s| > 0 && IsWhitespace(s[0]) {
      TrimStartHead(s[1..]);
    }
  }

  /** `TrimEnd` keeps the first character of what it does not empty, and leaves no
      whitespace at the end. */
  lemma {:induction false} TrimEndEnds(t: string)
    ensures var r := TrimEnd(t);
      r == [] || (r[0] == t[0] && !IsWhitespace(r[|r| - 1]))
  {
    if |t| > 0 && IsWhitespace(t[|t| - 1]) {
      TrimEndEnds(t[..|t| - 1]);
    }
  }

  /** A string that already has no whitespace at its ends is left as it is by `trim`. */
  lemma TrimOfTrimmed(s: string)
    requires s == [] || (!IsWhitespace(s[0]) && !IsWhitespace(s[|s| - 1]))
    ensures Trim(s) == s
  {
  }

  /** The lower-case form of one character. ASCII letters, the Latin-1 capitals and the
      Turkish capitals G-breve and S-cedilla map to their small letters; every other
      character, dotted capital I included, is left unchanged. */
  function LowerChar(c: char): char {
    if 'A' <= c <= 'Z' then (c as int + 32) as char
    else if '\U{00C0}' <= c <= '\U{00DE}' && c != '\U{00D7}' then (c as int + 32) as char
    else if c == '\U{011E}' || c == '\U{015E}' then (c as int + 1) as char
    else c
  }

  /** `String.prototype.toLowerCase` over the character map above. */
  function Lower(s: string): (r: string)
    ensures |r| == |s|
    ensures forall k :: 0 <= k < |s| ==> r[k] == LowerChar(s[k])
  {
    seq(|s|, k requires 0 <= k < |s| => LowerChar(s[k]))
  }

  /** t occurs in s starting at position k. */
  predicate OccursAt(s: string, t: string, k: int) {
    0 <= k && k + |t| <= |s| && s[k..k + |t|] == t
  }

  /** `s.includes(t)`: t occurs in s at some position. */
  predicate Contains(s: string, t: string)
    decreases |s|
  {
    t <= s || (|s| > 0 && Contains(s[1..], t))
  }

  /** `includes` agrees with the slice characterisation; in particular every string contains
      the empty string. */
  lemma {:induction false} ContainsIff(s: string, t: string)
    ensures Contains(s, t) <==> exists k :: OccursAt(s, t, k)
    decreases |s|
  {
    OccursAtStart(s, t);
    if t <= s {
    } else if |s| > 0 {
      ContainsIff(s[1..], t);
      if Contains(s[1..], t) {
        var k :| OccursAt(s[1..], t, k);
        OccursShift(s, t, k);
      } else {
        forall k | OccursAt(s, t, k)
          ensures false
        {
          if k > 0 {
            OccursShift(s, t, k - 1);
          }
        }
      }
    } else {
      forall k | OccursAt(s, t, k)
        ensures false
      {
      }
    }
  }

  /** Lower-casing both sides keeps every occurrence: when t occurs in s, the lower-cased t
      occurs in the lower-cased s at the same position. */
  lemma LowerContains(s: string, t: string)
    requires Contains(s, t)
    ensures Contains(Lower(s), Lower(t))
  {
    ContainsIff(s, t);
    var k :| OccursAt(s, t, k);
    assert Lower(s)[k..k + |t|] == Lower(t) by {
      forall j | 0 <= j < |t|
        ensures Lower(s)[k..k + |t|][j] == Lower(t)[j]
      {
        assert s[k..k + |t|][j] == t[j];
      }
    }
    assert OccursAt(Lower(s), Lower(t), k);
    ContainsIff(Lower(s), Lower(t));
  }

  lemma OccursAtStart(s: string, t: string)
    ensures OccursAt(s, t, 0) <==> t <= s
  {
  }

  lemma OccursShift(s: string, t: string, k: int)
    requires |s| > 0 && 0 <= k
    ensures OccursAt(s[1..], t, k) <==> OccursAt(s, t, k + 1)
  {
    if k + |t| <= |s[1..]| {
      var a := s[k + 1..k + 1 + |t|];
      var b := s[1..][k..k + |t|];
      forall j | 0 <= j < |t|
        ensures a[j] == b[j]
      {
      }
      assert a == b;
    }
  }

  /** The position of the first `c` in s, if any. */
  function IndexOf(s: string, c: char): (r: Option<nat>)
    ensures r.Some? ==> r.value < |s| && s[r.value] == c && c !in s[..r.value]
    ensures r.None? <==> c !in s
  {
    if |s| == 0 then None
    else if s[0] == c then Some(0)
    else match IndexOf(s[1..], c)
      case None => None
      case Some(k) => Some(k + 1)
  }

  /** `s.split(sep)` for a one-character separator: the pieces between separators, empty
      pieces included; there is always at least one piece. */
  function Split(s: string, sep: char): (r: seq<string>)
    ensures |r| >= 1
    ensures forall k :: 0 <= k < |r| ==> sep !in r[k]
    decreases |s|
  {
    match IndexOf(s, sep)
    case None => [s]
    case Some(k) => [s[..k]] + Split(s[k + 1..], sep)
  }

  /** `parts.join(sep)`. */
  function Join(parts: seq<string>, sep: char): string {
    if |parts| == 0 then ""
    else if |parts| == 1 then parts[0]
    else parts[0] + [sep] + Join(parts[1..], sep)
  }

  /** Splitting and re-joining with the same separator gives the string back. */
  lemma {:induction false} JoinSplit(s: string, sep: char)
    ensures Join(Split(s, sep), sep) == s
    decreases |s|
  {
    match IndexOf(s, sep)
    case None =>
    case Some(k) =>
      var rest := Split(s[k + 1..], sep);
      var parts := Split(s, sep);
      assert parts == [s[..k]] + rest;
      assert parts[1..] == rest;
      JoinSplit(s[k + 1..], sep);
      assert Join(parts, sep) == s[..k] + [sep] + Join(rest, sep);
      assert s == s[..k] + [sep] + s[k + 1..];
  }

  /** The first piece of a split is the text before the first separator; there is more than
      one piece exactly when the separator occurs, and then the remaining pieces re-join to
      the text after that separator. */
  lemma SplitFirst(s: string, sep: char)
    ensures var parts := Split(s, sep);
      match IndexOf(s, sep)
      case None => parts == [s]
      case Some(k) => |parts| > 1 && parts[0] == s[..k] && Join(parts[1..], sep) == s[k + 1..]
  {
    match IndexOf(s, sep)
    case None =>
    case Some(k) =>
      var parts := Split(s, sep);
      assert parts[1..] == Split(s[k + 1..], sep);
      JoinSplit(s[k + 1..], sep);
  }

  /** The length of the leading run of non-whitespace characters. */
  function RunLength(s: string): (n: nat)
    ensures n <= |s|
    ensures NoWhitespace(s[..n])
    ensures n < |s| ==> IsWhitespace(s[n])
  {
    if |s| == 0 || IsWhitespace(s[0]) then 0 else 1 + RunLength(s[1..])
  }

  /** `s.split(/\s+/)` on a string that has been trimmed and is not empty (the only way the
      importer uses it): the maximal runs of non-whitespace characters. */
  function Words(s: string): (r: seq<string>)
    ensures forall k :: 0 <= k < |r| ==> r[k] != [] && NoWhitespace(r[k])
    decreases |s|
  {
    if s == [] then []
    else if IsWhitespace(s[0]) then Words(s[1..])
    else
      var n := RunLength(s);
      [s[..n]] + Words(s[n..])
  }

  predicate AllWhitespace(s: string) {
    forall k :: 0 <= k < |s| ==> IsWhitespace(s[k])
  }

  /** The length of the leading run of whitespace. */
  function LeadingWhitespace(s: string): (n: nat)
    ensures n <= |s|
    ensures AllWhitespace(s[..n])
    ensures n < |s| ==> !IsWhitespace(s[n])
  {
    if |s| == 0 || !IsWhitespace(s[0]) then 0 else 1 + LeadingWhitespace(s[1..])
  }

  /** The non-whitespace characters of s, in order. */
  function Visible(s: string): string {
    if |s| == 0 then "" else (if IsWhitespace(s[0]) then "" else [s[0]]) + Visible(s[1..])
  }

  /** The pieces written one after the other. */
  function Concat(parts: seq<string>): string {
    if |parts| == 0 then "" else parts[0] + Concat(parts[1..])
  }

  /** The pieces are the maximal runs of non-whitespace characters of s: there are none
      exactly when s is all whitespace; otherwise the first piece starts after the leading
      whitespace and is followed by whitespace or the end of s, and the other pieces are
      those of what follows it. Written one after the other, the pieces are the
      non-whitespace characters of s in their order. */
  lemma WordsSpec(s: string)
    ensures Words(s) == [] <==> AllWhitespace(s)
    ensures Words(s) != [] ==>
      && LeadingWhitespace(s) + |Words(s)[0]| <= |s|
      && s[LeadingWhitespace(s)..LeadingWhitespace(s) + |Words(s)[0]|] == Words(s)[0]
      && (LeadingWhitespace(s) + |Words(s)[0]| == |s| || IsWhitespace(s[LeadingWhitespace(s) + |Words(s)[0]|]))
      && Words(s)[1..] == Words(s[LeadingWhitespace(s) + |Words(s)[0]|..])
    ensures Concat(Words(s)) == Visible(s)
  {
    WordsNone(s);
    if Words(s) != [] {
      WordsHead(s);
    }
    WordsVisible(s);
  }

  lemma {:induction false} WordsNone(s: string)
    ensures Words(s) == [] <==> AllWhitespace(s)
    decreases |s|
  {
    if s != [] {
      if IsWhitespace(s[0]) {
        WordsNone(s[1..]);
        assert AllWhitespace(s) <==> AllWhitespace(s[1..]) by {
          if AllWhitespace(s[1..]) {
            forall k | 0 <= k < |s| ensures IsWhitespace(s[k]) {
              if k > 0 { assert s[k] == s[1..][k - 1]; }
            }
          }
          if AllWhitespace(s) {
            forall k | 0 <= k < |s[1..]| ensures IsWhitespace(s[1..][k]) {
              assert s[1..][k] == s[k + 1];
            }
          }
        }
      } else {
        assert !AllWhitespace(s);
      }
    }
  }

  /** The first piece sits right after the leading whitespace and ends at whitespace or at
      the end of s; the remaining pieces are those of the text after it. */
  lemma {:induction false} WordsHead(s: string)
    requires Words(s) != []
    ensures LeadingWhitespace(s) + |Words(s)[0]| <= |s|
    ensures s[LeadingWhitespace(s)..LeadingWhitespace(s) + |Words(s)[0]|] == Words(s)[0]
    ensures LeadingWhitespace(s) + |Words(s)[0]| == |s| || IsWhitespace(s[LeadingWhitespace(s) + |Words(s)[0]|])
    ensures Words(s)[1..] == Words(s[LeadingWhitespace(s) + |Words(s)[0]|..])
  {
    var i := LeadingWhitespace(s);
    WordsSkip(s);
    var t := s[i..];
    assert t != [];
    var n := RunLength(t);
    assert Words(t) == [t[..n]] + Words(t[n..]);
    assert t[..n] == s[i..i + n];
    assert t[n..] == s[i + n..];
    if i + n < |s| {
      assert s[i + n] == t[n];
    }
  }

  /** Leading whitespace makes no piece. */
  lemma {:induction false} WordsSkip(s: string)
    ensures Words(s) == Words(s[LeadingWhitespace(s)..])
    decreases |s|
  {
    if s != [] && IsWhitespace(s[0]) {
      WordsSkip(s[1..]);
      assert s[1..][LeadingWhitespace(s[1..])..] == s[LeadingWhitespace(s)..];
    }
  }

  lemma {:induction false} WordsVisible(s: string)
    ensures Concat(Words(s)) == Visible(s)
    decreases |s|
  {
    if s != [] {
      if IsWhitespace(s[0]) {
        WordsVisible(s[1..]);
        assert Words(s) == Words(s[1..]);
      } else {
        var n := RunLength(s);
        var rest := s[n..];
        WordsVisible(rest);
        assert Words(s) == [s[..n]] + Words(rest);
        assert Concat(Words(s)) == s[..n] + Concat(Words(rest));
        assert s == s[..n] + rest;
        VisibleAppend(s[..n], rest);
        VisibleOfNoWhitespace(s[..n]);
      }
    }
  }

  lemma {:induction false} VisibleAppend(a: string, b: string)
    ensures Visible(a + b) == Visible(a) + Visible(b)
    decreases |a|
  {
    if |a| > 0 {
      var h := if IsWhitespace(a[0]) then "" else [a[0]];
      assert (a + b)[0] == a[0];
      assert (a + b)[1..] == a[1..] + b;
      VisibleAppend(a[1..], b);
      calc {
        Visible(a + b);
        h + Visible(a[1..] + b);
        h + (Visible(a[1..]) + Visible(b));
        (h + Visible(a[1..])) + Visible(b);
        Visible(a) + Visible(b);
      }
    } else {
      assert a + b == b;
    }
  }

  lemma {:induction false} VisibleOfNoWhitespace(a: string)
    requires NoWhitespace(a)
    ensures Visible(a) == a
    decreases |a|
  {
    if |a| > 0 {
      VisibleOfNoWhitespace(a[1..]);
    }
  }

  /** The text the word-list importer builds by appending `part + ' '` for each part in turn. */
  function Spaced(parts: seq<string>): string {
    if |parts| == 0 then "" else parts[0] + " " + Spaced(parts[1..])
  }

  /** Appending one more part and a space extends the spaced text. */
  lemma {:induction false} SpacedAppend(parts: seq<string>, part: string)
    ensures Spaced(parts + [part]) == Spaced(parts) + part + " "
  {
    if |parts| > 0 {
      assert (parts + [part])[1..] == parts[1..] + [part];
      SpacedAppend(parts[1..], part);
    }
  }

  /** Appending part and space for each part and trimming the result is joining with single
      spaces, when every part is a non-empty run without whitespace. */
  lemma {:induction false} TrimSpaced(parts: seq<string>)
    requires forall k :: 0 <= k < |parts| ==> parts[k] != [] && NoWhitespace(parts[k])
    ensures Trim(Spaced(parts)) == Join(parts, ' ')
  {
    if |parts| > 0 {
      SpacedIsJoin(parts);
      JoinEnds(parts);
      var j := Join(parts, ' ');
      var t := j + " ";
      assert TrimStart(t) == t;
      assert t[..|t| - 1] == j;
      assert TrimEnd(t) == TrimEnd(j);
    }
  }

  lemma {:induction false} SpacedIsJoin(parts: seq<string>)
    requires |parts| > 0
    ensures Spaced(parts) == Join(parts, ' ') + " "
  {
    if |parts| > 1 {
      SpacedIsJoin(parts[1..]);
    }
  }

  /** A join of non-empty whitespace-free parts starts with the first character of the first
      part and ends with the last character of the last part. */
  lemma {:induction false} JoinEnds(parts: seq<string>)
    requires |parts| > 0
    requires forall k :: 0 <= k < |parts| ==> parts[k] != [] && NoWhitespace(parts[k])
    ensures var j := Join(parts, ' ');
      |j| > 0 && j[0] == parts[0][0] && j[|j| - 1] == parts[|parts| - 1][|parts[|parts| - 1]| - 1]
      && !IsWhitespace(j[0]) && !IsWhitespace(j[|j| - 1])
  {
    if |parts| > 1 {
      JoinEnds(parts[1..]);
    }
  }

  /** The ASCII digit character of d. */
  function Digit(d: nat): char
    requires d < 10
  {
    ('0' as int + d) as char
  }

  predicate IsDigit(c: char) {
    '0' <= c <= '9'
  }

  /** `n.toString()` for a non-negative integer. */
  function NatToString(n: nat): (r: string)
    ensures |r| >= 1 && forall k :: 0 <= k < |r| ==> IsDigit(r[k])
  {
    if n < 10 then [Digit(n)] else NatToString(n / 10) + [Digit(n % 10)]
  }

  /** `n.toString()` for any integer. */
  function IntToString(n: int): (r: string)
    ensures |r| >= 1
  {
    if n < 0 then "-" + NatToString(-n) else NatToString(n)
  }

  /** `s.padStart(width, c)`. */
  function PadStart(s: string, width: nat, c: char): (r: string)
    ensures |r| == if |s| >= width then |s| else width
    ensures s <= r[|r| - |s|..] && forall k :: 0 <= k < |r| - |s| ==> r[k] == c
  {
    if |s| >= width then s else seq(width - |s|, _ => c) + s
  }

  /** The value of a string of decimal digits. */
  function DigitsValue(ds: string): nat
    requires forall k :: 0 <= k < |ds| ==> IsDigit(ds[k])
  {
    if |ds| == 0 then 0
    else
      var last := ds[|ds| - 1];
      assert IsDigit(last);
      DigitsValue(ds[..|ds| - 1]) * 10 + (last as int - '0' as int)
  }

  /** The length of the leading run of decimal digits. */
  function DigitRun(s: string): (n: nat)
    ensures n <= |s| && forall k :: 0 <= k < n ==> IsDigit(s[k])
    ensures n < |s| ==> !IsDigit(s[n])
  {
    if |s| == 0 || !IsDigit(s[0]) then 0 else 1 + DigitRun(s[1..])
  }

  /** `parseInt(s, 10)`: leading whitespace is skipped, a sign is optional, and the value is
      that of the leading digits; None stands for NaN when there are no digits. */
  function ParseInt(s: string): Option<int> {
    var t := TrimStart(s);
    var negative := |t| > 0 && t[0] == '-';
    var u := if |t| > 0 && (t[0] == '-' || t[0] == '+') then t[1..] else t;
    var n := DigitRun(u);
    if n == 0 then None
    else
      var v: int := DigitsValue(u[..n]);
      Some(if negative then -v else v)
  }

  lemma {:induction false} DigitsValueOfNatToString(n: nat)
    ensures DigitsValue(NatToString(n)) == n
  {
    if n >= 10 {
      DigitsValueOfNatToString(n / 10);
      var r := NatToString(n);
      assert r[..|r| - 1] == NatToString(n / 10);
    }
  }

  lemma {:induction false} AllDigitsRun(s: string)
    requires forall k :: 0 <= k < |s| ==> IsDigit(s[k])
    ensures DigitRun(s) == |s|
  {
    if |s| > 0 {
      AllDigitsRun(s[1..]);
    }
  }

  /** Printing a number and parsing it back gives the number. */
  lemma ParseIntNatToString(n: nat)
    ensures ParseInt(NatToString(n)) == Some(n)
  {
    var r := NatToString(n);
    assert !IsWhitespace(r[0]) by { assert IsDigit(r[0]); }
    assert TrimStart(r) == r;
    assert r[0] != '-' && r[0] != '+' by { assert IsDigit(r[0]); }
    AllDigitsRun(r);
    assert r[..|r|] == r;
    DigitsValueOfNatToString(n);
  }

  /** A number below 100 padded to two places is its tens digit followed by its units digit. */
  lemma TwoDigits(n: nat)
    requires n < 100
    ensures PadStart(NatToString(n), 2, '0') == [Digit(n / 10), Digit(n % 10)]
  {
    if n >= 10 {
      assert NatToString(n / 10) == [Digit(n / 10)];
    }
  }

  /** Printing any integer and parsing it back gives the integer. */
  lemma ParseIntIntToString(n: int)
    ensures ParseInt(IntToString(n)) == Some(n)
  {
    if n >= 0 {
      ParseIntNatToString(n);
    } else {
      var d := NatToString(-n);
      var r := "-" + d;
      assert TrimStart(r) == r;
      assert r[1..] == d;
      AllDigitsRun(d);
      assert d[..|d|] == d;
      DigitsValueOfNatToString(-n);
    }
  }

  /** Different integers print differently. */
  lemma IntToStringInjective(a: int, b: int)
    requires IntToString(a) == IntToString(b)
    ensures a == b
  {
    ParseIntIntToString(a);
    ParseIntIntToString(b);
  }
}
