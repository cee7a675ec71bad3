/// Splitting, white space and numerals as JavaScript treats them.
module Text {
  import opened Prelude

  predicate NoNewline(s: string) {
    '\n' !in s
  }

  /** Drops the carriage return a `\r\n` break consumes. */
  function StripCr(s: string): (t: string)
    ensures t == s || s == t + ['\r']
  {
    if s != [] && Last(s) == '\r' then Init(s) else s
  }

  /** One more character: it either extends the last part or closes it. */
  function SplitStep(parts: seq<string>, c: char): (r: seq<string>)
    requires parts != []
    ensures r != []
  {
    if c == '\n' then Init(parts) + [StripCr(Last(parts)), ""]
    else Init(parts) + [Last(parts) + [c]]
  }

  /** The parts of a text between its line breaks; the last part is the unfinished line. */
  function SplitLines(s: string): (parts: seq<string>)
    ensures parts != []
  {
    if s == [] then [""] else SplitStep(SplitLines(Init(s)), Last(s))
  }

  /** Lines, each but the last with a break behind it. */
  function Broken(lines: seq<string>, breaks: seq<string>): string
    requires |lines| == |breaks| + 1
  {
    if breaks == [] then lines[0] else Broken(Init(lines), Init(breaks)) + Last(breaks) + Last(lines)
  }

  /** A line that a break can follow: it holds no line feed and does not end in a carriage return. */
  predicate IsLine(s: string) {
    NoNewline(s) && (s != "" ==> Last(s) != '\r')
  }

  lemma {:induction false} SplitGrows(s: string, line: string)
    requires NoNewline(line)
    ensures SplitLines(s + line) == Init(SplitLines(s)) + [Last(SplitLines(s)) + line]
  {
    var parts := SplitLines(s);
    if line == "" {
      assert s + line == s && Last(parts) + line == Last(parts) && parts == Init(parts) + [Last(parts)];
    } else {
      SplitGrows(s, Init(line));
      InitOfConcat(s, line);
      InitOfConcat(Last(parts), line);
      assert line == Init(line) + [Last(line)];
      var grown := Init(parts) + [Last(parts) + Init(line)];
      assert Init(grown) == Init(parts) && Last(grown) == Last(parts) + Init(line);
      ConcatAssociates(Last(parts), Init(line), [Last(line)]);
    }
  }

  lemma {:induction false} SplitFeed(s: string)
    ensures SplitLines(s + "\n") == Init(SplitLines(s)) + [StripCr(Last(SplitLines(s))), ""]
  {
    assert Init(s + "\n") == s;
  }

  lemma StripReturn(line: string)
    ensures StripCr(line + "\r") == line
  {
    assert Init(line + "\r") == line;
  }

  lemma {:induction false} SplitBreaks(s: string, br: string)
    requires IsLine(Last(SplitLines(s))) && (br == "\n" || br == "\r\n")
    ensures SplitLines(s + br) == SplitLines(s) + [""]
  {
    var parts := SplitLines(s);
    var front, line := Init(parts), Last(parts);
    assert parts + [""] == front + [line, ""];
    if br == "\n" {
      SplitFeed(s);
    } else {
      SplitGrows(s, "\r");
      SplitFeed(s + "\r");
      StripReturn(line);
      assert Init(front + [line + "\r"]) == front;
      assert s + br == s + "\r" + "\n";
    }
  }

  lemma {:induction false} SplitBehind(s: string, lines: seq<string>, line: string)
    requires SplitLines(s) == lines + [""] && NoNewline(line)
    ensures SplitLines(s + line) == lines + [line]
  {
    SplitGrows(s, line);
    assert Init(lines + [""]) == lines && "" + line == line;
  }

  /** Splitting finds the lines, whichever of the two breaks stands behind each. */
  lemma {:induction false} SplitLinesOf(lines: seq<string>, breaks: seq<string>)
    requires |lines| == |breaks| + 1 && NoNewline(Last(lines))
    requires forall k | 0 <= k < |breaks| :: IsLine(lines[k]) && (breaks[k] == "\n" || breaks[k] == "\r\n")
    ensures SplitLines(Broken(lines, breaks)) == lines
  {
    if breaks == [] {
      SplitOneLine(lines[0]);
    } else {
      var front := Broken(Init(lines), Init(breaks));
      assert Last(Init(lines)) == lines[|breaks| - 1] && Last(breaks) == breaks[|breaks| - 1];
      SplitLinesOf(Init(lines), Init(breaks));
      SplitBreaks(front, Last(breaks));
      SplitBehind(front + Last(breaks), Init(lines), Last(lines));
      assert lines == Init(lines) + [Last(lines)];
    }
  }

  lemma {:induction false} SplitOneLine(s: string)
    requires NoNewline(s)
    ensures SplitLines(s) == [s]
  {
    if s != [] {
      SplitOneLine(Init(s));
      assert s == Init(s) + [Last(s)];
    }
  }

  /** No part contains a line feed, and no part is longer than the text. */
  lemma {:induction false} PartsAreLines(s: string, k: nat)
    requires k < |SplitLines(s)|
    ensures NoNewline(SplitLines(s)[k]) && |SplitLines(s)[k]| <= |s|
  {
    if s != [] {
      var parts := SplitLines(Init(s));
      PartsAreLines(Init(s), |parts| - 1);
      if k < |parts| - 1 {
        PartsAreLines(Init(s), k);
      }
    }
  }

  lemma StepAfterPrefix(front: seq<string>, parts: seq<string>, c: char)
    requires parts != []
    ensures SplitStep(front + parts, c) == front + SplitStep(parts, c)
  {
    InitOfConcat(front, parts);
  }

  /**
   * Splitting is incremental: the unfinished last line of what has been read,
   * extended by what follows, is all that has to be split again. This holds even
   * when the cut falls between a carriage return and its line feed.
   */
  lemma {:induction false} SplitAppend(a: string, b: string)
    ensures SplitLines(a + b) == Init(SplitLines(a)) + SplitLines(Last(SplitLines(a)) + b)
    decreases |b|
  {
    var parts := SplitLines(a);
    if b == [] {
      assert a + b == a && Last(parts) + b == Last(parts);
      PartsAreLines(a, |parts| - 1);
      SplitOneLine(Last(parts));
      assert parts == Init(parts) + [Last(parts)];
    } else {
      SplitAppend(a, Init(b));
      InitOfConcat(a, b);
      InitOfConcat(Last(parts), b);
      StepAfterPrefix(Init(parts), SplitLines(Last(parts) + Init(b)), Last(b));
    }
  }

  /** Where the first part ends in the text it was split from. */
  lemma {:induction false} FirstPart(s: string)
    ensures var first := SplitLines(s)[0];
            && first <= s
            && (|SplitLines(s)| > 1 ==>
                  || (|first| < |s| && s[|first|] == '\n')
                  || (|first| + 1 < |s| && s[|first| + 1] == '\n'))
  {
    if s != [] {
      FirstPart(Init(s));
      assert s == Init(s) + [Last(s)];
      var parts := SplitLines(Init(s));
      if |parts| == 1 {
        OnePartIsWhole(Init(s));
      }
    }
  }

  lemma {:induction false} OnePartIsWhole(s: string)
    requires |SplitLines(s)| == 1
    ensures SplitLines(s) == [s]
  {
    if s != [] {
      OnePartIsWhole(Init(s));
      assert s == Init(s) + [Last(s)];
    }
  }

  /** A text ends in a line feed, or in the last character of its unfinished line. */
  lemma {:induction false} LastPart(s: string)
    requires s != []
    ensures Last(s) == '\n' ==> Last(SplitLines(s)) == ""
    ensures Last(s) != '\n' ==> Last(SplitLines(s)) != "" && Last(Last(SplitLines(s))) == Last(s)
  {
  }

  /** `\s` of ECMAScript. */
  predicate IsSpace(c: char) {
    || '\t' <= c <= '\r' || c == ' ' || c == '\U{a0}' || c == '\U{1680}' || '\U{2000}' <= c <= '\U{200a}'
    || c == '\U{2028}' || c == '\U{2029}' || c == '\U{202f}' || c == '\U{205f}' || c == '\U{3000}' || c == '\U{feff}'
  }

  function SkipSpaces(s: string): (t: string)
    ensures t == [] || !IsSpace(t[0])
  {
    if s != [] && IsSpace(s[0]) then SkipSpaces(s[1..]) else s
  }

  function DropTrailingSpaces(s: string): string {
    if s != [] && IsSpace(Last(s)) then DropTrailingSpaces(Init(s)) else s
  }

  /** `s.trim()`. */
  function Trim(s: string): string {
    DropTrailingSpaces(SkipSpaces(s))
  }

  /** `s.split(c)` for a one-character separator. */
  function SplitOn(s: string, c: char): (parts: seq<string>)
    ensures parts != []
  {
    if s == [] then [""]
    else
      var rest := SplitOn(s[1..], c);
      if s[0] == c then [""] + rest else [[s[0]] + rest[0]] + rest[1..]
  }

  function JoinOn(parts: seq<string>, c: char): string
    requires parts != []
  {
    if |parts| == 1 then parts[0] else parts[0] + ([c] + JoinOn(parts[1..], c))
  }

  predicate Lacks(s: string, c: char) {
    c !in s
  }

  /** Splitting inverts joining ... */
  lemma {:induction false} SplitJoin(parts: seq<string>, c: char)
    requires parts != [] && forall k | 0 <= k < |parts| :: Lacks(parts[k], c)
    ensures SplitOn(JoinOn(parts, c), c) == parts
  {
    if |parts| == 1 {
      SplitUnbroken(parts[0], c);
    } else {
      SplitJoin(parts[1..], c);
      SplitFirst(parts[0], JoinOn(parts[1..], c), c);
    }
  }

  lemma {:induction false} SplitUnbroken(s: string, c: char)
    requires Lacks(s, c)
    ensures SplitOn(s, c) == [s]
  {
    if s != [] {
      SplitUnbroken(s[1..], c);
      assert s == [s[0]] + s[1..];
    }
  }

  lemma {:induction false} SplitFirst(a: string, b: string, c: char)
    requires Lacks(a, c)
    ensures SplitOn(a + ([c] + b), c) == [a] + SplitOn(b, c)
  {
    var s := a + ([c] + b);
    if a == [] {
      assert s[1..] == b;
    } else {
      SplitFirst(a[1..], b, c);
      assert s[1..] == a[1..] + ([c] + b);
      assert a == [a[0]] + a[1..];
    }
  }

  /** ... and joining inverts splitting. */
  lemma {:induction false} JoinSplit(s: string, c: char)
    ensures JoinOn(SplitOn(s, c), c) == s
    ensures forall k | 0 <= k < |SplitOn(s, c)| :: Lacks(SplitOn(s, c)[k], c)
  {
    if s != [] {
      JoinSplit(s[1..], c);
      assert s == [s[0]] + s[1..];
      var rest := SplitOn(s[1..], c);
      if s[0] == c {
        assert ([""] + rest)[1..] == rest;
      } else {
        assert ([[s[0]] + rest[0]] + rest[1..])[1..] == rest[1..];
        if |rest| > 1 {
          ConcatAssociates([s[0]], rest[0], [c] + JoinOn(rest[1..], c));
        }
      }
    }
  }

  predicate AllDigits(s: string) {
    forall i | 0 <= i < |s| :: '0' <= s[i] <= '9'
  }

  function DecimalValue(s: string): nat
    requires AllDigits(s)
  {
    if s == [] then 0
    else 10 * DecimalValue(s[..|s| - 1]) + (s[|s| - 1] as int - '0' as int)
  }

  /** `Number(s)` over the digit grammar: the empty string counts as 0, anything but digits is not a number. */
  function Number(s: string): Option<nat> {
    if AllDigits(s) then Some(DecimalValue(s)) else None
  }

  /** A number in decimal, without leading zeros. */
  function Decimal(n: nat): (s: string)
    ensures forall c | c in s :: '0' <= c <= '9'
  {
    var digit := ('0' as int + n % 10) as char;
    if n < 10 then [digit] else Decimal(n / 10) + [digit]
  }

  lemma {:induction false} DecimalInverse(n: nat)
    ensures AllDigits(Decimal(n)) && DecimalValue(Decimal(n)) == n
  {
    if n < 10 {
      assert DecimalValue("") == 0;
    } else {
      DecimalInverse(n / 10);
      InitOfConcat(Decimal(n / 10), [('0' as int + n % 10) as char]);
    }
  }
}
