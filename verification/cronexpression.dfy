/// The text of a cron expression: five fields of comma-separated entries.
///
/// The parser follows the source's splitting; an entry's meaning is given by a
/// small grammar. Numerals are strings of digits, the empty one counting as 0.
module CronExpression {
  import opened Prelude
  import opened Text
  import opened Cron
  import opened Calendar
  import Arith

  /** Every `step`-th value from `lo` to `hi`. */
  datatype Span = Span(lo: int, hi: int, step: int)

  predicate ValidSpan(s: Span, min: int, max: int) {
    s.step >= 1 && min <= s.lo <= s.hi <= max
  }

  predicate Selects(s: Span, v: int) {
    s.step >= 1 && s.lo <= v <= s.hi && (v - s.lo) % s.step == 0
  }

  // ----- one entry -----

  function ParseStep(slashes: seq<string>): Option<int> {
    if |slashes| == 1 then Some(1)
    else if |slashes| != 2 || slashes[1] == "" || !AllDigits(slashes[1]) then None
    else Some(DecimalValue(slashes[1]))
  }

  /** The first and the last value of an entry. */
  function ParseBounds(rangePart: string, stepped: bool, min: int, max: int): Option<(int, int)> {
    if rangePart == "*" then Some((min, max))
    else if '-' in rangePart then
      var dashes := SplitOn(rangePart, '-');
      if |dashes| != 2 then None
      else match (Number(dashes[0]), Number(dashes[1]))
        case (Some(a), Some(b)) => Some((a, b))
        case _ => None
    else match Number(rangePart)
      case None => None
      case Some(v) => Some((v, if stepped then max else v))
  }

  function ParseEntry(entry: string, min: int, max: int): (r: Option<Span>) {
    if entry == "" then None
    else
      var slashes := SplitOn(entry, '/');
      match (ParseStep(slashes), ParseBounds(slashes[0], |slashes| > 1, min, max))
      case (Some(step), Some((lo, hi))) =>
        if ValidSpan(Span(lo, hi, step), min, max) then Some(Span(lo, hi, step)) else None
      case _ => None
  }

  // ----- the grammar -----

  datatype Bounds = Star | Single(v: string) | Range(lo: string, hi: string)
  datatype Entry = Entry(bounds: Bounds, step: Option<string>)

  predicate IsEntry(e: Entry) {
    && (match e.bounds
        case Star => true
        case Single(v) => AllDigits(v) && (v == "" ==> e.step.Some?)
        case Range(lo, hi) => AllDigits(lo) && AllDigits(hi))
    && (e.step.Some? ==> e.step.value != "" && AllDigits(e.step.value))
  }

  function BoundsText(b: Bounds): string {
    match b
    case Star => "*"
    case Single(v) => v
    case Range(lo, hi) => lo + (['-'] + hi)
  }

  function EntryText(e: Entry): string {
    match e.step
    case None => BoundsText(e.bounds)
    case Some(s) => BoundsText(e.bounds) + (['/'] + s)
  }

  /** `5` means exactly 5; `5/15` means every fifteenth value from 5 on. */
  function Meaning(e: Entry, min: int, max: int): Span
    requires IsEntry(e)
  {
    var step := if e.step.Some? then DecimalValue(e.step.value) else 1;
    match e.bounds
    case Star => Span(min, max, step)
    case Single(v) => Span(DecimalValue(v), if e.step.Some? then max else DecimalValue(v), step)
    case Range(lo, hi) => Span(DecimalValue(lo), DecimalValue(hi), step)
  }

  lemma DigitsLack(s: string, c: char)
    requires AllDigits(s) && (c == '-' || c == '/' || c == ',' || c == '*' || IsSpace(c))
    ensures Lacks(s, c)
  {
  }

  lemma BoundsTextLacks(e: Entry, c: char)
    requires IsEntry(e) && (c == '/' || c == ',' || IsSpace(c))
    ensures Lacks(BoundsText(e.bounds), c) && (e.step.Some? ==> Lacks(e.step.value, c))
  {
    match e.bounds
    case Star =>
    case Single(v) => DigitsLack(v, c);
    case Range(lo, hi) => DigitsLack(lo, c); DigitsLack(hi, c);
  }

  lemma BoundsRoundTrip(e: Entry, min: int, max: int)
    requires IsEntry(e)
    ensures var m := Meaning(e, min, max);
            ParseBounds(BoundsText(e.bounds), e.step.Some?, min, max) == Some((m.lo, m.hi))
  {
    match e.bounds
    case Star =>
    case Single(v) =>
      DigitsLack(v, '-');
      DigitsLack(v, '*');
      assert v != "*" by { assert '*' in "*"; }
    case Range(lo, hi) =>
      var s := lo + (['-'] + hi);
      DigitsLack(lo, '-');
      DigitsLack(hi, '-');
      assert s[|lo|] == '-';
      SplitFirst(lo, hi, '-');
      SplitUnbroken(hi, '-');
  }

  /** An entry written by the grammar is accepted exactly when its values lie in the field's range, with its meaning. */
  lemma EntryRoundTrip(e: Entry, min: int, max: int)
    requires IsEntry(e)
    ensures var m := Meaning(e, min, max);
            ParseEntry(EntryText(e), min, max) == if ValidSpan(m, min, max) then Some(m) else None
  {
    var b := BoundsText(e.bounds);
    BoundsRoundTrip(e, min, max);
    BoundsTextLacks(e, '/');
    match e.step
    case None => SplitUnbroken(b, '/');
    case Some(s) =>
      SplitFirst(b, s, '/');
      SplitUnbroken(s, '/');
  }

  /** The characters of the grammar; others, which only numerals outside it use, are not modelled. */
  predicate IsGrammarText(s: string) {
    forall c | c in s :: '0' <= c <= '9' || c == '*' || c == '-' || c == '/' || c == ',' || IsSpace(c)
  }

  /** Of the texts in these characters, nothing but an entry of the grammar is accepted. */
  lemma AcceptedIsEntry(text: string, min: int, max: int) returns (e: Entry)
    requires IsGrammarText(text) && ParseEntry(text, min, max).Some?
    ensures IsEntry(e) && EntryText(e) == text
  {
    var slashes := SplitOn(text, '/');
    JoinSplit(text, '/');
    var b := slashes[0];
    var step := if |slashes| > 1 then Some(slashes[1]) else None;
    if b == "*" {
      e := Entry(Star, step);
    } else if '-' in b {
      var dashes := SplitOn(b, '-');
      JoinSplit(b, '-');
      e := Entry(Range(dashes[0], dashes[1]), step);
    } else {
      e := Entry(Single(b), step);
    }
  }

  // ----- one field -----

  predicate Selected(spans: seq<Span>, v: int) {
    exists k | 0 <= k < |spans| :: Selects(spans[k], v)
  }

  function Values(spans: seq<Span>, min: int, max: int): set<int> {
    set v | min <= v <= max && Selected(spans, v)
  }

  function Sorted(s: set<int>, lo: int, hi: int): seq<int>
    decreases hi - lo
  {
    if lo > hi then []
    else (if lo in s then [lo] else []) + Sorted(s, lo + 1, hi)
  }

  lemma {:induction false} SortedIs(s: set<int>, lo: int, hi: int)
    ensures forall i, j | 0 <= i < j < |Sorted(s, lo, hi)| :: Sorted(s, lo, hi)[i] < Sorted(s, lo, hi)[j]
    ensures forall v :: v in Sorted(s, lo, hi) <==> v in s && lo <= v <= hi
    decreases hi - lo
  {
    if lo <= hi {
      SortedIs(s, lo + 1, hi);
      var rest := Sorted(s, lo + 1, hi);
      forall j | 0 <= j < |rest| ensures lo < rest[j] {
        assert rest[j] in rest;
      }
    }
  }

  function ParseEntries(entries: seq<string>, min: int, max: int): (r: Option<seq<Span>>)
    ensures r.Some? ==> |r.value| == |entries|
  {
    if entries == [] then Some([])
    else match (ParseEntries(Init(entries), min, max), ParseEntry(Last(entries), min, max))
      case (Some(front), Some(span)) => Some(front + [span])
      case _ => None
  }

  function FieldOf(raw: string, min: int, max: int): Option<seq<int>> {
    match ParseEntries(SplitOn(raw, ','), min, max)
    case None => None
    case Some(spans) => Some(Sorted(Values(spans, min, max), min, max))
  }

  lemma {:induction false} BadEntryFails(entries: seq<string>, k: nat, min: int, max: int)
    requires k < |entries| && ParseEntry(entries[k], min, max).None?
    ensures ParseEntries(entries, min, max).None?
  {
    if k < |entries| - 1 {
      BadEntryFails(Init(entries), k, min, max);
    }
  }

  lemma {:induction false} EntriesParsed(entries: seq<string>, min: int, max: int)
    ensures ParseEntries(entries, min, max).Some?
      <==> forall k | 0 <= k < |entries| :: ParseEntry(entries[k], min, max).Some?
    ensures ParseEntries(entries, min, max).Some?
      ==> forall k | 0 <= k < |entries| ::
            ParseEntry(entries[k], min, max) == Some(ParseEntries(entries, min, max).value[k])
  {
    if entries != [] {
      EntriesParsed(Init(entries), min, max);
      var last := |entries| - 1;
      assert forall k | 0 <= k < last :: Init(entries)[k] == entries[k];
      if exists k | 0 <= k < |entries| :: ParseEntry(entries[k], min, max).None? {
        var k :| 0 <= k < |entries| && ParseEntry(entries[k], min, max).None?;
        BadEntryFails(entries, k, min, max);
      }
    }
  }

  lemma ValuesGrow(spans: seq<Span>, span: Span, min: int, max: int)
    requires ValidSpan(span, min, max)
    ensures Values(spans + [span], min, max)
         == Values(spans, min, max) + (set v | span.lo <= v <= span.hi && Selects(span, v))
  {
    var more := spans + [span];
    forall v ensures Selected(more, v) <==> Selected(spans, v) || Selects(span, v) {
      if Selected(spans, v) {
        var k :| 0 <= k < |spans| && Selects(spans[k], v);
        assert more[k] == spans[k];
      }
      assert more[|spans|] == span;
    }
  }

  /** Between two values a step apart, none is selected. */
  lemma StepSkips(lo: int, v: int, step: int, u: int)
    requires step >= 1 && (v - lo) % step == 0 && v < u < v + step
    ensures (u - lo) % step != 0
  {
    Arith.DivisionIs(u - lo, (v - lo) / step, step, u - v);
  }

  lemma StepLands(lo: int, v: int, step: int)
    requires step >= 1 && (v - lo) % step == 0
    ensures (v + step - lo) % step == 0
  {
    Arith.AddMultiple(1, v - lo, step);
  }

  method AddSpan(out: set<int>, span: Span) returns (r: set<int>)
    requires span.step >= 1
    ensures r == out + (set v | span.lo <= v <= span.hi && Selects(span, v))
  {
    r := out;
    var v := span.lo;
    while v <= span.hi
      invariant span.lo <= v && (v - span.lo) % span.step == 0
      invariant r == out + (set u | span.lo <= u <= span.hi && Selects(span, u) && u < v)
      decreases span.hi - v
    {
      r := r + {v};
      StepLands(span.lo, v, span.step);
      forall u | v < u < v + span.step ensures !Selects(span, u) {
        StepSkips(span.lo, v, span.step, u);
      }
      v := v + span.step;
    }
  }

  method ParseField(raw: string, min: int, max: int) returns (r: Option<seq<int>>)
    ensures r == FieldOf(raw, min, max)
  {
    var entries := SplitOn(raw, ',');
    var out: set<int> := {};
    ghost var spans: seq<Span> := [];
    var i := 0;
    while i < |entries|
      invariant i <= |entries|
      invariant ParseEntries(entries[..i], min, max) == Some(spans)
      invariant out == Values(spans, min, max)
    {
      var span := ParseEntry(entries[i], min, max);
      if span.None? {
        BadEntryFails(entries, i, min, max);
        return None;
      }
      ValuesGrow(spans, span.value, min, max);
      out := AddSpan(out, span.value);
      spans := spans + [span.value];
      i := i + 1;
      assert Init(entries[..i]) == entries[..i - 1];
    }
    assert entries[..i] == entries;
    r := Some(Sorted(out, min, max));
  }

  predicate IsField(field: seq<Entry>) {
    field != [] && forall k | 0 <= k < |field| :: IsEntry(field[k])
  }

  function EntryTexts(field: seq<Entry>): (t: seq<string>)
    ensures |t| == |field| && forall k | 0 <= k < |t| :: t[k] == EntryText(field[k])
  {
    seq(|field|, i requires 0 <= i < |field| => EntryText(field[i]))
  }

  function FieldText(field: seq<Entry>): string
    requires field != []
  {
    JoinOn(EntryTexts(field), ',')
  }

  predicate InRange(field: seq<Entry>, min: int, max: int)
    requires IsField(field)
  {
    forall k | 0 <= k < |field| :: ValidSpan(Meaning(field[k], min, max), min, max)
  }

  /** What the grammar lets an entry name in a field from `min` to `max`. */
  predicate EntryInRange(e: Entry, min: int, max: int)
    requires IsEntry(e)
  {
    && (e.step.Some? ==> DecimalValue(e.step.value) > 0)
    && match e.bounds
       case Star => min <= max
       case Single(v) => min <= DecimalValue(v) && DecimalValue(v) <= max
       case Range(lo, hi) =>
         min <= DecimalValue(lo) && DecimalValue(lo) <= DecimalValue(hi) && DecimalValue(hi) <= max
  }

  /** The values of a field are in range if and only if each entry's are, and no step is zero. */
  lemma {:induction false} InRangeIff(field: seq<Entry>, min: int, max: int)
    requires IsField(field)
    ensures InRange(field, min, max) <==> forall k | 0 <= k < |field| :: EntryInRange(field[k], min, max)
  {
    forall k | 0 <= k < |field|
      ensures ValidSpan(Meaning(field[k], min, max), min, max) <==> EntryInRange(field[k], min, max)
    {
    }
  }

  predicate FieldSelects(field: seq<Entry>, min: int, max: int, v: int)
    requires IsField(field)
  {
    exists k | 0 <= k < |field| :: Selects(Meaning(field[k], min, max), v)
  }

  lemma EntryTextLacks(e: Entry, c: char)
    requires IsEntry(e) && (c == ',' || IsSpace(c))
    ensures Lacks(EntryText(e), c)
  {
    BoundsTextLacks(e, c);
  }

  lemma EntriesOf(field: seq<Entry>)
    requires IsField(field)
    ensures SplitOn(FieldText(field), ',') == EntryTexts(field)
  {
    forall k | 0 <= k < |field| ensures Lacks(EntryTexts(field)[k], ',') {
      EntryTextLacks(field[k], ',');
    }
    SplitJoin(EntryTexts(field), ',');
  }

  /**
   * A field parses exactly when every entry is in range, and then lists, in
   * ascending order, the values some entry selects.
   */
  lemma FieldMeans(field: seq<Entry>, min: int, max: int)
    requires IsField(field)
    ensures FieldOf(FieldText(field), min, max).Some? <==> InRange(field, min, max)
    ensures match FieldOf(FieldText(field), min, max)
            case None => true
            case Some(vs) =>
              && (forall i, j | 0 <= i < j < |vs| :: vs[i] < vs[j])
              && forall v :: v in vs <==> FieldSelects(field, min, max, v)
  {
    EntriesOf(field);
    var texts := EntryTexts(field);
    EntriesParsed(texts, min, max);
    forall k | 0 <= k < |field|
      ensures ParseEntry(texts[k], min, max)
           == var m := Meaning(field[k], min, max); if ValidSpan(m, min, max) then Some(m) else None
    {
      EntryRoundTrip(field[k], min, max);
    }
    if InRange(field, min, max) {
      var spans := ParseEntries(texts, min, max).value;
      SortedIs(Values(spans, min, max), min, max);
      forall v ensures v in Values(spans, min, max) <==> FieldSelects(field, min, max, v) {
        assert forall k | 0 <= k < |field| :: spans[k] == Meaning(field[k], min, max);
      }
    }
  }

  ghost predicate IsEntryText(text: string) {
    exists e :: IsEntry(e) && EntryText(e) == text
  }

  lemma {:induction false} ReadEntries(texts: seq<string>) returns (field: seq<Entry>)
    requires forall k | 0 <= k < |texts| :: IsEntryText(texts[k])
    ensures |field| == |texts|
    ensures forall k | 0 <= k < |field| :: IsEntry(field[k]) && EntryText(field[k]) == texts[k]
  {
    if texts == [] {
      field := [];
    } else {
      var front := ReadEntries(Init(texts));
      assert IsEntryText(Last(texts));
      var last :| IsEntry(last) && EntryText(last) == Last(texts);
      field := front + [last];
    }
  }

  lemma {:induction false} PartsUse(s: string, c: char, k: nat, x: char)
    requires k < |SplitOn(s, c)| && x in SplitOn(s, c)[k]
    ensures x in s
  {
    if s != [] {
      var rest := SplitOn(s[1..], c);
      if s[0] == c {
        if k > 0 {
          PartsUse(s[1..], c, k - 1, x);
        }
      } else if k > 0 {
        PartsUse(s[1..], c, k, x);
      } else if x != s[0] {
        PartsUse(s[1..], c, 0, x);
      }
    }
  }

  /** Every accepted field text in these characters is a field of the grammar. */
  lemma AcceptedIsField(text: string, min: int, max: int) returns (field: seq<Entry>)
    requires IsGrammarText(text) && FieldOf(text, min, max).Some?
    ensures IsField(field) && FieldText(field) == text
  {
    var texts := SplitOn(text, ',');
    JoinSplit(text, ',');
    EntriesParsed(texts, min, max);
    forall k | 0 <= k < |texts| ensures IsEntryText(texts[k]) {
      forall x | x in texts[k] ensures x in text {
        PartsUse(text, ',', k, x);
      }
      var e := AcceptedIsEntry(texts[k], min, max);
    }
    field := ReadEntries(texts);
    assert EntryTexts(field) == texts;
  }

  // ----- the five words -----

  predicate AllSpace(s: string) {
    forall c | c in s :: IsSpace(c)
  }

  predicate IsWord(s: string) {
    s != "" && forall c | c in s :: !IsSpace(c)
  }

  function LeadingWord(s: string): (w: string)
    ensures w <= s
  {
    if s == [] || IsSpace(s[0]) then [] else [s[0]] + LeadingWord(s[1..])
  }

  /** `s.split(/\s+/)`. */
  function SplitSpaces(s: string): (words: seq<string>)
    decreases |s|
  {
    var w := LeadingWord(s);
    if w == s then [s] else [w] + SplitSpaces(AfterSpaces(s[|w|..]))
  }

  function AfterSpaces(s: string): (t: string)
    requires s != []
    ensures |t| < |s|
  {
    if |s| > 1 && IsSpace(s[1]) then AfterSpaces(s[1..]) else s[1..]
  }

  function Words(expr: string): seq<string> {
    SplitSpaces(Trim(expr))
  }

  /** Words with a gap in front of each but the first. */
  function Spaced(words: seq<string>, gaps: seq<string>): string
    requires |words| == |gaps| + 1
  {
    if gaps == [] then words[0] else words[0] + (gaps[0] + Spaced(words[1..], gaps[1..]))
  }

  predicate IsGap(s: string) {
    s != "" && AllSpace(s)
  }

  lemma {:induction false} WordThenRest(w: string, rest: string)
    requires forall c | c in w :: !IsSpace(c)
    requires rest == "" || IsSpace(rest[0])
    ensures LeadingWord(w + rest) == w
  {
    if w == [] {
      assert w + rest == rest;
    } else {
      assert (w + rest)[1..] == w[1..] + rest;
      WordThenRest(w[1..], rest);
    }
  }

  lemma {:induction false} GapThenRest(gap: string, rest: string)
    requires IsGap(gap) && (rest == "" || !IsSpace(rest[0]))
    ensures AfterSpaces(gap + rest) == rest
  {
    var s := gap + rest;
    assert IsSpace(gap[0]);
    if |gap| > 1 {
      assert s[1..] == gap[1..] + rest && s[1] == gap[1];
      GapThenRest(gap[1..], rest);
    } else {
      assert s[1..] == rest;
    }
  }

  /** A text that begins and ends in a word. */
  predicate IsTrimmed(s: string) {
    s != "" && !IsSpace(s[0]) && !IsSpace(Last(s))
  }

  lemma WordIsTrimmed(w: string)
    requires IsWord(w)
    ensures IsTrimmed(w)
  {
    assert w[0] in w && Last(w) in w;
  }

  lemma {:induction false} SplitOneWord(w: string)
    requires IsWord(w)
    ensures SplitSpaces(w) == [w]
  {
    assert w + "" == w;
    WordThenRest(w, "");
  }

  lemma {:induction false} SplitFirstWord(w: string, gap: string, tail: string)
    requires IsWord(w) && IsGap(gap) && IsTrimmed(tail)
    ensures SplitSpaces(w + (gap + tail)) == [w] + SplitSpaces(tail)
    ensures IsTrimmed(w + (gap + tail))
  {
    var rest := gap + tail;
    assert rest[0] == gap[0];
    assert gap[0] in gap;
    WordThenRest(w, rest);
    assert (w + rest)[|w|..] == rest;
    GapThenRest(gap, tail);
    InitOfConcat(gap, tail);
    InitOfConcat(w, rest);
    WordIsTrimmed(w);
  }

  lemma {:induction false} SplitSpacesOf(words: seq<string>, gaps: seq<string>)
    requires |words| == |gaps| + 1
    requires forall k | 0 <= k < |words| :: IsWord(words[k])
    requires forall k | 0 <= k < |gaps| :: IsGap(gaps[k])
    ensures SplitSpaces(Spaced(words, gaps)) == words
    ensures IsTrimmed(Spaced(words, gaps))
  {
    if gaps == [] {
      SplitOneWord(words[0]);
      WordIsTrimmed(words[0]);
    } else {
      SplitSpacesOf(words[1..], gaps[1..]);
      SplitFirstWord(words[0], gaps[0], Spaced(words[1..], gaps[1..]));
    }
  }

  lemma {:induction false} SkipsLeading(pre: string, body: string)
    requires AllSpace(pre) && body != "" && !IsSpace(body[0])
    ensures SkipSpaces(pre + body) == body
  {
    if pre == [] {
      assert pre + body == body;
    } else {
      assert (pre + body)[1..] == pre[1..] + body;
      SkipsLeading(pre[1..], body);
    }
  }

  lemma {:induction false} DropsTrailing(body: string, post: string)
    requires AllSpace(post) && body != "" && !IsSpace(Last(body))
    ensures DropTrailingSpaces(body + post) == body
  {
    if post == [] {
      assert body + post == body;
    } else {
      InitOfConcat(body, post);
      DropsTrailing(body, Init(post));
    }
  }

  /** Words are found whatever white space surrounds and separates them. */
  lemma {:induction false} WordsOfSpaced(pre: string, words: seq<string>, gaps: seq<string>, post: string)
    requires |words| == |gaps| + 1
    requires forall k | 0 <= k < |words| :: IsWord(words[k])
    requires forall k | 0 <= k < |gaps| :: IsGap(gaps[k])
    requires AllSpace(pre) && AllSpace(post)
    ensures Words(pre + (Spaced(words, gaps) + post)) == words
  {
    SplitSpacesOf(words, gaps);
    var body := Spaced(words, gaps);
    assert (body + post)[0] == body[0];
    SkipsLeading(pre, body + post);
    DropsTrailing(body, post);
  }

  // ----- the whole expression -----

  function CronOf(expr: string): Option<Fields> {
    var words := Words(expr);
    if |words| != 5 then None
    else match (FieldOf(words[0], 0, 59), FieldOf(words[1], 0, 23), FieldOf(words[2], 1, 31),
                FieldOf(words[3], 1, 12), FieldOf(words[4], 0, 6))
      case (Some(minute), Some(hour), Some(dom), Some(month), Some(dow)) =>
        Some(Fields(minute, hour, dom, month, dow, words[2] == "*", words[4] == "*"))
      case _ => None
  }

  method ParseCron(expr: string) returns (r: Option<Fields>)
    ensures r == CronOf(expr)
  {
    var parts := Words(expr);
    if |parts| != 5 {
      return None;
    }
    var minute := ParseField(parts[0], 0, 59);
    var hour := ParseField(parts[1], 0, 23);
    var dom := ParseField(parts[2], 1, 31);
    var month := ParseField(parts[3], 1, 12);
    var dow := ParseField(parts[4], 0, 6);
    if minute.None? || hour.None? || dom.None? || month.None? || dow.None? {
      return None;
    }
    r := Some(Fields(minute.value, hour.value, dom.value, month.value, dow.value, parts[2] == "*", parts[4] == "*"));
  }

  /** A cron expression by its grammar. */
  datatype Expression = Expression(minute: seq<Entry>, hour: seq<Entry>, dom: seq<Entry>, month: seq<Entry>,
        dow: seq<Entry>)

  predicate IsExpression(e: Expression) {
    IsField(e.minute) && IsField(e.hour) && IsField(e.dom) && IsField(e.month) && IsField(e.dow)
  }

  predicate ValuesInRange(e: Expression)
    requires IsExpression(e)
  {
    && InRange(e.minute, 0, 59) && InRange(e.hour, 0, 23) && InRange(e.dom, 1, 31)
    && InRange(e.month, 1, 12) && InRange(e.dow, 0, 6)
  }

  function FieldTexts(e: Expression): seq<string>
    requires IsExpression(e)
  {
    [FieldText(e.minute), FieldText(e.hour), FieldText(e.dom), FieldText(e.month), FieldText(e.dow)]
  }

  predicate IsStar(field: seq<Entry>) {
    field == [Entry(Star, None)]
  }

  /** The date rule of crontab: either day field may match, unless one is a bare star. */
  predicate FiresOn(e: Expression, date: Date, weekDay: int)
    requires IsExpression(e)
  {
    var domHit, dowHit := FieldSelects(e.dom, 1, 31, date.day), FieldSelects(e.dow, 0, 6, weekDay);
    && FieldSelects(e.month, 1, 12, date.month)
    && ((IsStar(e.dom) && IsStar(e.dow)) || (!IsStar(e.dom) && domHit) || (!IsStar(e.dow) && dowHit))
  }

  predicate Fires(e: Expression, t: int)
    requires IsExpression(e)
  {
    && FieldSelects(e.minute, 0, 59, t % HOUR / MINUTE)
    && FieldSelects(e.hour, 0, 23, t % DAY / HOUR)
    && FiresOn(e, DateOf(t / DAY), CivilWeekDay(DateOf(t / DAY)))
  }

  lemma StarText(field: seq<Entry>)
    requires IsField(field)
    ensures FieldText(field) == "*" <==> IsStar(field)
  {
    EntriesOf(field);
    if FieldText(field) == "*" {
      assert Lacks("*", ',');
      SplitUnbroken("*", ',');
      var e := field[0];
      assert EntryText(e) == EntryTexts(field)[0] == "*";
      StarEntry(e);
      assert field == [e];
    }
  }

  lemma StarEntry(e: Entry)
    requires IsEntry(e)
    ensures EntryText(e) == "*" <==> e == Entry(Star, None)
  {
    var b := BoundsText(e.bounds);
    match (e.bounds, e.step)
    case (_, Some(s)) => assert EntryText(e)[|b|] == '/';
    case (Star, None) =>
    case (Single(v), None) => assert v != "" ==> v[0] != '*';
    case (Range(lo, hi), None) => assert EntryText(e)[|lo|] == '-';
  }

  lemma MinuteOfDay(t: int)
    ensures t % DAY % HOUR == t % HOUR
  {
    Arith.ModMod(t, 24, HOUR);
  }

  lemma ParsesIffInRange(expr: string, e: Expression)
    requires IsExpression(e) && Words(expr) == FieldTexts(e)
    ensures CronOf(expr).Some? <==> ValuesInRange(e)
  {
    FieldMeans(e.minute, 0, 59);
    FieldMeans(e.hour, 0, 23);
    FieldMeans(e.dom, 1, 31);
    FieldMeans(e.month, 1, 12);
    FieldMeans(e.dow, 0, 6);
  }

  /**
   * An expression of the grammar parses exactly when all its values are in
   * range, and then the parsed fields match exactly the instants the grammar's
   * meaning names.
   */
  lemma ParsedMeaning(expr: string, e: Expression)
    requires IsExpression(e) && Words(expr) == FieldTexts(e)
    ensures CronOf(expr).Some? <==> ValuesInRange(e)
    ensures CronOf(expr).Some? ==> forall t :: Matches(CronOf(expr).value, t) <==> Fires(e, t)
  {
    ParsesIffInRange(expr, e);
    if CronOf(expr).Some? {
      forall t ensures Matches(CronOf(expr).value, t) <==> Fires(e, t) {
        MeaningAt(expr, e, t);
      }
    }
  }

  lemma MeaningAt(expr: string, e: Expression, t: int)
    requires IsExpression(e) && Words(expr) == FieldTexts(e) && CronOf(expr).Some?
    ensures Matches(CronOf(expr).value, t) <==> Fires(e, t)
  {
    FieldMeans(e.minute, 0, 59);
    FieldMeans(e.hour, 0, 23);
    FieldMeans(e.dom, 1, 31);
    FieldMeans(e.month, 1, 12);
    FieldMeans(e.dow, 0, 6);
    StarText(e.dom);
    StarText(e.dow);
    MinuteOfDay(t);
    DateHasItsWeekDay(t / DAY);
  }

  lemma {:induction false} AfterSpacesUses(s: string, x: char)
    requires s != [] && x in AfterSpaces(s)
    ensures x in s
  {
    if |s| > 1 && IsSpace(s[1]) {
      AfterSpacesUses(s[1..], x);
    }
  }

  lemma {:induction false} SpacedWordsUse(s: string, k: nat, x: char)
    requires k < |SplitSpaces(s)| && x in SplitSpaces(s)[k]
    ensures x in s
    decreases |s|
  {
    var w := LeadingWord(s);
    if w != s && k > 0 {
      var rest := s[|w|..];
      SpacedWordsUse(AfterSpaces(rest), k - 1, x);
      AfterSpacesUses(rest, x);
    }
  }

  lemma {:induction false} SkippedUses(s: string, x: char)
    requires x in SkipSpaces(s)
    ensures x in s
  {
    if s != [] && IsSpace(s[0]) {
      SkippedUses(s[1..], x);
    }
  }

  lemma {:induction false} DroppedUses(s: string, x: char)
    requires x in DropTrailingSpaces(s)
    ensures x in s
  {
    if s != [] && IsSpace(Last(s)) {
      DroppedUses(Init(s), x);
    }
  }

  lemma WordIsGrammarText(expr: string, k: nat)
    requires IsGrammarText(expr) && k < |Words(expr)|
    ensures IsGrammarText(Words(expr)[k])
  {
    forall x | x in Words(expr)[k] ensures x in expr {
      SpacedWordsUse(Trim(expr), k, x);
      DroppedUses(SkipSpaces(expr), x);
      SkippedUses(expr, x);
    }
  }

  /** Every accepted text in the grammar's characters is an expression of it with all values in range. */
  lemma AcceptedIsExpression(expr: string) returns (e: Expression)
    requires IsGrammarText(expr) && CronOf(expr).Some?
    ensures IsExpression(e) && Words(expr) == FieldTexts(e) && ValuesInRange(e)
  {
    var words := Words(expr);
    forall k | 0 <= k < 5 ensures IsGrammarText(words[k]) {
      WordIsGrammarText(expr, k);
    }
    var minute := AcceptedIsField(words[0], 0, 59);
    var hour := AcceptedIsField(words[1], 0, 23);
    var dom := AcceptedIsField(words[2], 1, 31);
    var month := AcceptedIsField(words[3], 1, 12);
    var dow := AcceptedIsField(words[4], 0, 6);
    e := Expression(minute, hour, dom, month, dow);
    FiveWords(words, e);
    ParsesIffInRange(expr, e);
  }

  lemma FiveWords(words: seq<string>, e: Expression)
    requires IsExpression(e) && |words| == 5
    requires FieldText(e.minute) == words[0] && FieldText(e.hour) == words[1] && FieldText(e.dom) == words[2]
    requires FieldText(e.month) == words[3] && FieldText(e.dow) == words[4]
    ensures words == FieldTexts(e)
  {
  }

  /** What the search finds for a text is the least minute its grammar fires on. */
  lemma NextRunOfExpression(expr: string, e: Expression, from: int)
    requires IsExpression(e) && ValuesInRange(e) && Words(expr) == FieldTexts(e)
    ensures CronOf(expr).Some?
    ensures match NextRun(CronOf(expr).value, from)
            case Some(r) => from < r <= from + WINDOW && WholeMinute(r) && Fires(e, r)
              && forall u | from < u < r && WholeMinute(u) :: !Fires(e, u)
            case None => forall u | from < u <= from + WINDOW && WholeMinute(u) :: !Fires(e, u)
  {
    ParsedMeaning(expr, e);
    NextRunIsLeast(CronOf(expr).value, from);
  }

  // ----- one weekday -----

  /** The time of day is named, and the date's weekday is `w`. */
  predicate FiresWeekly(e: Expression, w: int, t: int)
    requires IsExpression(e)
  {
    && FieldSelects(e.minute, 0, 59, t % HOUR / MINUTE)
    && FieldSelects(e.hour, 0, 23, t % DAY / HOUR)
    && CivilWeekDay(DateOf(t / DAY)) == w
  }

  lemma StarSelects(field: seq<Entry>, min: int, max: int, v: int)
    requires IsField(field) && IsStar(field) && min <= v <= max
    ensures FieldSelects(field, min, max, v)
  {
    assert Selects(Meaning(field[0], min, max), v);
  }

  lemma {:induction false} SingleSelects(v: string, min: int, max: int, u: int)
    requires AllDigits(v) && v != ""
    ensures IsField([Entry(Single(v), None)])
    ensures FieldSelects([Entry(Single(v), None)], min, max, u) <==> u == DecimalValue(v)
  {
    var field := [Entry(Single(v), None)];
    if u == DecimalValue(v) {
      assert Selects(Meaning(field[0], min, max), u);
    }
  }

  lemma {:induction false} WeeklyMeaning(e: Expression, w: string, t: int)
    requires IsExpression(e) && IsStar(e.dom) && IsStar(e.month)
    requires AllDigits(w) && w != "" && e.dow == [Entry(Single(w), None)]
    ensures Fires(e, t) <==> FiresWeekly(e, DecimalValue(w), t)
  {
    StarSelects(e.month, 1, 12, DateOf(t / DAY).month);
    SingleSelects(w, 0, 6, CivilWeekDay(DateOf(t / DAY)));
    assert !IsStar(e.dow);
  }

  lemma FirstValue(field: seq<Entry>, min: int, max: int) returns (v: int)
    requires IsField(field) && InRange(field, min, max)
    ensures min <= v <= max && FieldSelects(field, min, max, v)
  {
    v := Meaning(field[0], min, max).lo;
    assert ValidSpan(Meaning(field[0], min, max), min, max);
    assert Selects(Meaning(field[0], min, max), v);
  }

  lemma ClockParts(day: int, h: int, m: int)
    requires 0 <= h < 24 && 0 <= m < 60
    ensures var t := At(day, h * HOUR + m * MINUTE);
            t / DAY == day && t % DAY / HOUR == h && t % HOUR / MINUTE == m && WholeMinute(t)
  {
    var clock := h * HOUR + m * MINUTE;
    var t := At(day, clock);
    AtSplits(day, clock);
    MinuteOfDay(t);
    Arith.DivisionIs(clock, h, HOUR, m * MINUTE);
    Arith.DivisionIs(t, (day * 24 + h) * 60 + m, MINUTE, 0);
  }

  /** A named time on the next day with that weekday. */
  lemma WeeklyInstant(e: Expression, from: int, w: int) returns (t: int)
    requires IsExpression(e) && ValuesInRange(e) && 0 <= w < 7
    ensures from < t <= from + 7 * DAY && WholeMinute(t) && FiresWeekly(e, w, t)
  {
    var h := FirstValue(e.hour, 0, 23);
    var m := FirstValue(e.minute, 0, 59);
    var clock := h * HOUR + m * MINUTE;
    var first := (from - clock) / DAY + 1;
    var day := WeekDayOccurs(first, w);
    t := At(day, clock);
    ClockParts(day, h, m);
    DateHasItsWeekDay(day);
    assert At(first - 1, clock) <= from < At(first, clock);
    assert At(first, clock) <= t <= At(first + 6, clock);
  }

  /**
   * An expression whose only restriction on the date is a weekday finds its next run
   * within seven days: the first named time after the start on a date with that weekday.
   */
  lemma {:induction false} WeekdayRun(expr: string, e: Expression, from: int, w: string)
    requires IsExpression(e) && ValuesInRange(e) && Words(expr) == FieldTexts(e)
    requires IsStar(e.dom) && IsStar(e.month) && AllDigits(w) && w != "" && e.dow == [Entry(Single(w), None)]
    ensures CronOf(expr).Some? && NextRun(CronOf(expr).value, from).Some?
    ensures var r := NextRun(CronOf(expr).value, from).value;
            && from < r <= from + 7 * DAY && WholeMinute(r) && FiresWeekly(e, DecimalValue(w), r)
            && forall u | from < u < r && WholeMinute(u) :: !FiresWeekly(e, DecimalValue(w), u)
  {
    NextRunOfExpression(expr, e, from);
    forall t ensures Fires(e, t) <==> FiresWeekly(e, DecimalValue(w), t) {
      WeeklyMeaning(e, w, t);
    }
    assert ValidSpan(Meaning(e.dow[0], 0, 6), 0, 6);
    var t := WeeklyInstant(e, from, DecimalValue(w));
    assert Fires(e, t);
  }
}
