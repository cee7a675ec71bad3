/// What the escape sequences mean: which texts are complete sequences, which codes
/// their parameters list, and what each code changes in the style.
module AnsiGrammar {
  import opened Prelude
  import opened Text
  import opened Ansi
  import Arith

  // ----- complete sequences, by the columns of the code table (section 5.4 of ECMA-48) -----

  predicate InColumns(c: char, first: int, last: int) {
    16 * first <= c as int < 16 * (last + 1)
  }

  predicate Introduces(text: string, i: nat, c: char) {
    i + 1 < |text| && text[i] as int == 27 && text[i + 1] == c
  }

  /** A control sequence: parameters up to `p`, intermediates up to `q`, and a final byte. */
  predicate IsControlSequence(text: string, i: nat, p: nat, q: nat) {
    && Introduces(text, i, '[') && i + 2 <= p <= q < |text|
    && (forall k | i + 2 <= k < p :: InColumns(text[k], 3, 3))
    && (forall k | p <= k < q :: InColumns(text[k], 2, 2))
    && InColumns(text[q], 4, 7) && text[q] as int != 127
  }

  /** A command string up to `q`, which may hold anything but BEL and ESC. */
  predicate IsCommand(text: string, i: nat, q: nat) {
    && Introduces(text, i, ']') && i + 2 <= q <= |text|
    && forall k | i + 2 <= k < q :: text[k] as int != 7 && text[k] as int != 27
  }

  /** Where a command string ends: behind BEL, behind ESC and a backslash, or with the text. */
  predicate EndsCommand(text: string, q: nat, end: nat) {
    || (q == end == |text|)
    || (q + 1 == end <= |text| && text[q] as int == 7)
    || (q + 2 == end <= |text| && text[q] as int == 27 && text[q + 1] == '\\')
  }

  /** ESC and one more character, except those that open something longer and a few unused ones. */
  predicate IsTwoCharacters(text: string, i: nat) {
    && i + 1 < |text| && text[i] as int == 27 && InColumns(text[i + 1], 3, 7)
    && text[i + 1] != ':' && text[i + 1] != ';' && text[i + 1] != '[' && text[i + 1] != ']' && text[i + 1] != '`'
    && text[i + 1] as int != 127
  }

  ghost predicate IsSequence(text: string, i: nat, e: Escape) {
    || (exists p: nat, q: nat :: IsControlSequence(text, i, p, q) && e == ControlSequence(text, i, p, q))
    || (e.sgr.None? && exists q: nat :: IsCommand(text, i, q) && EndsCommand(text, q, e.end))
    || (IsTwoCharacters(text, i) && e == Escape(i + 2, None))
  }

  /** Only the final byte `m` makes it a graphic rendition, with its parameters. */
  function ControlSequence(text: string, i: nat, p: nat, q: nat): Escape
    requires i + 2 <= p <= q < |text|
  {
    Escape(q + 1, if text[q] == 'm' then Some(text[i + 2..p]) else None)
  }

  lemma {:induction false} ParametersRun(text: string, i: nat)
    requires i <= |text|
    ensures var j := ParametersEnd(text, i);
            && (forall k | i <= k < j :: InColumns(text[k], 3, 3))
            && (j < |text| ==> !InColumns(text[j], 3, 3))
    decreases |text| - i
  {
    if i < |text| && IsParameter(text[i]) {
      ParametersRun(text, i + 1);
    }
  }

  lemma {:induction false} IntermediatesRun(text: string, i: nat)
    requires i <= |text|
    ensures var j := IntermediatesEnd(text, i);
            && (forall k | i <= k < j :: InColumns(text[k], 2, 2))
            && (j < |text| ==> !InColumns(text[j], 2, 2))
    decreases |text| - i
  {
    if i < |text| && IsIntermediate(text[i]) {
      IntermediatesRun(text, i + 1);
    }
  }

  lemma {:induction false} CommandRun(text: string, i: nat)
    requires i <= |text|
    ensures var j := CommandStringEnd(text, i);
            && (forall k | i <= k < j :: text[k] as int != 7 && text[k] as int != 27)
            && (j < |text| ==> text[j] as int == 7 || text[j] as int == 27)
    decreases |text| - i
  {
    if i < |text| && text[i] != BEL && text[i] != ESC {
      CommandRun(text, i + 1);
    }
  }

  lemma ControlSequenceFound(text: string, i: nat, e: Escape)
    requires Introduces(text, i, '[')
    ensures EscapeAt(text, i) == Some(e)
       <==> exists p: nat, q: nat :: IsControlSequence(text, i, p, q) && e == ControlSequence(text, i, p, q)
  {
    var p := ParametersEnd(text, i + 2);
    var q := IntermediatesEnd(text, p);
    ParametersRun(text, i + 2);
    IntermediatesRun(text, p);
    if EscapeAt(text, i) == Some(e) {
      assert IsControlSequence(text, i, p, q) && e == ControlSequence(text, i, p, q);
    }
    forall p': nat, q': nat | IsControlSequence(text, i, p', q') && e == ControlSequence(text, i, p', q')
      ensures EscapeAt(text, i) == Some(e)
    {
      OneControlSequence(text, i, p, q, p', q');
    }
  }

  /** Parameters and intermediates end in one place only. */
  lemma OneControlSequence(text: string, i: nat, p: nat, q: nat, p': nat, q': nat)
    requires IsControlSequence(text, i, p', q') && i + 2 <= p <= q <= |text|
    requires forall k | i + 2 <= k < p :: InColumns(text[k], 3, 3)
    requires p < |text| ==> !InColumns(text[p], 3, 3)
    requires forall k | p <= k < q :: InColumns(text[k], 2, 2)
    requires q < |text| ==> !InColumns(text[q], 2, 2)
    ensures p == p' && q == q'
  {
    var behindParameters, last := text[p'], text[q'];
    assert p == p';
  }

  lemma CommandFound(text: string, i: nat, e: Escape)
    requires Introduces(text, i, ']')
    ensures EscapeAt(text, i) == Some(e)
       <==> e.sgr.None? && exists q: nat :: IsCommand(text, i, q) && EndsCommand(text, q, e.end)
  {
    var q := CommandStringEnd(text, i + 2);
    CommandRun(text, i + 2);
    if EscapeAt(text, i) == Some(e) {
      assert IsCommand(text, i, q) && EndsCommand(text, q, e.end);
    }
    forall q': nat | IsCommand(text, i, q') && EndsCommand(text, q', e.end) && e.sgr.None?
      ensures EscapeAt(text, i) == Some(e)
    {
      assert q == q';
    }
  }

  /** What is taken for a sequence at a position is exactly a complete sequence of this grammar. */
  lemma EscapeAtIff(text: string, i: nat, e: Escape)
    requires i < |text|
    ensures EscapeAt(text, i) == Some(e) <==> IsSequence(text, i, e)
  {
    if Introduces(text, i, '[') {
      ControlSequenceFound(text, i, e);
    } else if Introduces(text, i, ']') {
      CommandFound(text, i, e);
    }
  }

  // ----- the codes of a parameter string -----

  function Numerals(ns: seq<nat>): (texts: seq<string>)
    ensures |texts| == |ns| && forall k | 0 <= k < |ns| :: texts[k] == Decimal(ns[k])
  {
    seq(|ns|, k requires 0 <= k < |ns| => Decimal(ns[k]))
  }

  lemma {:induction false} DecimalIsSomething(n: nat)
    ensures Decimal(n) != "" && Lacks(Decimal(n), ';')
  {
  }

  /** Numbers written between semicolons are the codes, and no parameters mean a reset. */
  lemma CodesOfNumbers(ns: seq<nat>)
    ensures ns == [] ==> Codes("") == [Some(0)]
    ensures ns != [] ==> Codes(JoinOn(Numerals(ns), ';')) == seq(|ns|, k requires 0 <= k < |ns| => Some(ns[k]))
  {
    if ns == [] {
      SplitUnbroken("0", ';');
      assert "0"[..0] == "" && DecimalValue("0") == 0;
      assert SplitOn("0", ';') == ["0"] && Number("0") == Some(0);
      assert |Codes("")| == 1 && Codes("")[0] == Some(0);
    } else {
      var texts := Numerals(ns);
      forall k | 0 <= k < |ns| ensures Lacks(texts[k], ';') && Number(texts[k]) == Some(ns[k]) {
        DecimalIsSomething(ns[k]);
        DecimalInverse(ns[k]);
      }
      SplitJoin(texts, ';');
      DecimalIsSomething(ns[0]);
      assert JoinOn(texts, ';') != "";
    }
  }

  // ----- what one code changes -----

  /** The foreground after a code; no code but these touches it. */
  function Foreground(before: Option<string>, code: nat): Option<string> {
    if code in {0, 39} then None
    else if code / 10 == 3 && code % 10 < 8 then Some(BASE_COLORS[code % 10])
    else if code / 10 == 9 && code % 10 < 8 then Some(BRIGHT_COLORS[code % 10])
    else before
  }

  function Background(before: Option<string>, code: nat): Option<string> {
    if code in {0, 49} then None
    else if code / 10 == 4 && code % 10 < 8 then Some(BASE_COLORS[code % 10])
    else if code / 10 == 10 && code % 10 < 8 then Some(BRIGHT_COLORS[code % 10])
    else before
  }

  /** A property one code sets and some codes clear. */
  function Switched(before: bool, code: nat, on: nat, off: set<nat>): bool {
    code == on || (before && code !in off)
  }

  /** Each property of the style, and the codes that change it. */
  lemma CodeChanges(style: Style, code: nat)
    ensures SimpleCode(style, code)
         == Style(Foreground(style.color, code), Background(style.background, code),
                  Switched(style.bold, code, 1, {0, 22}), Switched(style.dim, code, 2, {0, 22}),
                  Switched(style.underline, code, 4, {0, 24}))
  {
  }

  /** A code that stands alone acts, whatever follows; what is no number is passed over. */
  lemma {:induction false} CodesActInOrder(style: Style, codes: seq<Option<nat>>)
    ensures SgrFrom(style, [None] + codes, 0) == SgrFrom(style, codes, 0)
    ensures forall code: nat | code != 38 && code != 48 ::
              SgrFrom(style, [Some(code)] + codes, 0) == SgrFrom(SimpleCode(style, code), codes, 0)
    ensures SgrFrom(style, [], 0) == style
  {
    SgrShift(style, [None], codes, 0);
    forall code: nat | code != 38 && code != 48
      ensures SgrFrom(style, [Some(code)] + codes, 0) == SgrFrom(SimpleCode(style, code), codes, 0)
    {
      SgrShift(SimpleCode(style, code), [Some(code)], codes, 0);
    }
  }

  /** 38 sets the foreground and 48 the background, and nothing else, to a palette colour or one given by components. */
  lemma {:induction false} ExtendedColors(style: Style, n: nat, r: nat, g: nat, b: nat, codes: seq<Option<nat>>)
    ensures SgrFrom(style, [Some(38), Some(5), Some(n)] + codes, 0)
         == SgrFrom(style.(color := Some(Ansi256Color(n))), codes, 0)
    ensures SgrFrom(style, [Some(48), Some(5), Some(n)] + codes, 0)
         == SgrFrom(style.(background := Some(Ansi256Color(n))), codes, 0)
    ensures SgrFrom(style, [Some(38), Some(2), Some(r), Some(g), Some(b)] + codes, 0)
         == SgrFrom(style.(color := Some(Rgb(r, g, b))), codes, 0)
    ensures SgrFrom(style, [Some(48), Some(2), Some(r), Some(g), Some(b)] + codes, 0)
         == SgrFrom(style.(background := Some(Rgb(r, g, b))), codes, 0)
  {
    IndexedColorConsumesOperand(style, 38, n, codes);
    IndexedColorConsumesOperand(style, 48, n, codes);
    DirectColorConsumesOperands(style, 38, r, g, b, codes);
    DirectColorConsumesOperands(style, 48, r, g, b, codes);
  }

  /** A colour code whose mode or operands are missing or wrong is dropped together with its mode. */
  lemma {:induction false} BrokenColorIsDropped(style: Style, code: nat, mode: Option<nat>, codes: seq<Option<nat>>)
    requires code == 38 || code == 48
    requires mode == Some(5) ==> codes == [] || codes[0].None?
    requires mode == Some(2) ==> |codes| < 3 || codes[0].None? || codes[1].None? || codes[2].None?
    ensures SgrFrom(style, [Some(code), mode] + codes, 0) == SgrFrom(style, codes, 0)
  {
    var all := [Some(code), mode] + codes;
    assert all[0] == Some(code) && all[1] == mode && forall k | 0 <= k < |codes| :: all[k + 2] == codes[k];
    SgrShift(style, [Some(code), mode], codes, 0);
  }

  // ----- the palette -----

  const CUBE_LEVELS: seq<nat> := [0, 95, 135, 175, 215, 255]

  lemma CubeParts(r: nat, g: nat, b: nat)
    requires r < 6 && g < 6 && b < 6
    ensures var cube := 36 * r + 6 * g + b;
            cube / 36 == r && cube % 36 / 6 == g && cube % 6 == b && cube < 216
  {
    var cube := 36 * r + 6 * g + b;
    Arith.DivisionIs(cube, r, 36, 6 * g + b);
    Arith.DivisionIs(6 * g + b, g, 6, b);
    Arith.DivisionIs(cube, 6 * r + g, 6, b);
  }

  /** The xterm palette: a cube of six levels in each direction, ... */
  lemma CubeIs(r: nat, g: nat, b: nat)
    requires r < 6 && g < 6 && b < 6
    ensures Ansi256Color(16 + 36 * r + 6 * g + b) == Rgb(CUBE_LEVELS[r], CUBE_LEVELS[g], CUBE_LEVELS[b])
  {
    CubeParts(r, g, b);
    CubeStepIs(r);
    CubeStepIs(g);
    CubeStepIs(b);
  }

  /** ... sixteen named colours in front of it, and 24 greys behind it. */
  lemma NamedAndGrey(k: nat)
    ensures k < 8 ==> Ansi256Color(k) == BASE_COLORS[k] && Ansi256Color(8 + k) == BRIGHT_COLORS[k]
    ensures k < 24 ==> Ansi256Color(232 + k) == Rgb(8 + 10 * k, 8 + 10 * k, 8 + 10 * k)
  {
  }

  lemma CubeStepIs(v: nat)
    requires v < 6
    ensures CubeStep(v) == CUBE_LEVELS[v]
  {
  }

  lemma ThreeJoined(head: string, x: string, y: string, z: string)
    ensures head + x + "," + y + "," + z == head + JoinOn([x, y, z], ',')
  {
    assert [x, y, z][1..] == [y, z] && [y, z][1..] == [z];
    assert JoinOn([y, z], ',') == y + ([','] + z);
    assert JoinOn([x, y, z], ',') == x + ([','] + (y + ([','] + z)));
    ConcatAssociates(head, x, [','] + (y + ([','] + z)));
    ConcatAssociates(head + x, [','], y + ([','] + z));
    ConcatAssociates(head + x + ",", y, [','] + z);
    ConcatAssociates(head + x + "," + y, [','], z);
  }

  /** A colour by its components: three numerals between commas, in the parentheses of `rgb`. */
  lemma {:induction false} RgbReads(r: nat, g: nat, b: nat)
    ensures Rgb(r, g, b) == "rgb(" + JoinOn([Decimal(r), Decimal(g), Decimal(b)], ',') + ")"
    ensures SplitOn(JoinOn([Decimal(r), Decimal(g), Decimal(b)], ','), ',') == [Decimal(r), Decimal(g), Decimal(b)]
  {
    var texts := [Decimal(r), Decimal(g), Decimal(b)];
    ThreeJoined("rgb(", Decimal(r), Decimal(g), Decimal(b));
    forall k | 0 <= k < 3 ensures Lacks(texts[k], ',') {
    }
    SplitJoin(texts, ',');
  }

  // ----- the style attribute -----

  lemma {:induction false} SemicolonsJoin(parts: seq<string>)
    requires parts != []
    ensures JoinSemicolons(parts) == JoinOn(parts, ';')
  {
    if |parts| > 1 {
      SemicolonsJoin(parts[1..]);
      ConcatAssociates(parts[0], ";", JoinSemicolons(parts[1..]));
    }
  }

  /** Whether a declaration stands in the attribute. */
  predicate Declares(style: Style, declaration: string) {
    declaration in SplitOn(StyleText(style), ';')
  }

  /** Colours never hold a semicolon, so the declarations can be told apart. */
  predicate SingleColors(style: Style) {
    && (style.color.Some? ==> Lacks(style.color.value, ';'))
    && (style.background.Some? ==> Lacks(style.background.value, ';'))
  }

  lemma StyleSplits(style: Style)
    requires SingleColors(style) && style != PLAIN
    ensures SplitOn(StyleText(style), ';') == Declarations(style)
  {
    var parts := Declarations(style);
    assert parts != [];
    assert Lacks("font-weight:600", ';') && Lacks("opacity:.7", ';') && Lacks("text-decoration:underline", ';');
    SemicolonsJoin(parts);
    SplitJoin(parts, ';');
  }

  lemma SamePrefix(prefix: string, a: string, b: string)
    ensures prefix + a == prefix + b <==> a == b
  {
    assert (prefix + a)[|prefix|..] == a && (prefix + b)[|prefix|..] == b;
  }

  lemma DeclarationsHave(style: Style, d: string)
    ensures d in Declarations(style) <==>
              || (style.color.Some? && d == "color:" + style.color.value)
              || (style.background.Some? && d == "background:" + style.background.value)
              || (style.bold && d == "font-weight:600")
              || (style.dim && d == "opacity:.7")
              || (style.underline && d == "text-decoration:underline")
  {
  }

  lemma StyleHas(style: Style, d: string)
    requires SingleColors(style) && d != ""
    ensures Declares(style, d) <==> d in Declarations(style)
  {
    if style == PLAIN {
      assert SplitOn("", ';') == [""];
    } else {
      StyleSplits(style);
    }
  }

  /** The attribute declares exactly what the style holds. */
  lemma StyleDeclaresColors(style: Style, value: string)
    requires SingleColors(style)
    ensures Declares(style, "color:" + value) <==> style.color == Some(value)
    ensures Declares(style, "background:" + value) <==> style.background == Some(value)
  {
    StyleHas(style, "color:" + value);
    StyleHas(style, "background:" + value);
    DeclarationsHave(style, "color:" + value);
    DeclarationsHave(style, "background:" + value);
    if style.color.Some? {
      SamePrefix("color:", style.color.value, value);
    }
    if style.background.Some? {
      SamePrefix("background:", style.background.value, value);
    }
    assert ("color:" + value)[0] == 'c' && ("background:" + value)[0] == 'b';
  }

  lemma StyleDeclaresFont(style: Style)
    requires SingleColors(style)
    ensures Declares(style, "font-weight:600") <==> style.bold
    ensures Declares(style, "opacity:.7") <==> style.dim
    ensures Declares(style, "text-decoration:underline") <==> style.underline
    ensures StyleText(style) == "" <==> style == PLAIN
  {
    StyleHas(style, "font-weight:600");
    StyleHas(style, "opacity:.7");
    StyleHas(style, "text-decoration:underline");
    DeclarationsHave(style, "font-weight:600");
    DeclarationsHave(style, "opacity:.7");
    DeclarationsHave(style, "text-decoration:underline");
    assert style.color.Some? ==> ("color:" + style.color.value)[0] == 'c';
    assert style.background.Some? ==> ("background:" + style.background.value)[0] == 'b';
    if style != PLAIN {
      StyleSplits(style);
      assert SplitOn("", ';') == [""] && Declarations(style)[0] != "";
    }
  }
}
