/// Console colours: turning a line with ANSI escape sequences into HTML.
///
/// The theorem reads the produced HTML back with an independent reader and finds
/// exactly the characters outside escape sequences, each with the style that the
/// SGR sequences in front of it add up to.
module Ansi {
  import opened Prelude
  import opened Text

  const ESC: char := '\U{1b}'
  const BEL: char := '\U{7}'

  const BASE_COLORS: seq<string> :=
    ["#000000", "#E54B4B", "#9ECE58", "#FAED70", "#396FE2", "#BB80B3", "#2DDAFD", "#d0d0d0"]

  const BRIGHT_COLORS: seq<string> :=
    ["#555555", "#FF5370", "#C3E88D", "#FFCB6B", "#82AAFF", "#C792EA", "#89DDFF", "#ffffff"]

  // ----- escape sequences (section 5.4 of ECMA-48) -----

  predicate IsParameter(c: char) {
    '0' <= c <= '?'
  }

  predicate IsIntermediate(c: char) {
    ' ' <= c <= '/'
  }

  predicate IsFinal(c: char) {
    '@' <= c <= '~'
  }

  predicate IsSimpleEscape(c: char) {
    '@' <= c <= 'Z' || c == '\\' || c == '^' || c == '_' || '0' <= c <= '9' || c == '<' || c == '=' || c == '>'
        || c == '?'
    || 'a' <= c <= '~'
  }

  function ParametersEnd(text: string, i: nat): (j: nat)
    requires i <= |text|
    ensures i <= j <= |text|
    decreases |text| - i
  {
    if i < |text| && IsParameter(text[i]) then ParametersEnd(text, i + 1) else i
  }

  function IntermediatesEnd(text: string, i: nat): (j: nat)
    requires i <= |text|
    ensures i <= j <= |text|
    decreases |text| - i
  {
    if i < |text| && IsIntermediate(text[i]) then IntermediatesEnd(text, i + 1) else i
  }

  function CommandStringEnd(text: string, i: nat): (j: nat)
    requires i <= |text|
    ensures i <= j <= |text|
    decreases |text| - i
  {
    if i < |text| && text[i] != BEL && text[i] != ESC then CommandStringEnd(text, i + 1) else i
  }

  /** A complete sequence: where it ends, and its parameters if it selects a graphic rendition. */
  datatype Escape = Escape(end: nat, sgr: Option<string>)

  /** What the escape expression matches at position `i`. */
  function EscapeAt(text: string, i: nat): (e: Option<Escape>)
    requires i < |text|
    ensures e.Some? ==> i < e.value.end <= |text|
  {
    if text[i] != ESC || i + 1 == |text| then None
    else if text[i + 1] == '[' then
      var p := ParametersEnd(text, i + 2);
      var q := IntermediatesEnd(text, p);
      if q < |text| && IsFinal(text[q]) then
        Some(Escape(q + 1, if text[q] == 'm' then Some(text[i + 2..p]) else None))
      else None
    else if text[i + 1] == ']' then
      var q := CommandStringEnd(text, i + 2);
      if q == |text| then Some(Escape(q, None))
      else if text[q] == BEL then Some(Escape(q + 1, None))
      else if q + 1 < |text| && text[q + 1] == '\\' then Some(Escape(q + 2, None))
      else None
    else if IsSimpleEscape(text[i + 1]) then Some(Escape(i + 2, None))
    else None
  }

  /** `escape.exec(text)` from position `from`: the leftmost match. */
  function NextEscape(text: string, from: nat): (m: Option<(nat, Escape)>)
    requires from <= |text|
    ensures m.Some? ==> from <= m.value.0 < m.value.1.end <= |text|
    ensures m.Some? ==> EscapeAt(text, m.value.0) == Some(m.value.1)
    ensures forall k | from <= k < (if m.Some? then m.value.0 else |text|) :: EscapeAt(text, k) == None
    decreases |text| - from
  {
    if from == |text| then None
    else match EscapeAt(text, from)
         case Some(e) => Some((from, e))
         case None => NextEscape(text, from + 1)
  }

  // ----- select graphic rendition (section 8.3.117 of ECMA-48) -----

  datatype Style = Style(color: Option<string>, background: Option<string>, bold: bool, dim: bool, underline: bool)

  const PLAIN: Style := Style(None, None, false, false, false)

  function Rgb(r: nat, g: nat, b: nat): (s: string)
    ensures SafeText(s)
  {
    "rgb(" + Decimal(r) + "," + Decimal(g) + "," + Decimal(b) + ")"
  }

  /** Text that cannot end an attribute or a tag. */
  predicate SafeText(s: string) {
    forall c | c in s :: c != '>' && c != '"'
  }

  function CubeStep(v: nat): nat {
    if v == 0 then 0 else 55 + v * 40
  }

  lemma PaletteIsSafe(i: nat)
    requires i < 8
    ensures SafeText(BASE_COLORS[i]) && SafeText(BRIGHT_COLORS[i])
  {
    assert i == 0 || i == 1 || i == 2 || i == 3 || i == 4 || i == 5 || i == 6 || i == 7;
  }

  /** The xterm 256-colour cube. */
  function Ansi256Color(n: nat): (s: string)
    ensures SafeText(s)
  {
    if n < 8 then PaletteIsSafe(n); BASE_COLORS[n]
    else if n < 16 then PaletteIsSafe(n - 8); BRIGHT_COLORS[n - 8]
    else if n < 232 then
      var cube := n - 16;
      Rgb(CubeStep(cube / 36), CubeStep(cube % 36 / 6), CubeStep(cube % 6))
    else
      var grey := 8 + (n - 232) * 10;
      Rgb(grey, grey, grey)
  }

  function Codes(params: string): (codes: seq<Option<nat>>)
    ensures codes != []
  {
    var parts := SplitOn(if params == "" then "0" else params, ';');
    seq(|parts|, i requires 0 <= i < |parts| => Number(parts[i]))
  }

  /** The effect of one code that stands alone. */
  function SimpleCode(style: Style, code: nat): Style {
    if code == 0 then PLAIN
    else if code == 1 then style.(bold := true)
    else if code == 2 then style.(dim := true)
    else if code == 4 then style.(underline := true)
    else if code == 22 then style.(bold := false, dim := false)
    else if code == 24 then style.(underline := false)
    else if code == 39 then style.(color := None)
    else if code == 49 then style.(background := None)
    else if 30 <= code <= 37 then style.(color := Some(BASE_COLORS[code - 30]))
    else if 90 <= code <= 97 then style.(color := Some(BRIGHT_COLORS[code - 90]))
    else if 40 <= code <= 47 then style.(background := Some(BASE_COLORS[code - 40]))
    else if 100 <= code <= 107 then style.(background := Some(BRIGHT_COLORS[code - 100]))
    else style
  }

  function Paint(style: Style, code: nat, color: string): Style {
    if code == 38 then style.(color := Some(color)) else style.(background := Some(color))
  }

  /** The style after the codes from position `i` on. */
  function SgrFrom(style: Style, codes: seq<Option<nat>>, i: nat): Style
    decreases |codes| - i
  {
    if i >= |codes| then style
    else match codes[i]
      case None => SgrFrom(style, codes, i + 1)
      case Some(code) =>
        if code == 38 || code == 48 then
          if i + 2 < |codes| && codes[i + 1] == Some(5) && codes[i + 2].Some? then
            SgrFrom(Paint(style, code, Ansi256Color(codes[i + 2].value)), codes, i + 3)
          else if i + 4 < |codes| && codes[i + 1] == Some(2)
            && codes[i + 2].Some? && codes[i + 3].Some? && codes[i + 4].Some? then
            SgrFrom(Paint(style, code, Rgb(codes[i + 2].value, codes[i + 3].value, codes[i + 4].value)), codes, i + 5)
          else SgrFrom(style, codes, i + 2)
        else SgrFrom(SimpleCode(style, code), codes, i + 1)
  }

  function Sgr(style: Style, params: string): Style {
    SgrFrom(style, Codes(params), 0)
  }

  /** The style object of the source, updated field by field. */
  class StyleState {
    var color: Option<string>
    var background: Option<string>
    var bold: bool
    var dim: bool
    var underline: bool

    function Current(): Style
      reads this
    {
      Style(color, background, bold, dim, underline)
    }

    constructor ()
      ensures Current() == PLAIN
    {
      color, background, bold, dim, underline := None, None, false, false, false;
    }

    method SetTarget(code: nat, value: string)
      requires code == 38 || code == 48
      modifies this
      ensures Current() == Paint(old(Current()), code, value)
    {
      if code == 38 {
        color := Some(value);
      } else {
        background := Some(value);
      }
    }

    method ApplyCode(code: nat)
      modifies this
      ensures Current() == SimpleCode(old(Current()), code)
    {
      if code == 0 {
        color := None;
        background := None;
        bold := false;
        dim := false;
        underline := false;
      } else if code == 1 {
        bold := true;
      } else if code == 2 {
        dim := true;
      } else if code == 4 {
        underline := true;
      } else if code == 22 {
        bold := false;
        dim := false;
      } else if code == 24 {
        underline := false;
      } else if code == 39 {
        color := None;
      } else if code == 49 {
        background := None;
      } else if 30 <= code <= 37 {
        color := Some(BASE_COLORS[code - 30]);
      } else if 90 <= code <= 97 {
        color := Some(BRIGHT_COLORS[code - 90]);
      } else if 40 <= code <= 47 {
        background := Some(BASE_COLORS[code - 40]);
      } else if 100 <= code <= 107 {
        background := Some(BRIGHT_COLORS[code - 100]);
      }
    }

    method ApplySgr(params: string)
      modifies this
      ensures Current() == Sgr(old(Current()), params)
    {
      var codes := Codes(params);
      var i := 0;
      while i < |codes|
        invariant SgrFrom(Current(), codes, i) == Sgr(old(Current()), params)
        decreases |codes| - i
      {
        match codes[i] {
          case None =>
          case Some(code) =>
            if code == 38 || code == 48 {
              if i + 2 < |codes| && codes[i + 1] == Some(5) && codes[i + 2].Some? {
                SetTarget(code, Ansi256Color(codes[i + 2].value));
                i := i + 2;
              } else if i + 4 < |codes| && codes[i + 1] == Some(2)
                && codes[i + 2].Some? && codes[i + 3].Some? && codes[i + 4].Some? {
                SetTarget(code, Rgb(codes[i + 2].value, codes[i + 3].value, codes[i + 4].value));
                i := i + 4;
              } else {
                i := i + 1;
              }
            } else {
              ApplyCode(code);
            }
        }
        i := i + 1;
      }
    }
  }

  predicate SafeStyle(s: Style) {
    (s.color.Some? ==> SafeText(s.color.value)) && (s.background.Some? ==> SafeText(s.background.value))
  }

  lemma SimpleCodeIsSafe(style: Style, code: nat)
    requires SafeStyle(style)
    ensures SafeStyle(SimpleCode(style, code))
  {
    if 30 <= code <= 37 {
      PaletteIsSafe(code - 30);
    } else if 40 <= code <= 47 {
      PaletteIsSafe(code - 40);
    } else if 90 <= code <= 97 {
      PaletteIsSafe(code - 90);
    } else if 100 <= code <= 107 {
      PaletteIsSafe(code - 100);
    }
  }

  lemma {:induction false} SgrIsSafe(style: Style, codes: seq<Option<nat>>, i: nat)
    requires SafeStyle(style)
    ensures SafeStyle(SgrFrom(style, codes, i))
    decreases |codes| - i
  {
    if i < |codes| {
      match codes[i] {
        case None => SgrIsSafe(style, codes, i + 1);
        case Some(code) =>
          if code == 38 || code == 48 {
            if i + 2 < |codes| && codes[i + 1] == Some(5) && codes[i + 2].Some? {
              SgrIsSafe(Paint(style, code, Ansi256Color(codes[i + 2].value)), codes, i + 3);
            } else if i + 4 < |codes| && codes[i + 1] == Some(2)
              && codes[i + 2].Some? && codes[i + 3].Some? && codes[i + 4].Some? {
              SgrIsSafe(Paint(style, code, Rgb(codes[i + 2].value, codes[i + 3].value, codes[i + 4].value)),
                codes, i + 5);
            } else {
              SgrIsSafe(style, codes, i + 2);
            }
          } else {
            SimpleCodeIsSafe(style, code);
            SgrIsSafe(SimpleCode(style, code), codes, i + 1);
          }
      }
    }
  }

  // ----- style text -----

  function Declarations(style: Style): seq<string> {
    (if style.color.Some? then ["color:" + style.color.value] else [])
    + (if style.background.Some? then ["background:" + style.background.value] else [])
    + (if style.bold then ["font-weight:600"] else [])
    + (if style.dim then ["opacity:.7"] else [])
    + (if style.underline then ["text-decoration:underline"] else [])
  }

  function JoinSemicolons(parts: seq<string>): string {
    if parts == [] then "" else if |parts| == 1 then parts[0] else parts[0] + ";" + JoinSemicolons(parts[1..])
  }

  function StyleText(style: Style): string {
    JoinSemicolons(Declarations(style))
  }

  lemma {:induction false} JoinIsSafe(parts: seq<string>)
    requires forall p | p in parts :: SafeText(p)
    ensures SafeText(JoinSemicolons(parts))
  {
    if parts != [] {
      assert parts[0] in parts;
      if |parts| > 1 {
        JoinIsSafe(parts[1..]);
      }
    }
  }

  lemma StyleTextIsSafe(style: Style)
    requires SafeStyle(style)
    ensures SafeText(StyleText(style))
  {
    assert style.color.Some? ==> SafeText("color:" + style.color.value);
    assert style.background.Some? ==> SafeText("background:" + style.background.value);
    assert SafeText("font-weight:600") && SafeText("opacity:.7") && SafeText("text-decoration:underline");
    JoinIsSafe(Declarations(style));
  }

  // ----- HTML out -----

  function ReplaceAll(text: string, c: char, with: string): string {
    if text == [] then [] else (if text[0] == c then with else [text[0]]) + ReplaceAll(text[1..], c, with)
  }

  function EscapeHtml(text: string): string {
    ReplaceAll(ReplaceAll(ReplaceAll(text, '&', "&amp;"), '<', "&lt;"), '>', "&gt;")
  }

  /** A run of text in one style, as `flush` writes it. */
  datatype Piece = Piece(text: string, style: Style)

  function RenderPiece(p: Piece): string {
    RenderStyled(p.text, StyleText(p.style))
  }

  // ----- reading HTML back -----

  /** A visible character and the style text of the element it stands in. */
  datatype Glyph = Glyph(c: char, css: string)

  function Painted(text: string, css: string): seq<Glyph> {
    if text == "" then [] else [Glyph(text[0], css)] + Painted(text[1..], css)
  }

  function TagEnd(html: string, i: nat): (j: nat)
    requires i <= |html|
    ensures i <= j <= |html|
    decreases |html| - i
  {
    if i < |html| && html[i] != '>' then TagEnd(html, i + 1) else i
  }

  /** The style an opening `span` tag gives to what follows; a closing tag gives none. */
  function TagStyle(tag: string): string {
    if "span style=\"" <= tag && |tag| > 12 then tag[12..|tag| - 1] else ""
  }

  /** A reader for text, character references and unnested `span` elements. */
  function ReadHtml(html: string, css: string): seq<Glyph>
    decreases |html|
  {
    if html == "" then []
    else if html[0] == '<' then
      var j := TagEnd(html, 1);
      if j == |html| then [] else ReadHtml(html[j + 1..], TagStyle(html[1..j]))
    else if "&amp;" <= html then [Glyph('&', css)] + ReadHtml(html[5..], css)
    else if "&lt;" <= html then [Glyph('<', css)] + ReadHtml(html[4..], css)
    else if "&gt;" <= html then [Glyph('>', css)] + ReadHtml(html[4..], css)
    else [Glyph(html[0], css)] + ReadHtml(html[1..], css)
  }

  /** The reference one character at a time. */
  function Escaped(c: char): string {
    if c == '&' then "&amp;" else if c == '<' then "&lt;" else if c == '>' then "&gt;" else [c]
  }

  lemma {:induction false} ReplaceConcat(a: string, b: string, c: char, with: string)
    ensures ReplaceAll(a + b, c, with) == ReplaceAll(a, c, with) + ReplaceAll(b, c, with)
  {
    if a == [] {
      assert a + b == b;
    } else {
      ReplaceConcat(a[1..], b, c, with);
      assert (a + b)[1..] == a[1..] + b;
    }
  }

  lemma {:induction false} ReplaceAbsent(a: string, c: char, with: string)
    requires c !in a
    ensures ReplaceAll(a, c, with) == a
  {
    if a != [] {
      ReplaceAbsent(a[1..], c, with);
    }
  }

  lemma EscapeHtmlCons(c: char, text: string)
    ensures EscapeHtml([c] + text) == Escaped(c) + EscapeHtml(text)
  {
    var amp := ReplaceAll(text, '&', "&amp;");
    var lt := ReplaceAll(amp, '<', "&lt;");
    var one := if c == '&' then "&amp;" else [c];
    assert ReplaceAll([c] + text, '&', "&amp;") == one + amp by { assert ([c] + text)[1..] == text; }
    ReplaceConcat(one, amp, '<', "&lt;");
    var two := ReplaceAll(one, '<', "&lt;");
    ReplaceConcat(two, lt, '>', "&gt;");
    if c == '<' {
      assert [c][1..] == [];
      assert two == "&lt;";
    } else {
      ReplaceAbsent(one, '<', "&lt;");
    }
    if c == '>' {
      assert [c][1..] == [];
    } else {
      ReplaceAbsent(two, '>', "&gt;");
    }
  }

  lemma {:induction false} ReadEscapedCharacter(c: char, rest: string, css: string)
    ensures ReadHtml(Escaped(c) + rest, css) == [Glyph(c, css)] + ReadHtml(rest, css)
  {
    var html := Escaped(c) + rest;
    assert html[|Escaped(c)|..] == rest;
    if c == '&' {
      assert html[0] == '&' && "&amp;" <= html;
    } else if c == '<' {
      assert html[0] == '&' && html[1] == 'l' && "&lt;" <= html;
    } else if c == '>' {
      assert html[0] == '&' && html[1] == 'g' && "&gt;" <= html;
    } else {
      assert html[0] == c;
    }
  }

  lemma {:induction false} ReadEscaped(text: string, rest: string, css: string)
    ensures ReadHtml(EscapeHtml(text) + rest, css) == Painted(text, css) + ReadHtml(rest, css)
  {
    if text == "" {
      assert "" + rest == rest;
    } else {
      ReadEscaped(text[1..], rest, css);
      ReadEscapedStep(text[0], text[1..], rest, css);
      assert text == [text[0]] + text[1..];
    }
  }

  lemma {:induction false} ReadEscapedStep(c: char, tail: string, rest: string, css: string)
    requires ReadHtml(EscapeHtml(tail) + rest, css) == Painted(tail, css) + ReadHtml(rest, css)
    ensures ReadHtml(EscapeHtml([c] + tail) + rest, css) == Painted([c] + tail, css) + ReadHtml(rest, css)
  {
    EscapeHtmlCons(c, tail);
    var escaped, more := EscapeHtml(tail), ReadHtml(rest, css);
    ConcatAssociates(Escaped(c), escaped, rest);
    ReadEscapedCharacter(c, escaped + rest, css);
    PaintedConcat([c], tail, css);
    assert Painted([c], css) == [Glyph(c, css)];
    ConcatAssociates([Glyph(c, css)], Painted(tail, css), more);
  }

  lemma {:induction false} TagEndIs(html: string, i: nat, j: nat)
    requires i <= j < |html| && html[j] == '>' && forall k | i <= k < j :: html[k] != '>'
    ensures TagEnd(html, i) == j
    decreases j - i
  {
    if i < j {
      TagEndIs(html, i + 1, j);
    }
  }

  lemma {:induction false} ReadTag(tag: string, rest: string, css: string)
    requires '>' !in tag
    ensures ReadHtml("<" + tag + ">" + rest, css) == ReadHtml(rest, TagStyle(tag))
  {
    var html := "<" + tag + ">" + rest;
    forall k | 1 <= k < |tag| + 1 ensures html[k] != '>' {
      assert html[k] == tag[k - 1];
    }
    TagEndIs(html, 1, |tag| + 1);
    assert html[1..|tag| + 1] == tag && html[|tag| + 2..] == rest;
  }

  lemma {:induction false} ReadSpan(css: string, text: string, rest: string)
    requires css != "" && SafeText(css)
    ensures ReadHtml("<span style=\"" + css + "\">" + EscapeHtml(text) + "</span>" + rest, "")
         == Painted(text, css) + ReadHtml(rest, "")
  {
    var tag := "span style=\"" + css + "\"";
    var body := EscapeHtml(text) + ("</span>" + rest);
    assert "<span style=\"" + css + "\">" + EscapeHtml(text) + "</span>" + rest == "<" + tag + ">" + body;
    OpeningTag(css);
    ReadTag(tag, body, "");
    ReadEscaped(text, "</span>" + rest, css);
    ClosingTag(rest, css);
  }

  lemma OpeningTag(css: string)
    requires css != "" && SafeText(css)
    ensures var tag := "span style=\"" + css + "\""; '>' !in tag && TagStyle(tag) == css
  {
  }

  lemma {:induction false} ClosingTag(rest: string, css: string)
    ensures ReadHtml("</span>" + rest, css) == ReadHtml(rest, "")
  {
    assert "</span>" + rest == "<" + "/span" + ">" + rest;
    ReadTag("/span", rest, css);
  }

  lemma {:induction false} ReadPiece(p: Piece, rest: string)
    requires SafeStyle(p.style)
    ensures ReadHtml(RenderPiece(p) + rest, "") == Painted(p.text, StyleText(p.style)) + ReadHtml(rest, "")
  {
    StyleTextIsSafe(p.style);
    ReadStyled(p.text, StyleText(p.style), rest);
  }

  function RenderStyled(text: string, css: string): string {
    if text == "" then ""
    else if css == "" then EscapeHtml(text)
    else "<span style=\"" + css + "\">" + EscapeHtml(text) + "</span>"
  }

  lemma {:induction false} ReadStyled(text: string, css: string, rest: string)
    requires SafeText(css)
    ensures ReadHtml(RenderStyled(text, css) + rest, "") == Painted(text, css) + ReadHtml(rest, "")
  {
    if text == "" {
      assert "" + rest == rest;
    } else if css == "" {
      ReadEscaped(text, rest, "");
    } else {
      ReadSpan(css, text, rest);
    }
  }

  // ----- the conversion -----

  /** The reference meaning: what is visible from position `i` on, in which style. */
  function Visible(text: string, i: nat, style: Style): seq<Glyph>
    requires i <= |text|
    decreases |text| - i
  {
    if i == |text| then []
    else match EscapeAt(text, i)
      case Some(e) => Visible(text, e.end, if e.sgr.Some? then Sgr(style, e.sgr.value) else style)
      case None => [Glyph(text[i], StyleText(style))] + Visible(text, i + 1, style)
  }

  lemma {:induction false} VisiblePlain(text: string, i: nat, j: nat, style: Style)
    requires i <= j <= |text|
    requires forall k | i <= k < j :: EscapeAt(text, k) == None
    ensures Visible(text, i, style) == Painted(text[i..j], StyleText(style)) + Visible(text, j, style)
    decreases j - i
  {
    if i < j {
      VisiblePlain(text, i + 1, j, style);
      var css := StyleText(style);
      assert text[i..j] == [text[i]] + text[i + 1..j];
      PaintedCons(text[i], text[i + 1..j], css);
      ConcatAssociates([Glyph(text[i], css)], Painted(text[i + 1..j], css), Visible(text, j, style));
    }
  }

  method Flush(html: string, plain: string, style: Style) returns (r: string)
    ensures r == html + RenderPiece(Piece(plain, style))
  {
    if plain == "" {
      return html;
    }
    var css := StyleText(style);
    r := html + if css != "" then "<span style=\"" + css + "\">" + EscapeHtml(plain) + "</span>" else EscapeHtml(plain);
  }

  /**
   * What the loop still writes when it stands at `last` with `plain` pending: one
   * piece per run of text between renditions.
   */
  function Rest(text: string, last: nat, style: Style, plain: string): string
    requires last <= |text|
    decreases |text| - last
  {
    match NextEscape(text, last)
    case None => RenderPiece(Piece(plain + text[last..], style))
    case Some((index, e)) =>
      var run := plain + text[last..index];
      if e.sgr.Some? then RenderPiece(Piece(run, style)) + Rest(text, e.end, Sgr(style, e.sgr.value), "")
      else Rest(text, e.end, style, run)
  }

  method AnsiToHtml(text: string) returns (html: string)
    ensures html == Rest(text, 0, PLAIN, "")
    ensures ReadHtml(html, "") == Visible(text, 0, PLAIN)
  {
    var style := new StyleState();
    html := "";
    var plain := "";
    var last := 0;
    var m := NextEscape(text, last);
    while m.Some?
      invariant last <= |text| && m == NextEscape(text, last)
      invariant html + Rest(text, last, style.Current(), plain) == Rest(text, 0, PLAIN, "")
      invariant fresh(style)
      decreases |text| - last
    {
      var (index, e) := m.value;
      plain := plain + text[last..index];
      last := e.end;
      if e.sgr.Some? {
        ghost var piece := RenderPiece(Piece(plain, style.Current()));
        ConcatAssociates(html, piece, Rest(text, last, Sgr(style.Current(), e.sgr.value), ""));
        html := Flush(html, plain, style.Current());
        plain := "";
        style.ApplySgr(e.sgr.value);
      }
      m := NextEscape(text, last);
    }
    plain := plain + text[last..];
    html := Flush(html, plain, style.Current());
    ReadRest(text, 0, PLAIN, "");
    assert Painted("", "") + Visible(text, 0, PLAIN) == Visible(text, 0, PLAIN);
  }

  lemma {:induction false} PaintedCons(c: char, text: string, css: string)
    ensures Painted([c] + text, css) == [Glyph(c, css)] + Painted(text, css)
  {
    assert ([c] + text)[1..] == text;
  }

  lemma {:induction false} PaintedConcat(a: string, b: string, css: string)
    ensures Painted(a + b, css) == Painted(a, css) + Painted(b, css)
  {
    if a == "" {
      assert a + b == b;
    } else {
      var c, rest := a[0], a[1..];
      PaintedConcat(rest, b, css);
      assert a == [c] + rest;
      ConcatAssociates([c], rest, b);
      PaintedCons(c, rest, css);
      PaintedCons(c, rest + b, css);
      ConcatAssociates([Glyph(c, css)], Painted(rest, css), Painted(b, css));
    }
  }

  lemma {:induction false} PaintedRun(text: string, last: nat, j: nat, style: Style, plain: string)
    requires last <= j <= |text| && forall k | last <= k < j :: EscapeAt(text, k) == None
    ensures Painted(plain + text[last..j], StyleText(style)) + Visible(text, j, style)
         == Painted(plain, StyleText(style)) + Visible(text, last, style)
  {
    var css := StyleText(style);
    VisiblePlain(text, last, j, style);
    PaintedConcat(plain, text[last..j], css);
    ConcatAssociates(Painted(plain, css), Painted(text[last..j], css), Visible(text, j, style));
  }

  /**
   * Reading the written HTML back yields the pending text and then exactly the
   * visible characters that follow, each with the style its SGR sequences fold to.
   */
  lemma {:induction false} ReadRest(text: string, last: nat, style: Style, plain: string)
    requires last <= |text| && SafeStyle(style)
    ensures ReadHtml(Rest(text, last, style, plain), "")
         == Painted(plain, StyleText(style)) + Visible(text, last, style)
    decreases |text| - last
  {
    match NextEscape(text, last) {
      case None =>
        PaintedRun(text, last, |text|, style, plain);
        assert text[last..|text|] == text[last..];
        ReadLastPiece(Piece(plain + text[last..], style));
      case Some((index, e)) =>
        var run := plain + text[last..index];
        PaintedRun(text, last, index, style, plain);
        if e.sgr.Some? {
          var after := Sgr(style, e.sgr.value);
          SgrIsSafe(style, Codes(e.sgr.value), 0);
          ReadRest(text, e.end, after, "");
          ReadBeforeSgr(text, index, style, run, Rest(text, e.end, after, ""));
        } else {
          ReadRest(text, e.end, style, run);
        }
    }
  }

  lemma {:induction false} ReadBeforeSgr(text: string, index: nat, style: Style, run: string, rest: string)
    requires SafeStyle(style) && index < |text|
    requires EscapeAt(text, index).Some? && EscapeAt(text, index).value.sgr.Some?
    requires var e := EscapeAt(text, index).value; var after := Sgr(style, e.sgr.value);
             ReadHtml(rest, "") == Painted("", StyleText(after)) + Visible(text, e.end, after)
    ensures ReadHtml(RenderPiece(Piece(run, style)) + rest, "")
         == Painted(run, StyleText(style)) + Visible(text, index, style)
  {
    ReadPiece(Piece(run, style), rest);
    assert ReadHtml(rest, "") == Visible(text, index, style);
  }

  lemma ReadLastPiece(p: Piece)
    requires SafeStyle(p.style)
    ensures ReadHtml(RenderPiece(p), "") == Painted(p.text, StyleText(p.style))
  {
    ReadPiece(p, "");
    assert RenderPiece(p) + "" == RenderPiece(p);
  }

  // ----- consequences -----

  /** The text with every complete escape sequence removed. */
  function Stripped(text: string, i: nat): string
    requires i <= |text|
    decreases |text| - i
  {
    if i == |text| then ""
    else match EscapeAt(text, i)
      case Some(e) => Stripped(text, e.end)
      case None => [text[i]] + Stripped(text, i + 1)
  }

  function Characters(glyphs: seq<Glyph>): (s: string)
    ensures |s| == |glyphs|
  {
    seq(|glyphs|, i requires 0 <= i < |glyphs| => glyphs[i].c)
  }

  /** Styling never adds, drops or reorders visible text. */
  lemma {:induction false} VisibleIsStripped(text: string, i: nat, style: Style)
    requires i <= |text|
    ensures Characters(Visible(text, i, style)) == Stripped(text, i)
    decreases |text| - i
  {
    if i < |text| {
      match EscapeAt(text, i) {
        case Some(e) => VisibleIsStripped(text, e.end, if e.sgr.Some? then Sgr(style, e.sgr.value) else style);
        case None =>
          VisibleIsStripped(text, i + 1, style);
          var rest := Visible(text, i + 1, style);
          assert Characters([Glyph(text[i], StyleText(style))] + rest) == [text[i]] + Characters(rest);
      }
    }
  }

  lemma {:induction false} SgrShift(style: Style, front: seq<Option<nat>>, codes: seq<Option<nat>>, i: nat)
    requires i <= |codes|
    ensures SgrFrom(style, front + codes, |front| + i) == SgrFrom(style, codes, i)
    decreases |codes| - i
  {
    var all := front + codes;
    if i < |codes| {
      assert forall k | 0 <= k < |codes| :: all[|front| + k] == codes[k];
      match codes[i] {
        case None => SgrShift(style, front, codes, i + 1);
        case Some(code) =>
          if code == 38 || code == 48 {
            if i + 2 < |codes| && codes[i + 1] == Some(5) && codes[i + 2].Some? {
              SgrShift(Paint(style, code, Ansi256Color(codes[i + 2].value)), front, codes, i + 3);
            } else if i + 4 < |codes| && codes[i + 1] == Some(2)
              && codes[i + 2].Some? && codes[i + 3].Some? && codes[i + 4].Some? {
              SgrShift(Paint(style, code, Rgb(codes[i + 2].value, codes[i + 3].value, codes[i + 4].value)),
                front, codes, i + 5);
            } else if i + 2 <= |codes| {
              SgrShift(style, front, codes, i + 2);
            }
          } else {
            SgrShift(SimpleCode(style, code), front, codes, i + 1);
          }
      }
    }
  }

  /**
   * The colour index after `38;5` and `48;5` is an operand: whatever its value, it
   * never acts as a code of its own, and what follows is read as if it stood alone.
   */
  lemma {:induction false} IndexedColorConsumesOperand(style: Style, code: nat, n: nat, codes: seq<Option<nat>>)
    requires code == 38 || code == 48
    ensures SgrFrom(style, [Some(code), Some(5), Some(n)] + codes, 0)
         == SgrFrom(Paint(style, code, Ansi256Color(n)), codes, 0)
  {
    var front := [Some(code), Some(5), Some(n)];
    var all := front + codes;
    assert all[0] == Some(code) && all[1] == Some(5) && all[2] == Some(n);
    SgrShift(Paint(style, code, Ansi256Color(n)), front, codes, 0);
  }

  lemma {:induction false} DirectColorConsumesOperands(
      style: Style, code: nat, r: nat, g: nat, b: nat, codes: seq<Option<nat>>)
    requires code == 38 || code == 48
    ensures SgrFrom(style, [Some(code), Some(2), Some(r), Some(g), Some(b)] + codes, 0)
         == SgrFrom(Paint(style, code, Rgb(r, g, b)), codes, 0)
  {
    var front := [Some(code), Some(2), Some(r), Some(g), Some(b)];
    var all := front + codes;
    assert all[0] == Some(code) && all[1] == Some(2) && all[2] == Some(r) && all[3] == Some(g) && all[4] == Some(b);
    SgrShift(Paint(style, code, Rgb(r, g, b)), front, codes, 0);
  }
}
