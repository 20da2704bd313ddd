/** Rendering of a diagnostic (`src/diagnostic.cc`): a colourless one-paragraph
    form, and a coloured form that shows a window of source lines with a
    numbered gutter, the offending span highlighted and a caret row under it. */
module Render {
  import opened Text
  import opened Colors
  import opened Diagnostics

  /** The line number `format_line` treats as "no number" (the banner row). */
  const UINT32_MAX: nat := 0xFFFF_FFFF

  lemma AppendAssoc(a: string, b: string, c: string)
    ensures (a + b) + c == a + (b + c)
  {
  }

  function Max(a: nat, b: nat): nat
  {
    if a >= b then a else b
  }

  // ---------------------------------------------------------------------
  // Pure helpers
  // ---------------------------------------------------------------------

  /** `text | views::split('\n')`: the pieces between newlines; empty text has none. */
  function Lines(text: string): seq<string>
  {
    if text == [] then [] else Split(text, '\n')
  }

  lemma LinesJoin(text: string)
    ensures Join(Lines(text), "\n") == text
    ensures forall k :: 0 <= k < |Lines(text)| ==> '\n' !in Lines(text)[k]
  {
    if text != [] {
      JoinSplit(text, '\n');
    }
  }

  /** The numbered pieces from number `n` on that fall in `[first, last]`, as
      the loop of `get_visible_lines` collects them. */
  function Window(pieces: seq<string>, n: nat, first: nat, last: nat): seq<(nat, string)>
    decreases |pieces|
  {
    if pieces == [] || n > last then []
    else (if n >= first then [(n, pieces[0])] else []) + Window(pieces[1..], n + 1, first, last)
  }

  /** `get_visible_lines`: lines numbered from 1, keeping numbers in `[first, last]`. */
  function VisibleLines(text: string, first: nat, last: nat): seq<(nat, string)>
  {
    Window(Lines(text), 1, first, last)
  }

  /** The window is the run of numbers from `max(first, n)` to
      `min(last, n + |pieces| - 1)`, each paired with its own piece. */
  lemma {:induction false} WindowSpec(pieces: seq<string>, n: nat, first: nat, last: nat)
    ensures var w := Window(pieces, n, first, last);
            var lo := Max(first, n);
            var hi := if last < n + |pieces| - 1 then last else n + |pieces| - 1;
            && |w| == (if hi >= lo then hi - lo + 1 else 0)
            && forall i :: 0 <= i < |w| ==> w[i].0 == lo + i && w[i].1 == pieces[lo + i - n]
    decreases |pieces|
  {
    if pieces != [] && n <= last {
      WindowSpec(pieces[1..], n + 1, first, last);
    }
  }

  /** Every entry of `w` is a piece of `ls` under its 1-based number, within `[first, last]`. */
  predicate WindowEntries(w: seq<(nat, string)>, ls: seq<string>, first: nat, last: nat)
  {
    forall i :: 0 <= i < |w| ==>
      (first <= w[i].0 <= last && 1 <= w[i].0 <= |ls| && w[i].1 == ls[w[i].0 - 1])
  }

  predicate Increasing(w: seq<(nat, string)>)
  {
    forall i, j :: 0 <= i < j < |w| ==> w[i].0 < w[j].0
  }

  /** Every piece of `ls` numbered within `[first, last]` is listed in `w`. */
  predicate WindowComplete(w: seq<(nat, string)>, ls: seq<string>, first: nat, last: nat)
  {
    forall j :: 0 <= j < |ls| && first <= j + 1 <= last ==> Listed(w, j + 1, ls[j])
  }

  /** Some entry of `w` is `piece` under number `n`. */
  predicate Listed(w: seq<(nat, string)>, n: nat, piece: string)
  {
    exists i :: 0 <= i < |w| && w[i].0 == n && w[i].1 == piece
  }

  /** `w` lists, in increasing order of number, exactly the numbered pieces of
      `ls` (numbered from 1) whose number lies between `first` and `last`. */
  predicate IsWindowOf(w: seq<(nat, string)>, ls: seq<string>, first: nat, last: nat)
  {
    WindowEntries(w, ls, first, last) && Increasing(w) && WindowComplete(w, ls, first, last)
  }

  lemma WindowIsWindowOf(ls: seq<string>, first: nat, last: nat)
    ensures IsWindowOf(Window(ls, 1, first, last), ls, first, last)
  {
    WindowSpec(ls, 1, first, last);
    RunIsWindowOf(Window(ls, 1, first, last), ls, first, last);
  }

  /** A run of consecutive numbers from `max(first, 1)` to `min(last, |ls|)`,
      each with its piece, is the window. */
  lemma RunIsWindowOf(w: seq<(nat, string)>, ls: seq<string>, first: nat, last: nat)
    requires var lo := Max(first, 1);
             var hi := if last < |ls| then last else |ls|;
             && |w| == (if hi >= lo then hi - lo + 1 else 0)
             && forall i :: 0 <= i < |w| ==> w[i].0 == lo + i && w[i].1 == ls[lo + i - 1]
    ensures IsWindowOf(w, ls, first, last)
  {
    var lo := Max(first, 1);
    var hi := if last < |ls| then last else |ls|;
    forall i | 0 <= i < |w|
      ensures first <= w[i].0 <= last && 1 <= w[i].0 <= |ls| && w[i].1 == ls[w[i].0 - 1]
    {
      assert w[i].0 == lo + i <= hi;
    }
    forall i, j | 0 <= i < j < |w|
      ensures w[i].0 < w[j].0
    {
      assert w[i].0 == lo + i && w[j].0 == lo + j;
    }
    forall j | 0 <= j < |ls| && first <= j + 1 <= last
      ensures Listed(w, j + 1, ls[j])
    {
      assert lo <= j + 1 <= hi;
      var i := j + 1 - lo;
      assert w[i].0 == j + 1 && w[i].1 == ls[j];
    }
  }

  /** `get_visible_lines` returns, in order, exactly the pieces whose 1-based
      number lies between `first` and `last`. */
  lemma VisibleLinesSpec(text: string, first: nat, last: nat)
    ensures IsWindowOf(VisibleLines(text, first, last), Lines(text), first, last)
  {
    WindowIsWindowOf(Lines(text), first, last);
  }

  /** `split_at`: the index is clamped to the length. */
  function SplitAt(s: string, index: nat): (halves: (string, string))
    ensures halves.0 + halves.1 == s
    ensures |halves.0| == if index < |s| then index else |s|
  {
    var i := if index < |s| then index else |s|;
    (s[..i], s[i..])
  }

  /** `get_digits_amount`, a cascade of comparisons against powers of ten. */
  function DigitsAmount(n: nat): nat
  {
    if n >= 1_000_000_000 then 10
    else if n >= 100_000_000 then 9
    else if n >= 10_000_000 then 8
    else if n >= 1_000_000 then 7
    else if n >= 100_000 then 6
    else if n >= 10_000 then 5
    else if n >= 1_000 then 4
    else if n >= 100 then 3
    else if n >= 10 then 2
    else 1
  }

  /** For every value a `uint32_t` can hold, the cascade counts the decimal digits. */
  lemma {:induction false} DigitsAmountIsLength(n: nat)
    requires n <= UINT32_MAX
    ensures DigitsAmount(n) == |NatToString(n)|
    decreases n
  {
    if n >= 10 {
      DigitsAmountIsLength(n / 10);
    }
  }

  lemma DigitsAmountMonotone(m: nat, n: nat)
    requires m <= n
    ensures DigitsAmount(m) <= DigitsAmount(n)
  {
  }

  /** `severity_to_string`. */
  function SeverityToString(s: Severity): (t: string)
    ensures |t| > 0
  {
    match s
    case Error => "error"
    case Warning => "warning"
    case Note => "note"
  }

  lemma SeverityToStringInjective(a: Severity, b: Severity)
    ensures SeverityToString(a) == SeverityToString(b) ==> a == b
  {
    if SeverityToString(a) == SeverityToString(b) {
      assert SeverityToString(a)[0] == SeverityToString(b)[0];
    }
  }

  /** `colorize`: the colour's foreground sequence, the text and, on request, a reset. */
  function Colorize(text: string, color: Color, reset: bool): string
  {
    FormatColor(color, DEFAULT_SPEC) + text + (if reset then RESET else "")
  }

  /** `create_colorless_source`: the banner names the 1-based position. */
  function ColorlessSource(file: string, loc: SourceLocation): string
  {
    "/* at " + file + ":" + NatToString(loc.line + 1) + ":" + NatToString(loc.column + 1) + " */"
  }

  /** The banner prints the location formatter's text of the 1-based position. */
  lemma ColorlessSourceIsOneBased(file: string, loc: SourceLocation)
    ensures ColorlessSource(file, loc)
         == "/* at " + file + ":" + FormatLocation(SourceLocation(loc.line + 1, loc.column + 1)) + " */"
  {
  }

  /** `render_colorless`: positions stay 0-based. */
  function RenderColorless(d: Diagnostic, file: string): string
  {
    SeverityToString(d.level) + " in " + d.domain + " at " + file + ":"
      + NatToString(d.source.line) + ":" + NatToString(d.source.column)
      + "\n  " + d.message + "\n  " + d.annotation + "\n"
  }

  /** When no field holds a newline, colourless output is exactly three lines:
      the header with the location formatter's text, then message and
      annotation indented by two spaces. */
  lemma ColorlessLines(d: Diagnostic, file: string)
    requires '\n' !in d.domain && '\n' !in file && '\n' !in d.message && '\n' !in d.annotation
    ensures Lines(RenderColorless(d, file))
         == [SeverityToString(d.level) + " in " + d.domain + " at " + file + ":" + FormatLocation(d.source),
             "  " + d.message, "  " + d.annotation, ""]
  {
    var head := SeverityToString(d.level) + " in " + d.domain + " at " + file + ":" + FormatLocation(d.source);
    var parts := [head, "  " + d.message, "  " + d.annotation, ""];
    assert Join(parts[3..], "\n") == "";
    assert Join(parts[2..], "\n") == "  " + d.annotation + "\n" + "";
    assert Join(parts[1..], "\n") == "  " + d.message + "\n" + ("  " + d.annotation + "\n");
    assert RenderColorless(d, file) == head + "\n" + ("  " + d.message + "\n" + ("  " + d.annotation + "\n"));
    assert '\n' !in SeverityToString(d.level);
    assert '\n' !in NatToString(d.source.line) by {
      assert AllDigits(NatToString(d.source.line));
    }
    assert '\n' !in NatToString(d.source.column) by {
      assert AllDigits(NatToString(d.source.column));
    }
    assert '\n' !in head;
    SplitJoin(parts, '\n');
  }

  /** `render_header`: the severity in its tag colour, the domain when there is one, the message. */
  function Header(d: Diagnostic, theme: Theme): string
  {
    var tag := FormatColor(TagColor(theme, d.level), DEFAULT_SPEC) + SeverityToString(d.level) + RESET;
    if d.domain == [] then tag + ": " + d.message + "\n"
    else tag + " at " + FormatColor(theme.domainColor, DEFAULT_SPEC) + d.domain + RESET + ": " + d.message + "\n"
  }

  /** The gutter text of `format_line`: blank for the banner, otherwise the
      number right-aligned. */
  function Gutter(lineNum: nat, width: nat): (g: string)
    requires lineNum == UINT32_MAX || DigitsAmount(lineNum) <= width
  {
    if lineNum == UINT32_MAX then Repeat(' ', width)
    else Repeat(' ', width - DigitsAmount(lineNum)) + NatToString(lineNum)
  }

  /** The gutter always has the width, and a number sits at its right edge. */
  lemma GutterLayout(lineNum: nat, width: nat)
    requires lineNum <= UINT32_MAX && DigitsAmount(lineNum) <= width
    ensures |Gutter(lineNum, width)| == width
    ensures lineNum < UINT32_MAX ==>
              Gutter(lineNum, width)[width - |NatToString(lineNum)|..] == NatToString(lineNum)
  {
    if lineNum < UINT32_MAX {
      DigitsAmountIsLength(lineNum);
    }
  }

  /** The spaces after a row's text: the padding less the text length, saturating at 0. */
  function Pad(padding: nat, len: nat): (p: nat)
    ensures len + p >= padding
    ensures padding >= len ==> len + p == padding
    ensures padding < len ==> p == 0
  {
    if padding > len then padding - len else 0
  }

  /** `format_line`. */
  function FormatLine(lineNum: nat, line: string, lineLen: nat, padding: nat, width: nat, theme: Theme): string
    requires lineNum == UINT32_MAX || DigitsAmount(lineNum) <= width
  {
    var bg := if lineNum == UINT32_MAX then theme.altLineColor
              else if lineNum % 2 != 0 then theme.lineColor else theme.altLineColor;
    FormatColor(bg, FormatSpec(AnsiMode, Bg)) + FormatColor(theme.lineNumberColor, DEFAULT_SPEC)
      + Gutter(lineNum, width) + " " + RESET_ATTRIBUTES
      + FormatColor(theme.separatorColor, DEFAULT_SPEC) + "| " + RESET_ATTRIBUTES
      + line + Repeat(' ', Pad(padding, lineLen)) + RESET + "\n"
  }

  /** The text `render_line` hands to `format_line`. */
  function LineText(d: Diagnostic, line: string, errorLine: bool, theme: Theme): string
  {
    if errorLine then
      var (left, rest) := SplitAt(line, d.source.column);
      var (error, tail) := SplitAt(rest, d.length);
      FormatColor(theme.codeColor, DEFAULT_SPEC) + left + RESET_ATTRIBUTES
        + FormatColor(theme.errorCodeColor, DEFAULT_SPEC) + error + RESET_ATTRIBUTES
        + FormatColor(theme.codeColor, DEFAULT_SPEC) + tail
    else Colorize(line, theme.codeColor, false)
  }

  function Min(a: nat, b: nat): nat
  {
    if a <= b then a else b
  }

  /** The error line is cut into the text before the column, the `length`
      characters from the column (fewer at the end of the line) and the rest. */
  lemma ErrorLineSplit(d: Diagnostic, line: string)
    ensures var (left, rest) := SplitAt(line, d.source.column);
            var (error, tail) := SplitAt(rest, d.length);
            var from := Min(d.source.column, |line|);
            var to := Min(d.source.column + d.length, |line|);
            && left + error + tail == line
            && left == line[..from] && error == line[from..to] && tail == line[to..]
  {
  }

  /** `render_annotation`: carets under the span, the annotation below them at the same indent. */
  function Annotation(d: Diagnostic, width: nat, theme: Theme): string
  {
    var indent := Repeat(' ', width + 3 + d.source.column);
    indent + FormatColor(theme.underlineColor, DEFAULT_SPEC) + Repeat('^', d.length) + RESET + "\n"
      + indent + d.annotation + "\n"
  }

  // ---------------------------------------------------------------------
  // The coloured layout as functions
  // ---------------------------------------------------------------------

  /** The 1-based number of the error line. */
  function ErrorLine(d: Diagnostic): nat
  {
    d.source.line + 1
  }

  function FirstLine(d: Diagnostic, theme: Theme): (first: nat)
    ensures 1 <= first <= ErrorLine(d)
    ensures ErrorLine(d) - first <= theme.extraShownLine
  {
    if ErrorLine(d) > theme.extraShownLine then ErrorLine(d) - theme.extraShownLine else 1
  }

  function LastLine(d: Diagnostic, theme: Theme): nat
  {
    ErrorLine(d) + theme.extraShownLine
  }

  /** The gutter width: the digits of the last number shown, plus one. */
  function GutterWidth(d: Diagnostic, theme: Theme): nat
  {
    DigitsAmount(LastLine(d, theme)) + 1
  }

  /** The longest text among numbered lines. */
  function MaxLen(lines: seq<(nat, string)>): (m: nat)
    ensures forall k :: 0 <= k < |lines| ==> |lines[k].1| <= m
    ensures lines == [] ==> m == 0
    ensures lines != [] ==> exists k :: 0 <= k < |lines| && m == |lines[k].1|
  {
    if lines == [] then 0
    else Max(MaxLen(lines[..|lines| - 1]), |lines[|lines| - 1].1|)
  }

  function ColoredLines(d: Diagnostic, raw: string, theme: Theme): seq<(nat, string)>
  {
    VisibleLines(raw, FirstLine(d, theme), LastLine(d, theme))
  }

  /** The shared right edge: the longest visible line or the banner, plus the
      right padding and the gutter width. */
  function ColoredPadding(d: Diagnostic, raw: string, file: string, theme: Theme): nat
  {
    Max(MaxLen(ColoredLines(d, raw, theme)), |ColorlessSource(file, d.source)|)
      + theme.rightPadding + GutterWidth(d, theme)
  }

  predicate NumbersFit(lines: seq<(nat, string)>, width: nat)
  {
    forall k :: 0 <= k < |lines| ==> DigitsAmount(lines[k].0) <= width
  }

  /** Every visible line number has no more digits than the gutter holds. */
  lemma ColoredNumbersFit(d: Diagnostic, raw: string, theme: Theme)
    ensures NumbersFit(ColoredLines(d, raw, theme), GutterWidth(d, theme))
  {
    var lines := ColoredLines(d, raw, theme);
    VisibleLinesSpec(raw, FirstLine(d, theme), LastLine(d, theme));
    forall k | 0 <= k < |lines|
      ensures DigitsAmount(lines[k].0) <= GutterWidth(d, theme)
    {
      DigitsAmountMonotone(lines[k].0, LastLine(d, theme));
    }
  }

  /** The row `render_line` emits for one numbered line. */
  function Row(d: Diagnostic, n: nat, text: string, padding: nat, width: nat, theme: Theme): string
    requires DigitsAmount(n) <= width
  {
    FormatLine(n, LineText(d, text, n == ErrorLine(d), theme), |text|, padding, width, theme)
  }

  /** The rows of the visible lines, one `render_line` each. */
  function Rows(d: Diagnostic, lines: seq<(nat, string)>, padding: nat, width: nat, theme: Theme): string
    requires NumbersFit(lines, width)
  {
    if lines == [] then ""
    else
      Rows(d, lines[..|lines| - 1], padding, width, theme)
        + Row(d, lines[|lines| - 1].0, lines[|lines| - 1].1, padding, width, theme)
  }

  lemma RowsSnoc(d: Diagnostic, lines: seq<(nat, string)>, i: nat, padding: nat, width: nat, theme: Theme)
    requires i < |lines| && NumbersFit(lines, width)
    ensures NumbersFit(lines[..i], width) && NumbersFit(lines[..i + 1], width)
    ensures Rows(d, lines[..i + 1], padding, width, theme)
         == Rows(d, lines[..i], padding, width, theme) + Row(d, lines[i].0, lines[i].1, padding, width, theme)
  {
    assert lines[..i + 1][..i] == lines[..i];
  }

  /** `render_colored` as one string. */
  function RenderColored(d: Diagnostic, raw: string, file: string, theme: Theme): string
  {
    var width := GutterWidth(d, theme);
    var padding := ColoredPadding(d, raw, file, theme);
    var banner := ColorlessSource(file, d.source);
    ColoredNumbersFit(d, raw, theme);
    Header(d, theme)
      + FormatLine(UINT32_MAX, Colorize(banner, theme.sourceColor, false), |banner|, padding, width, theme)
      + Rows(d, ColoredLines(d, raw, theme), padding, width, theme)
      + Annotation(d, width, theme)
  }

  /** The pieces of `RenderColored`, in order. */
  lemma RenderColoredParts(d: Diagnostic, raw: string, file: string, theme: Theme)
    ensures NumbersFit(ColoredLines(d, raw, theme), GutterWidth(d, theme))
    ensures var banner := ColorlessSource(file, d.source);
            var width := GutterWidth(d, theme);
            var padding := ColoredPadding(d, raw, file, theme);
            RenderColored(d, raw, file, theme)
            == Header(d, theme)
               + FormatLine(UINT32_MAX, Colorize(banner, theme.sourceColor, false), |banner|, padding, width, theme)
               + Rows(d, ColoredLines(d, raw, theme), padding, width, theme)
               + Annotation(d, width, theme)
  {
    ColoredNumbersFit(d, raw, theme);
  }

  /** The shown window holds the error line and at most `extra_shown_line`
      lines on each side of it. */
  lemma WindowAroundError(d: Diagnostic, raw: string, theme: Theme)
    ensures forall k :: 0 <= k < |ColoredLines(d, raw, theme)| ==>
              ErrorLine(d) - theme.extraShownLine <= ColoredLines(d, raw, theme)[k].0
              <= ErrorLine(d) + theme.extraShownLine
    ensures d.source.line < |Lines(raw)| ==>
              exists k :: 0 <= k < |ColoredLines(d, raw, theme)|
                          && ColoredLines(d, raw, theme)[k].0 == ErrorLine(d)
                          && ColoredLines(d, raw, theme)[k].1 == Lines(raw)[d.source.line]
  {
    var lines := ColoredLines(d, raw, theme);
    VisibleLinesSpec(raw, FirstLine(d, theme), LastLine(d, theme));
    if d.source.line < |Lines(raw)| {
      assert Lines(raw)[d.source.line] == Lines(raw)[d.source.line];
    }
  }

  /** Padding lines every row up on one right edge: the banner and each visible
      line, plus its pad, fill exactly `padding` columns, which leaves at
      least `right_padding + width` columns after the longest of them. */
  lemma RowsAligned(d: Diagnostic, raw: string, file: string, theme: Theme)
    ensures var padding := ColoredPadding(d, raw, file, theme);
            var banner := ColorlessSource(file, d.source);
            var lines := ColoredLines(d, raw, theme);
            && |banner| + Pad(padding, |banner|) == padding
            && padding >= |banner| + theme.rightPadding + GutterWidth(d, theme)
            && forall k :: 0 <= k < |lines| ==>
                 |lines[k].1| + Pad(padding, |lines[k].1|) == padding
                 && padding >= |lines[k].1| + theme.rightPadding + GutterWidth(d, theme)
  {
  }

  /** The caret row starts below the first highlighted character: the gutter,
      the space and `| ` take `width + 3` columns before a line's text. */
  lemma CaretUnderColumn(d: Diagnostic, raw: string, theme: Theme)
    ensures NumbersFit(ColoredLines(d, raw, theme), GutterWidth(d, theme))
    ensures var width := GutterWidth(d, theme);
            forall k :: 0 <= k < |ColoredLines(d, raw, theme)| ==>
              var n := ColoredLines(d, raw, theme)[k].0;
              n <= UINT32_MAX ==>
                |Gutter(n, width) + " " + "| "| + d.source.column
                == |Repeat(' ', width + 3 + d.source.column)|
  {
    var width := GutterWidth(d, theme);
    var lines := ColoredLines(d, raw, theme);
    ColoredNumbersFit(d, raw, theme);
    forall k | 0 <= k < |lines| && lines[k].0 <= UINT32_MAX
      ensures |Gutter(lines[k].0, width) + " " + "| "| + d.source.column
              == |Repeat(' ', width + 3 + d.source.column)|
    {
      GutterLayout(lines[k].0, width);
    }
  }

  // ---------------------------------------------------------------------
  // The renderer's state and its step-by-step rendering
  // ---------------------------------------------------------------------

  /** The private rendering state of `diagnostic`: the output buffer, the
      shared right edge and the gutter width. */
  class Renderer {
    var rendered: string
    var padding: nat
    var lineNumberWidth: nat

    constructor ()
      ensures rendered == [] && padding == 0 && lineNumberWidth == 0
    {
      rendered := [];
      padding := 0;
      lineNumberWidth := 0;
    }

    /** `render`: clears the buffer and the padding, then renders in colour
        when standard error is a terminal and plainly otherwise. */
    method Render(d: Diagnostic, raw: string, file: string, theme: Theme, tty: bool)
      returns (out: string)
      modifies this
      ensures out == rendered
      ensures tty ==> out == RenderColored(d, raw, file, theme)
                      && padding == ColoredPadding(d, raw, file, theme)
                      && lineNumberWidth == GutterWidth(d, theme)
      ensures !tty ==> out == RenderColorless(d, file) && padding == 0
                       && lineNumberWidth == old(lineNumberWidth)
    {
      rendered := [];
      padding := 0;
      if tty {
        RenderColoredSteps(d, raw, file, theme);
      } else {
        rendered := RenderColorless(d, file);
      }
      out := rendered;
    }

    method RenderHeader(d: Diagnostic, theme: Theme)
      modifies this
      ensures rendered == Header(d, theme)
      ensures padding == old(padding) && lineNumberWidth == old(lineNumberWidth)
    {
      rendered := Header(d, theme);
    }

    method RenderSource(banner: string, theme: Theme)
      modifies this
      ensures rendered == old(rendered)
                          + FormatLine(UINT32_MAX, Colorize(banner, theme.sourceColor, false),
                                       |banner|, padding, lineNumberWidth, theme)
      ensures padding == old(padding) && lineNumberWidth == old(lineNumberWidth)
    {
      rendered := rendered + FormatLine(UINT32_MAX, Colorize(banner, theme.sourceColor, false),
                                        |banner|, padding, lineNumberWidth, theme);
    }

    method RenderLine(d: Diagnostic, lineNum: nat, line: string, errorLine: bool, theme: Theme)
      requires DigitsAmount(lineNum) <= lineNumberWidth
      requires errorLine == (lineNum == ErrorLine(d))
      modifies this
      ensures padding == old(padding) && lineNumberWidth == old(lineNumberWidth)
      ensures rendered == old(rendered) + Row(d, lineNum, line, padding, lineNumberWidth, theme)
    {
      rendered := rendered + FormatLine(lineNum, LineText(d, line, errorLine, theme), |line|,
                                        padding, lineNumberWidth, theme);
    }

    method RenderAnnotation(d: Diagnostic, theme: Theme)
      modifies this
      ensures rendered == old(rendered) + Annotation(d, lineNumberWidth, theme)
      ensures padding == old(padding) && lineNumberWidth == old(lineNumberWidth)
    {
      var indent := Repeat(' ', lineNumberWidth + 3 + d.source.column);
      var carets := indent + FormatColor(theme.underlineColor, DEFAULT_SPEC) + Repeat('^', d.length) + RESET + "\n";
      var note := indent + d.annotation + "\n";
      assert Annotation(d, lineNumberWidth, theme) == carets + note;
      rendered := rendered + carets;
      rendered := rendered + note;
    }

    /** The first loop of `render_colored`: the longest visible line. */
    method WidestLine(lines: seq<(nat, string)>)
      requires padding == 0
      modifies this
      ensures padding == MaxLen(lines)
      ensures rendered == old(rendered) && lineNumberWidth == old(lineNumberWidth)
    {
      var i := 0;
      while i < |lines|
        invariant 0 <= i <= |lines|
        invariant padding == MaxLen(lines[..i])
        invariant rendered == old(rendered) && lineNumberWidth == old(lineNumberWidth)
      {
        assert lines[..i + 1][..i] == lines[..i];
        padding := Max(|lines[i].1|, padding);
        i := i + 1;
      }
      assert lines[..|lines|] == lines;
    }

    /** The second loop of `render_colored`: one row per visible line. */
    method RenderRows(d: Diagnostic, lines: seq<(nat, string)>, theme: Theme)
      requires NumbersFit(lines, lineNumberWidth)
      modifies this
      ensures padding == old(padding) && lineNumberWidth == old(lineNumberWidth)
      ensures rendered == old(rendered) + Rows(d, lines, padding, lineNumberWidth, theme)
    {
      var i := 0;
      while i < |lines|
        invariant 0 <= i <= |lines|
        invariant padding == old(padding) && lineNumberWidth == old(lineNumberWidth)
        invariant rendered == old(rendered) + Rows(d, lines[..i], padding, lineNumberWidth, theme)
      {
        RowsSnoc(d, lines, i, padding, lineNumberWidth, theme);
        AppendAssoc(old(rendered), Rows(d, lines[..i], padding, lineNumberWidth, theme),
                    Row(d, lines[i].0, lines[i].1, padding, lineNumberWidth, theme));
        RenderLine(d, lines[i].0, lines[i].1, lines[i].0 == ErrorLine(d), theme);
        i := i + 1;
      }
      assert lines[..|lines|] == lines;
    }

    /** `render_colored`. */
    method RenderColoredSteps(d: Diagnostic, raw: string, file: string, theme: Theme)
      requires padding == 0
      modifies this
      ensures rendered == RenderColored(d, raw, file, theme)
      ensures padding == ColoredPadding(d, raw, file, theme)
      ensures lineNumberWidth == GutterWidth(d, theme)
    {
      var errorLine := d.source.line + 1;
      var firstLine := if errorLine > theme.extraShownLine then errorLine - theme.extraShownLine else 1;
      var lastLine := errorLine + theme.extraShownLine;
      var lines := VisibleLines(raw, firstLine, lastLine);
      assert lines == ColoredLines(d, raw, theme);
      lineNumberWidth := DigitsAmount(lastLine) + 1;
      ghost var width := GutterWidth(d, theme);
      assert lineNumberWidth == width;
      RenderHeader(d, theme);
      ghost var header := rendered;
      var banner := ColorlessSource(file, d.source);
      WidestLine(lines);
      padding := Max(padding, |banner|) + theme.rightPadding + lineNumberWidth;
      ghost var pad := ColoredPadding(d, raw, file, theme);
      assert padding == pad;
      RenderSource(banner, theme);
      ghost var source := rendered[|header|..];
      ColoredNumbersFit(d, raw, theme);
      RenderRows(d, lines, theme);
      ghost var upToRows := rendered;
      ghost var rows := Rows(d, lines, pad, width, theme);
      RenderAnnotation(d, theme);
      ghost var annotation := Annotation(d, width, theme);
      assert rendered == header + source + rows + annotation;
      RenderColoredParts(d, raw, file, theme);
    }
  }

  /** `render` resets its state first, so rendering the same diagnostic twice
      gives the same text. */
  method RenderTwice(r: Renderer, d: Diagnostic, raw: string, file: string, theme: Theme, tty: bool)
    returns (first: string, second: string)
    modifies r
    ensures first == second
  {
    first := r.Render(d, raw, file, theme, tty);
    second := r.Render(d, raw, file, theme, tty);
  }
}
