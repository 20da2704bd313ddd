/** The diagnostic record of `include/diagnostic.hh`: source positions, the
    colour theme, severities, and the builder that fills a diagnostic in. */
module Diagnostics {
  import opened Text
  import opened Colors

  /** `source_location`: 0-based line and column. */
  datatype SourceLocation = SourceLocation(line: nat, column: nat)

  /** `operator==`: both coordinates agree. */
  predicate SameLocation(a: SourceLocation, b: SourceLocation)
  {
    a.line == b.line && a.column == b.column
  }

  lemma SameLocationIsEquality(a: SourceLocation, b: SourceLocation)
    ensures SameLocation(a, b) <==> a == b
  {
  }

  /** `formatter<source_location>`: `line:column`. */
  function FormatLocation(loc: SourceLocation): string
  {
    NatToString(loc.line) + ":" + NatToString(loc.column)
  }

  /** The text is two decimal numbers around one colon, so it determines the location. */
  lemma FormatLocationParts(loc: SourceLocation)
    ensures Split(FormatLocation(loc), ':') == [NatToString(loc.line), NatToString(loc.column)]
  {
    var x, y := NatToString(loc.line), NatToString(loc.column);
    assert FormatLocation(loc) == Join([x, y], [':']);
    assert forall j :: 0 <= j < |x| ==> x[j] != ':';
    assert forall j :: 0 <= j < |y| ==> y[j] != ':';
    SplitJoin([x, y], ':');
  }

  lemma FormatLocationInjective(a: SourceLocation, b: SourceLocation)
    ensures FormatLocation(a) == FormatLocation(b) ==> a == b
  {
    if FormatLocation(a) == FormatLocation(b) {
      FormatLocationParts(a);
      FormatLocationParts(b);
      NatToStringInjective(a.line, b.line);
      NatToStringInjective(a.column, b.column);
    }
  }

  /** `severity`, an enumeration whose underlying values are 0, 1, 2. */
  datatype Severity = Error | Warning | Note

  function SeverityIndex(s: Severity): (i: nat)
    ensures i < 3
  {
    match s
    case Error => 0
    case Warning => 1
    case Note => 2
  }

  lemma SeverityIndexInjective(a: Severity, b: Severity)
    ensures SeverityIndex(a) == SeverityIndex(b) ==> a == b
  {
  }

  type TagColors = s: seq<Color> | |s| == 3 witness [NewColor(0, 0, 0), NewColor(0, 0, 0), NewColor(0, 0, 0)]

  /** `theme`: the colours of each part of a rendered diagnostic and its layout widths. */
  datatype Theme = Theme(
    tagColor: TagColors,
    lineColor: Color,
    altLineColor: Color,
    lineNumberColor: Color,
    separatorColor: Color,
    underlineColor: Color,
    errorCodeColor: Color,
    codeColor: Color,
    domainColor: Color,
    sourceColor: Color,
    extraShownLine: nat,
    rightPadding: nat)

  function Bold(r: Byte, g: Byte, b: Byte): Color
  {
    AddAttribute(NewColor(r, g, b), ATTR_BOLD)
  }

  function Dim(r: Byte, g: Byte, b: Byte): Color
  {
    AddAttribute(NewColor(r, g, b), ATTR_DIM)
  }

  /** `default_theme`. */
  const DEFAULT_THEME: Theme := Theme(
    [Bold(220, 50, 47), Bold(181, 137, 0), Bold(38, 139, 210)],
    NewColor(30, 31, 44),
    Dim(21, 22, 30),
    Dim(193, 195, 211),
    NewColor(100, 105, 140),
    Bold(220, 50, 47),
    Bold(220, 50, 47),
    NewColor(255, 255, 255),
    Bold(116, 107, 215),
    Dim(150, 150, 150),
    2,
    5)

  /** The tag colour of a severity: `tag_color[to_underlying(level)]`. */
  function TagColor(theme: Theme, level: Severity): Color
  {
    theme.tagColor[SeverityIndex(level)]
  }

  /** The default theme shows two extra lines on each side, pads by five, and
      tags error, warning and note in bold red, yellow and blue. */
  lemma DefaultThemeLayout()
    ensures DEFAULT_THEME.extraShownLine == 2 && DEFAULT_THEME.rightPadding == 5
    ensures forall s: Severity :: HasAttribute(TagColor(DEFAULT_THEME, s), ATTR_BOLD)
    ensures TagColor(DEFAULT_THEME, Error) == Color(220, 50, 47, ATTR_BOLD)
    ensures TagColor(DEFAULT_THEME, Warning) == Color(181, 137, 0, ATTR_BOLD)
    ensures TagColor(DEFAULT_THEME, Note) == Color(38, 139, 210, ATTR_BOLD)
  {
  }

  /** `diagnostic`'s public fields; the rendering buffer lives in `Render.Renderer`. */
  datatype Diagnostic = Diagnostic(
    level: Severity,
    message: string,
    annotation: string,
    domain: string,
    source: SourceLocation,
    length: nat)

  /** A diagnostic as `diagnostic_builder(lvl)` starts it: empty texts, location 0:0, length 1. */
  function NewDiagnostic(level: Severity): (d: Diagnostic)
    ensures d.level == level && d.length == 1
    ensures d.message == [] && d.annotation == [] && d.domain == []
    ensures SameLocation(d.source, SourceLocation(0, 0))
  {
    Diagnostic(level, [], [], [], SourceLocation(0, 0), 1)
  }

  /** `diagnostic_builder`: owns one diagnostic and sets one field per call. The
      `message` and `annotation` templates receive their text already formatted. */
  class DiagnosticBuilder {
    var diag: Diagnostic

    constructor (level: Severity)
      ensures diag == NewDiagnostic(level)
    {
      diag := NewDiagnostic(level);
    }

    method Domain(domain: string)
      modifies this
      ensures diag == old(diag).(domain := domain)
    {
      diag := diag.(domain := domain);
    }

    method Source(source: SourceLocation)
      modifies this
      ensures diag == old(diag).(source := source)
    {
      diag := diag.(source := source);
    }

    method Length(length: nat)
      modifies this
      ensures diag == old(diag).(length := length)
    {
      diag := diag.(length := length);
    }

    method Message(text: string)
      modifies this
      ensures diag == old(diag).(message := text)
    {
      diag := diag.(message := text);
    }

    method Annotation(text: string)
      modifies this
      ensures diag == old(diag).(annotation := text)
    {
      diag := diag.(annotation := text);
    }

    method Build() returns (d: Diagnostic)
      ensures d == diag
    {
      d := diag;
    }
  }

  /** A full builder chain yields exactly the fields it was given, with the
      level fixed by the constructor. */
  method BuildError(domain: string, message: string, annotation: string,
                    source: SourceLocation, length: nat) returns (d: Diagnostic)
    ensures d == Diagnostic(Error, message, annotation, domain, source, length)
  {
    var b := new DiagnosticBuilder(Error);
    b.Domain(domain);
    b.Source(source);
    b.Message(message);
    b.Annotation(annotation);
    b.Length(length);
    d := b.Build();
  }
}
