/** The colour value of `include/color.hh`: an RGB triple with SGR attribute bits,
    its `std::format` specification parser, and the SGR / hex text it formats to.
    The setters of the source return `*this` and are only ever applied to
    temporaries, so they are functions returning the updated colour here. */
module Colors {
  import opened Wrappers
  import opened Text

  type Byte = x: int | 0 <= x < 256

  const ESC: char := '\U{1B}'
  /** Control Sequence Introducer, ECMA-48 section 5.4. */
  const CSI: string := [ESC, '[']

  /** `ansi::attribute` bits. */
  const ATTR_NONE: bv8 := 0
  const ATTR_BOLD: bv8 := 1
  const ATTR_DIM: bv8 := 2
  const ATTR_UNDERLINE: bv8 := 4
  const ATTR_BLINK: bv8 := 8
  const ATTR_REVERSE: bv8 := 16

  /** The reset sequences of `color::reset*`. */
  const RESET: string := CSI + "0;0;0m"
  const RESET_FG: string := CSI + "39m"
  const RESET_BG: string := CSI + "49m"
  const RESET_ATTRIBUTES: string := CSI + "22;24;25;27m"

  /** `operator|` on attributes: bitwise on the underlying byte. */
  function AttrOr(a: bv8, b: bv8): (r: bv8)
    ensures r & a == a && r & b == b
    ensures r & !(a | b) == 0
  {
    a | b
  }

  /** `operator&` on attributes: the bits set in both. */
  function AttrAnd(a: bv8, b: bv8): (r: bv8)
    ensures r & !a == 0 && r & !b == 0
    ensures a & b & !r == 0
  {
    a & b
  }

  datatype Color = Color(r: Byte, g: Byte, b: Byte, attribute: bv8)

  /** `color{r, g, b}`: no attribute bits. */
  function NewColor(r: Byte, g: Byte, b: Byte): (c: Color)
    ensures c.r == r && c.g == g && c.b == b && c.attribute == ATTR_NONE
  {
    Color(r, g, b, ATTR_NONE)
  }

  predicate HasAttribute(c: Color, a: bv8)
  {
    c.attribute & a == a
  }

  /** `set_attribute`: the attribute byte becomes exactly `a`; the channels stay. */
  function SetAttribute(c: Color, a: bv8): (res: Color)
    ensures res.attribute == a
    ensures res.r == c.r && res.g == c.g && res.b == c.b
  {
    c.(attribute := a)
  }

  /** `add_attribute`: the bits of `a` become set, every other bit and channel stays. */
  function AddAttribute(c: Color, a: bv8): (res: Color)
    ensures HasAttribute(res, a)
    ensures res.attribute & !a == c.attribute & !a
    ensures res.r == c.r && res.g == c.g && res.b == c.b
  {
    c.(attribute := c.attribute | a)
  }

  /** `clear_attribuate`: the bits of `a` become clear, every other bit and channel stays. */
  function ClearAttribute(c: Color, a: bv8): (res: Color)
    ensures res.attribute & a == 0
    ensures res.attribute & !a == c.attribute & !a
    ensures res.r == c.r && res.g == c.g && res.b == c.b
  {
    c.(attribute := c.attribute & !a)
  }

  lemma ClearUndoesAdd(c: Color, a: bv8)
    requires c.attribute & a == 0
    ensures ClearAttribute(AddAttribute(c, a), a) == c
  {
  }

  // ---------------------------------------------------------------------
  // The format specification: "", "ansi", "ansi_fg", "ansi_bg" or "hex".
  // ---------------------------------------------------------------------

  datatype Mode = AnsiMode | HexMode
  datatype Target = Fg | Bg
  datatype FormatSpec = FormatSpec(mode: Mode, target: Target)

  /** The formatter's members before `parse` runs. */
  const DEFAULT_SPEC: FormatSpec := FormatSpec(AnsiMode, Fg)

  /** `parse`: reads the specification from the start of `spec` (the format
      context's remaining text) and returns the parsed specification with the
      position it stopped at, or the `std::format_error` message. */
  function ParseSpec(spec: string): Result<(FormatSpec, nat), string>
  {
    if spec == [] || spec[0] == '}' then Ok((DEFAULT_SPEC, 0))
    else if StartsWith(spec, "ansi") then
      if 4 < |spec| && spec[4] == '_' then
        if StartsWith(spec[5..], "fg") then EndSpec(spec, FormatSpec(AnsiMode, Fg), 7)
        else if StartsWith(spec[5..], "bg") then EndSpec(spec, FormatSpec(AnsiMode, Bg), 7)
        else Err("invalid ansi color target")
      else EndSpec(spec, FormatSpec(AnsiMode, Fg), 4)
    else if StartsWith(spec, "hex") then EndSpec(spec, FormatSpec(HexMode, Fg), 3)
    else Err("invalid color format specifier")
  }

  /** The final check of `parse`: only the end or `}` may follow. */
  function EndSpec(spec: string, parsed: FormatSpec, at: nat): Result<(FormatSpec, nat), string>
    requires at <= |spec|
  {
    if at < |spec| && spec[at] != '}' then Err("invalid color format") else Ok((parsed, at))
  }

  /** The text of a specification: everything before the first `}`. */
  function SpecText(spec: string): (t: string)
    ensures '}' !in t && StartsWith(spec, t)
    ensures |t| < |spec| ==> spec[|t|] == '}'
  {
    match FindFrom(spec, '}', 0)
    case None => spec
    case Some(i) => spec[..i]
  }

  /** The specifications the formatter accepts, and what each selects. */
  function AcceptedSpec(t: string): Option<FormatSpec>
  {
    if t == "" || t == "ansi" || t == "ansi_fg" then Some(FormatSpec(AnsiMode, Fg))
    else if t == "ansi_bg" then Some(FormatSpec(AnsiMode, Bg))
    else if t == "hex" then Some(FormatSpec(HexMode, Fg))
    else None
  }

  /** A keyword without a brace is the specification text exactly when the
      specification starts with it and the end or `}` follows. */
  lemma SpecTextIs(spec: string, w: string)
    requires '}' !in w
    ensures SpecText(spec) == w <==> StartsWith(spec, w) && (|w| == |spec| || spec[|w|] == '}')
  {
    if StartsWith(spec, w) {
      forall j | 0 <= j < |w| ensures spec[j] != '}' {
        assert spec[..|w|][j] == spec[j];
      }
    }
  }

  /** `parse` accepts exactly the five specifications, stops at the closing
      brace, and anything else, trailing characters included, is an error. */
  lemma ParseSpecExact(spec: string)
    ensures ParseSpec(spec).Ok? <==> AcceptedSpec(SpecText(spec)).Some?
    ensures ParseSpec(spec).Ok? ==>
              ParseSpec(spec).value == (AcceptedSpec(SpecText(spec)).value, |SpecText(spec)|)
  {
    var t := SpecText(spec);
    SpecTextIs(spec, "");
    SpecTextIs(spec, "ansi");
    SpecTextIs(spec, "ansi_fg");
    SpecTextIs(spec, "ansi_bg");
    SpecTextIs(spec, "hex");
    if |spec| >= 7 {
      assert spec[5..][..2] == spec[5..7] == spec[..7][5..];
      assert spec[..4] == spec[..7][..4];
    }
    if |spec| >= 4 {
      assert spec[..3] == spec[..4][..3];
    }
    if |spec| >= 3 {
      assert spec[..3][0] == spec[0] && spec[..3][1] == spec[1];
    }
  }

  // ---------------------------------------------------------------------
  // Formatting.
  // ---------------------------------------------------------------------

  function HexDigit(d: nat): (c: char)
    requires d < 16
  {
    if d < 10 then DigitChar(d) else (('A' as int) + d - 10) as char
  }

  /** `{:02X}` of one channel. */
  function Hex2(n: Byte): (s: string)
    ensures |s| == 2
  {
    [HexDigit(n / 16), HexDigit(n % 16)]
  }

  /** Hex mode: `#RRGGBB`. */
  function FormatHex(c: Color): (s: string)
    ensures |s| == 7 && s[0] == '#'
  {
    "#" + Hex2(c.r) + Hex2(c.g) + Hex2(c.b)
  }

  function HexDigitValue(c: char): Option<nat>
  {
    if IsDigit(c) then Some(c as int - '0' as int)
    else if 'A' <= c <= 'F' then Some(c as int - 'A' as int + 10)
    else None
  }

  function HexPairValue(s: string): Option<Byte>
    requires |s| == 2
  {
    match (HexDigitValue(s[0]), HexDigitValue(s[1]))
    case (Some(h), Some(l)) => if h < 16 && l < 16 then Some(h * 16 + l) else None
    case _ => None
  }

  /** Reads a `#RRGGBB` text back into its three channels. */
  function ParseHex(s: string): Option<(Byte, Byte, Byte)>
  {
    if |s| != 7 || s[0] != '#' then None
    else match (HexPairValue(s[1..3]), HexPairValue(s[3..5]), HexPairValue(s[5..7]))
      case (Some(r), Some(g), Some(b)) => Some((r, g, b))
      case _ => None
  }

  lemma HexPairRoundTrip(n: Byte)
    ensures HexPairValue(Hex2(n)) == Some(n)
  {
    var s := Hex2(n);
    assert HexDigitValue(s[0]) == Some(n / 16);
    assert HexDigitValue(s[1]) == Some(n % 16);
  }

  /** Hex mode loses only the attribute bits: the channels read back exactly. */
  lemma HexRoundTrip(c: Color)
    ensures ParseHex(FormatHex(c)) == Some((c.r, c.g, c.b))
  {
    var s := FormatHex(c);
    assert s[1..3] == Hex2(c.r) && s[3..5] == Hex2(c.g) && s[5..7] == Hex2(c.b);
    HexPairRoundTrip(c.r);
    HexPairRoundTrip(c.g);
    HexPairRoundTrip(c.b);
  }

  /** The SGR parameters emitted for the attribute bits, in the fixed order
      bold 1, dim 2, underline 4, blink 5, reverse 7 (ECMA-48 section 8.3.117). */
  function AttrCodes(a: bv8): seq<nat>
  {
    (if a & ATTR_BOLD != 0 then [1] else [])
    + (if a & ATTR_DIM != 0 then [2] else [])
    + (if a & ATTR_UNDERLINE != 0 then [4] else [])
    + (if a & ATTR_BLINK != 0 then [5] else [])
    + (if a & ATTR_REVERSE != 0 then [7] else [])
  }

  /** All SGR parameters of ansi mode: attributes, 38 or 48, 2, r, g, b. */
  function SgrCodes(c: Color, t: Target): seq<nat>
  {
    AttrCodes(c.attribute) + [if t == Fg then 38 else 48, 2, c.r, c.g, c.b]
  }

  /** Ansi mode: `ESC[` then the parameters joined by `;`, then `m`. */
  function FormatAnsi(c: Color, t: Target): string
  {
    CSI + Join(DecimalTexts(SgrCodes(c, t)), ";") + "m"
  }

  /** Each number in decimal. */
  function DecimalTexts(codes: seq<nat>): (texts: seq<string>)
    ensures |texts| == |codes|
    ensures forall i :: 0 <= i < |codes| ==> texts[i] == NatToString(codes[i])
  {
    seq(|codes|, i requires 0 <= i < |codes| => NatToString(codes[i]))
  }

  /** The `emit` lambda of the ansi formatter: a `;` before every parameter but
      the first, then the parameter in decimal, after which `first` is off.
      `emitted` records the parameters written so far. */
  method Emit(out: string, first: bool, code: nat, ghost emitted: seq<nat>)
    returns (next: string, nextFirst: bool)
    requires first <==> emitted == []
    requires out == Join(DecimalTexts(emitted), ";")
    ensures next == Join(DecimalTexts(emitted + [code]), ";") && !nextFirst
  {
    assert DecimalTexts(emitted + [code]) == DecimalTexts(emitted) + [NatToString(code)];
    if !first {
      next := out + ";" + NatToString(code);
      JoinSnoc(DecimalTexts(emitted), NatToString(code), ";");
    } else {
      next := out + NatToString(code);
      assert DecimalTexts(emitted + [code]) == [NatToString(code)];
    }
    nextFirst := false;
  }

  /** The `emit` calls of the ansi formatter, in order: the parameters joined
      by `;`. */
  method EmitAll(codes: seq<nat>) returns (body: string)
    ensures body == Join(DecimalTexts(codes), ";")
  {
    var first := true;
    body := "";
    for i := 0 to |codes|
      invariant first <==> i == 0
      invariant body == Join(DecimalTexts(codes[..i]), ";")
    {
      assert codes[..i + 1] == codes[..i] + [codes[i]];
      body, first := Emit(body, first, codes[i], codes[..i]);
    }
    assert codes[..|codes|] == codes;
  }

  /** Ansi mode as the formatter writes it: `ESC[`, one `emit` per parameter
      (the attribute codes that are set, then 38 or 48, 2, r, g and b), then `m`. */
  method FormatAnsiSteps(c: Color, t: Target) returns (out: string)
    ensures out == FormatAnsi(c, t)
  {
    var body := EmitAll(SgrCodes(c, t));
    out := CSI + body + "m";
  }

  /** `formatter<color>::format` with a parsed specification. */
  function FormatColor(c: Color, spec: FormatSpec): string
  {
    if spec.mode == HexMode then FormatHex(c) else FormatAnsi(c, spec.target)
  }

  // ---------------------------------------------------------------------
  // Reading an SGR sequence back (the partner of FormatAnsi).
  // ---------------------------------------------------------------------

  /** The attribute bit an SGR parameter stands for (a bit no attribute uses otherwise). */
  function CodeBit(code: nat): bv8
  {
    if code == 1 then ATTR_BOLD
    else if code == 2 then ATTR_DIM
    else if code == 4 then ATTR_UNDERLINE
    else if code == 5 then ATTR_BLINK
    else if code == 7 then ATTR_REVERSE
    else 0x80
  }

  /** The attribute bits that a list of SGR attribute parameters sets. */
  function CodesToAttr(codes: seq<nat>): bv8
  {
    if codes == [] then ATTR_NONE else CodeBit(codes[0]) | CodesToAttr(codes[1..])
  }

  lemma {:induction false} CodesToAttrAppend(x: seq<nat>, y: seq<nat>)
    ensures CodesToAttr(x + y) == CodesToAttr(x) | CodesToAttr(y)
    decreases |x|
  {
    if x != [] {
      assert (x + y)[1..] == x[1..] + y;
      CodesToAttrAppend(x[1..], y);
    } else {
      assert x + y == y;
    }
  }

  lemma AttrCodesToAttr(a: bv8)
    requires a < 32
    ensures CodesToAttr(AttrCodes(a)) == a
  {
    var p1: seq<nat> := if a & ATTR_BOLD != 0 then [1] else [];
    var p2: seq<nat> := if a & ATTR_DIM != 0 then [2] else [];
    var p3: seq<nat> := if a & ATTR_UNDERLINE != 0 then [4] else [];
    var p4: seq<nat> := if a & ATTR_BLINK != 0 then [5] else [];
    var p5: seq<nat> := if a & ATTR_REVERSE != 0 then [7] else [];
    CodesToAttrAppend(p1, p2);
    CodesToAttrAppend(p1 + p2, p3);
    CodesToAttrAppend(p1 + p2 + p3, p4);
    CodesToAttrAppend(p1 + p2 + p3 + p4, p5);
    assert CodesToAttr(p1) == a & 1;
    assert CodesToAttr(p2) == a & 2;
    assert CodesToAttr(p3) == a & 4;
    assert CodesToAttr(p4) == a & 8;
    assert CodesToAttr(p5) == a & 16;
    assert (a & 1) | (a & 2) | (a & 4) | (a & 8) | (a & 16) == a;
  }

  /** Reads the SGR parameters back into a colour and a target, accepting only
      the canonical parameter lists that FormatAnsi emits. */
  function DecodeSgr(codes: seq<nat>): Option<(Color, Target)>
  {
    if |codes| < 5 then None
    else
      var n := |codes|;
      var attrs := codes[..n - 5];
      var a := CodesToAttr(attrs);
      if AttrCodes(a) != attrs || codes[n - 4] != 2 || !(codes[n - 5] in {38, 48})
         || codes[n - 3] >= 256 || codes[n - 2] >= 256 || codes[n - 1] >= 256 then None
      else Some((Color(codes[n - 3], codes[n - 2], codes[n - 1], a), if codes[n - 5] == 38 then Fg else Bg))
  }

  /** Every field is a non-empty run of decimal digits. */
  predicate DecimalFields(fields: seq<string>)
  {
    forall k :: 0 <= k < |fields| ==> fields[k] != [] && AllDigits(fields[k])
  }

  function FieldValues(fields: seq<string>): (nums: seq<nat>)
    requires DecimalFields(fields)
    ensures |nums| == |fields|
    ensures forall k :: 0 <= k < |fields| ==> nums[k] == DecimalValue(fields[k])
  {
    seq(|fields|, k requires 0 <= k < |fields| => DecimalValue(fields[k]))
  }

  /** Reads a whole `ESC[...m` sequence. */
  function ParseSgr(s: string): Option<(Color, Target)>
  {
    if |s| < 3 || s[..2] != CSI || s[|s| - 1] != 'm' then None
    else
      var fields := Split(s[2..|s| - 1], ';');
      if !DecimalFields(fields) then None else DecodeSgr(FieldValues(fields))
  }

  /** Decimal texts of numbers are valid fields that read back as the numbers. */
  lemma DecimalTextsRoundTrip(codes: seq<nat>)
    ensures DecimalFields(DecimalTexts(codes))
    ensures FieldValues(DecimalTexts(codes)) == codes
  {
    var texts := DecimalTexts(codes);
    forall k | 0 <= k < |codes| ensures DecimalValue(texts[k]) == codes[k] {
      DecimalRoundTrip(codes[k]);
    }
  }

  lemma DecodeSgrCodes(c: Color, t: Target)
    requires c.attribute < 32
    ensures DecodeSgr(SgrCodes(c, t)) == Some((c, t))
  {
    var codes := SgrCodes(c, t);
    var n := |codes|;
    assert codes[..n - 5] == AttrCodes(c.attribute);
    AttrCodesToAttr(c.attribute);
  }

  /** Ansi mode is lossless for every attribute the model of `ansi::attribute`
      names: the sequence reads back as the same colour and target. */
  lemma SgrRoundTrip(c: Color, t: Target)
    requires c.attribute < 32
    ensures ParseSgr(FormatAnsi(c, t)) == Some((c, t))
  {
    var codes := SgrCodes(c, t);
    var texts := DecimalTexts(codes);
    var s := FormatAnsi(c, t);
    var body := Join(texts, ";");
    assert s == CSI + body + "m";
    assert s[..2] == CSI;
    assert s[2..|s| - 1] == body;
    forall k | 0 <= k < |texts| ensures ';' !in texts[k] {
      assert AllDigits(texts[k]);
    }
    SplitJoin(texts, ';');
    DecimalTextsRoundTrip(codes);
    DecodeSgrCodes(c, t);
  }
}
