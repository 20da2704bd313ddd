/** Cursor and erase commands of `include/ansi.hh` and the control sequences
    they format to (ECMA-48 section 5.4 control sequences: CUU, CUD, CUF, CUB,
    CUP, ED, EL, plus the private save/restore and cursor-visibility forms). */
module Ansi {
  import opened Wrappers
  import opened Text
  import Colors

  type U16 = x: int | 0 <= x < 0x1_0000

  datatype CommandKind =
    | Up | Down | Left | Right | MoveTo
    | EraseScreen | EraseLine | SaveCursor | RestoreCursor | HideCursor | ShowCursor

  /** `ansi::command`: a kind and two 16-bit operands that default to 0. */
  datatype Command = Command(kind: CommandKind, a: U16, b: U16)

  predicate IsRelativeMove(k: CommandKind)
  {
    k == Up || k == Down || k == Left || k == Right
  }

  /** The commands the factory functions can build: operands a kind does not use are 0. */
  predicate Canonical(c: Command)
  {
    && (IsRelativeMove(c.kind) ==> c.b == 0)
    && (!IsRelativeMove(c.kind) && c.kind != MoveTo ==> c.a == 0 && c.b == 0)
  }

  function CursorUp(n: U16 := 1): (c: Command)
    ensures Canonical(c) && c.kind == Up && c.a == n
  {
    Command(Up, n, 0)
  }

  function CursorDown(n: U16 := 1): (c: Command)
    ensures Canonical(c) && c.kind == Down && c.a == n
  {
    Command(Down, n, 0)
  }

  function CursorLeft(n: U16 := 1): (c: Command)
    ensures Canonical(c) && c.kind == Left && c.a == n
  {
    Command(Left, n, 0)
  }

  function CursorRight(n: U16 := 1): (c: Command)
    ensures Canonical(c) && c.kind == Right && c.a == n
  {
    Command(Right, n, 0)
  }

  /** `move_to(row, col)`: row in `a`, column in `b`. */
  function MoveCursorTo(row: U16, col: U16): (c: Command)
    ensures Canonical(c) && c.kind == MoveTo && c.a == row && c.b == col
  {
    Command(MoveTo, row, col)
  }

  /** The factories without operands (`clear_screen`, `clear_line`, `save_cursor`,
      `restore_cursor`, `hide_cursor`, `show_cursor`). */
  function Simple(k: CommandKind): (c: Command)
    requires !IsRelativeMove(k) && k != MoveTo
    ensures Canonical(c) && c.kind == k
  {
    Command(k, 0, 0)
  }

  /** The fixed text after `ESC[` of the operand-less commands. */
  function FixedTail(k: CommandKind): string
    requires !IsRelativeMove(k) && k != MoveTo
  {
    match k
    case EraseScreen => "2J"
    case EraseLine => "2K"
    case SaveCursor => "s"
    case RestoreCursor => "u"
    case HideCursor => "?25l"
    case ShowCursor => "?25h"
  }

  /** The final byte of a relative move: A up, B down, C right, D left. */
  function MoveFinal(k: CommandKind): char
    requires IsRelativeMove(k)
  {
    match k
    case Up => 'A'
    case Down => 'B'
    case Right => 'C'
    case Left => 'D'
  }

  /** `formatter<command>::format`. */
  function FormatCommand(c: Command): (s: string)
    ensures StartsWith(s, Colors.CSI)
  {
    Colors.CSI +
    (if IsRelativeMove(c.kind) then NatToString(c.a) + [MoveFinal(c.kind)]
     else if c.kind == MoveTo then NatToString(c.a) + ";" + NatToString(c.b) + "H"
     else FixedTail(c.kind))
  }

  /** Reads a control sequence back into the command it encodes. */
  function ParseCommand(s: string): Option<Command>
  {
    if |s| < 3 || s[..2] != Colors.CSI then None else ParseTail(s[2..])
  }

  /** The part of `ParseCommand` after `ESC[`. */
  function ParseTail(r: string): Option<Command>
    requires |r| > 0
  {
    if r == "2J" then Some(Simple(EraseScreen))
    else if r == "2K" then Some(Simple(EraseLine))
    else if r == "s" then Some(Simple(SaveCursor))
    else if r == "u" then Some(Simple(RestoreCursor))
    else if r == "?25l" then Some(Simple(HideCursor))
    else if r == "?25h" then Some(Simple(ShowCursor))
    else ParseOperands(r[..|r| - 1], r[|r| - 1])
  }

  /** Decimal operands followed by a final byte of a cursor movement. */
  function ParseOperands(body: string, last: char): Option<Command>
  {
    if last in "ABCD" then
      if body == [] || !AllDigits(body) || DecimalValue(body) >= 0x1_0000 then None
      else
        var k := if last == 'A' then Up else if last == 'B' then Down
                 else if last == 'C' then Right else Left;
        Some(Command(k, DecimalValue(body), 0))
    else if last == 'H' then
      var fields := Split(body, ';');
      if |fields| != 2 || !Colors.DecimalFields(fields)
         || DecimalValue(fields[0]) >= 0x1_0000 || DecimalValue(fields[1]) >= 0x1_0000 then None
      else Some(Command(MoveTo, DecimalValue(fields[0]), DecimalValue(fields[1])))
    else None
  }

  lemma RelativeRoundTrip(c: Command)
    requires Canonical(c) && IsRelativeMove(c.kind)
    ensures ParseCommand(FormatCommand(c)) == Some(c)
  {
    var s := FormatCommand(c);
    var d := NatToString(c.a);
    assert s == Colors.CSI + (d + [MoveFinal(c.kind)]);
    assert s[..2] == Colors.CSI;
    var r := s[2..];
    assert r == d + [MoveFinal(c.kind)];
    assert r[..|r| - 1] == d;
    assert r[|r| - 1] == MoveFinal(c.kind);
    assert r != "2J" && r != "2K" && r != "s" && r != "u" && r != "?25l" && r != "?25h" by {
      assert r[|r| - 1] !in "JKsulh";
    }
    DecimalRoundTrip(c.a);
    assert ParseOperands(d, MoveFinal(c.kind)) == Some(c);
  }

  lemma MoveToRoundTrip(c: Command)
    requires c.kind == MoveTo
    ensures ParseCommand(FormatCommand(c)) == Some(c)
  {
    var s := FormatCommand(c);
    var x, y := NatToString(c.a), NatToString(c.b);
    var body := x + ";" + y;
    var r := body + "H";
    assert s == Colors.CSI + r;
    assert s[..2] == Colors.CSI;
    assert s[2..] == r;
    assert r[..|r| - 1] == body && r[|r| - 1] == 'H';
    assert r != "2J" && r != "2K" && r != "s" && r != "u" && r != "?25l" && r != "?25h";
    MoveToOperands(c);
  }

  lemma MoveToOperands(c: Command)
    requires c.kind == MoveTo
    ensures ParseOperands(NatToString(c.a) + ";" + NatToString(c.b), 'H') == Some(c)
  {
    var x, y := NatToString(c.a), NatToString(c.b);
    assert x + ";" + y == Join([x, y], [';']);
    assert forall j :: 0 <= j < |x| ==> x[j] != ';';
    assert forall j :: 0 <= j < |y| ==> y[j] != ';';
    SplitJoin([x, y], ';');
    DecimalRoundTrip(c.a);
    DecimalRoundTrip(c.b);
  }

  lemma SimpleRoundTrip(c: Command)
    requires Canonical(c) && !IsRelativeMove(c.kind) && c.kind != MoveTo
    ensures ParseCommand(FormatCommand(c)) == Some(c)
  {
    var s := FormatCommand(c);
    assert s == Colors.CSI + FixedTail(c.kind);
    assert s[..2] == Colors.CSI;
    assert s[2..] == FixedTail(c.kind);
  }

  /** Every command a factory builds formats to a sequence that reads back as
      that same command, so distinct commands emit distinct sequences. */
  lemma CommandRoundTrip(c: Command)
    requires Canonical(c)
    ensures ParseCommand(FormatCommand(c)) == Some(c)
  {
    if IsRelativeMove(c.kind) {
      RelativeRoundTrip(c);
    } else if c.kind == MoveTo {
      MoveToRoundTrip(c);
    } else {
      SimpleRoundTrip(c);
    }
  }
}
