/** The byte-at-a-time key decoder of `src/terminal.cc`: a plain path for
    single-byte keys and an ECMA-48 (section 5.4) control sequence path entered
    by ESC `[`. The hidden statics (`esc_seen` and the `csi_state` record)
    become the fields of a `Decoder`. */
module Terminal {
  import W = Wrappers

  datatype Key =
    | Unknown | Enter | Escape | Backspace | Tab
    | ArrowUp | ArrowDown | ArrowLeft | ArrowRight
    | Home | End | PageUp | PageDown | Insert | Del
    | F1 | F2 | F3 | F4 | F5 | F6 | F7 | F8 | F9 | F10 | F11 | F12

  /** `key_event`, fields in declaration order. */
  datatype KeyEvent = KeyEvent(code: Key, shift: bool, alt: bool, ctrl: bool)

  /** The `key_event` constructor, whose positional flags are ordered
      (alt, ctrl, shift), every one defaulting to false. */
  function NewKeyEvent(code: Key, alt: bool := false, ctrl: bool := false, shift: bool := false): KeyEvent
  {
    KeyEvent(code, shift, alt, ctrl)
  }

  datatype DecodeStatus = Value | Pending | None

  datatype DecodeResult = DecodeResult(status: DecodeStatus, event: W.Option<KeyEvent>)

  const ESC: char := '\U{1B}'
  const DEL: char := '\U{7F}'

  /** `decode_plain`: the keys that are one byte on the wire. */
  function DecodePlain(c: char): (r: W.Option<KeyEvent>)
    ensures r.Some? <==> (c == '\r' || c == '\n' || c == '\t' || c == DEL)
    ensures r.Some? ==> r.value == NewKeyEvent(r.value.code) && r.value.code in {Enter, Tab, Backspace}
  {
    match c
    case '\r' => W.Some(NewKeyEvent(Enter))
    case '\n' => W.Some(NewKeyEvent(Enter))
    case '\t' => W.Some(NewKeyEvent(Tab))
    case _ => if c == DEL then W.Some(NewKeyEvent(Backspace)) else W.None
  }

  /** `decode_csi_modifiers`, giving (shift, alt, ctrl): the xterm modifier
      parameter is one more than a bit set with shift as bit 0, alt as bit 1 and
      ctrl as bit 2; codes outside 2..8 set nothing. */
  function Modifiers(mod: int): (r: (bool, bool, bool))
    ensures 2 <= mod <= 8 ==> r == ((mod - 1) % 2 == 1, (mod - 1) / 2 % 2 == 1, mod - 1 >= 4)
    ensures !(2 <= mod <= 8) ==> r == (false, false, false)
  {
    match mod
    case 2 => (true, false, false)
    case 3 => (false, true, false)
    case 4 => (true, true, false)
    case 5 => (false, false, true)
    case 6 => (true, false, true)
    case 7 => (false, true, true)
    case 8 => (true, true, true)
    case _ => (false, false, false)
  }

  /** The key a final byte names: A, B, C, D the arrows, H and F home and end,
      `~` with a first parameter 1..6 the editing keys. */
  predicate IsFinalKey(p1: int, b: char)
  {
    b == 'A' || b == 'B' || b == 'C' || b == 'D' || b == 'H' || b == 'F' || (b == '~' && 1 <= p1 <= 6)
  }

  function FinalKey(p1: int, b: char): Key
  {
    match b
    case 'A' => ArrowUp
    case 'B' => ArrowDown
    case 'C' => ArrowRight
    case 'D' => ArrowLeft
    case 'H' => Home
    case 'F' => End
    case _ =>
      if p1 == 1 then Home else if p1 == 2 then Insert else if p1 == 3 then Del
      else if p1 == 4 then End else if p1 == 5 then PageUp else PageDown
  }

  /** `decode_csi_final_byte` as written: the flags (shift, alt, ctrl) are
      handed positionally to the constructor, whose order is (alt, ctrl,
      shift), so shift lands in `alt`, alt in `ctrl` and ctrl in `shift`. */
  function FinalByte(p1: int, b: char, mod: int): (r: W.Option<KeyEvent>)
    ensures r.Some? <==> IsFinalKey(p1, b)
    ensures r.Some? ==> r.value.code == FinalKey(p1, b)
    ensures r.Some? ==> (r.value.alt, r.value.ctrl, r.value.shift) == Modifiers(mod)
  {
    var (shift, alt, ctrl) := Modifiers(mod);
    match b
    case 'A' => W.Some(NewKeyEvent(ArrowUp, shift, alt, ctrl))
    case 'B' => W.Some(NewKeyEvent(ArrowDown, shift, alt, ctrl))
    case 'C' => W.Some(NewKeyEvent(ArrowRight, shift, alt, ctrl))
    case 'D' => W.Some(NewKeyEvent(ArrowLeft, shift, alt, ctrl))
    case 'H' => W.Some(NewKeyEvent(Home, shift, alt, ctrl))
    case 'F' => W.Some(NewKeyEvent(End, shift, alt, ctrl))
    case '~' =>
      if p1 == 1 then W.Some(NewKeyEvent(Home, shift, alt, ctrl))
      else if p1 == 2 then W.Some(NewKeyEvent(Insert, shift, alt, ctrl))
      else if p1 == 3 then W.Some(NewKeyEvent(Del, shift, alt, ctrl))
      else if p1 == 4 then W.Some(NewKeyEvent(End, shift, alt, ctrl))
      else if p1 == 5 then W.Some(NewKeyEvent(PageUp, shift, alt, ctrl))
      else if p1 == 6 then W.Some(NewKeyEvent(PageDown, shift, alt, ctrl))
      else W.None
    case _ => W.None
  }

  /** Shift and the up arrow (`ESC [ 1 ; 2 A`) come out as alt and the up arrow. */
  lemma ShiftReadAsAlt()
    ensures FinalByte(1, 'A', 2) == W.Some(KeyEvent(ArrowUp, false, true, false))
  {
  }

  /** The final byte with the flags in their own fields. */
  function FinalByteFixed(p1: int, b: char, mod: int): (r: W.Option<KeyEvent>)
    ensures r.Some? <==> IsFinalKey(p1, b)
    ensures r.Some? ==> r.value.code == FinalKey(p1, b)
    ensures r.Some? ==> (r.value.shift, r.value.alt, r.value.ctrl) == Modifiers(mod)
  {
    var (shift, alt, ctrl) := Modifiers(mod);
    if IsFinalKey(p1, b) then W.Some(NewKeyEvent(FinalKey(p1, b), alt, ctrl, shift)) else W.None
  }

  /** `csi_state`. */
  datatype Csi = Csi(active: bool, p1: int, p2: int, semi: bool)

  const IDLE: Csi := Csi(false, 0, 0, false)

  predicate IsDigit(c: char)
  {
    '0' <= c <= '9'
  }

  function DigitValue(c: char): int
  {
    c as int - '0' as int
  }

  /** `decode_csi_char`, with the final byte decoded by `finalByte`. */
  function CsiChar(g: Csi, ch: char, fixedFinal: bool): (Csi, DecodeResult)
  {
    if !g.active then
      if ch == '[' then (Csi(true, 0, 0, false), DecodeResult(Pending, W.None))
      else (g, DecodeResult(None, W.None))
    else if IsDigit(ch) then
      if g.semi then (g.(p2 := g.p2 * 10 + DigitValue(ch)), DecodeResult(Pending, W.None))
      else (g.(p1 := g.p1 * 10 + DigitValue(ch)), DecodeResult(Pending, W.None))
    else if ch == ';' then (g.(semi := true), DecodeResult(Pending, W.None))
    else
      var mod := if g.semi then g.p2 else 1;
      var event := if fixedFinal then FinalByteFixed(g.p1, ch, mod) else FinalByte(g.p1, ch, mod);
      (IDLE, if event.None? then DecodeResult(None, W.None) else DecodeResult(Value, event))
  }

  datatype DecoderState = DecoderState(escSeen: bool, csi: Csi)

  const START: DecoderState := DecoderState(false, IDLE)

  /** `decode` as written: the control sequence path is consulted only on the
      byte right after ESC, and an ESC followed by anything but `[` gives the
      unknown key with `ctrl` set by the constructor's order. */
  function Step(s: DecoderState, ch: char): (DecoderState, DecodeResult)
  {
    if !s.escSeen then
      if ch == ESC then (s.(escSeen := true), DecodeResult(Pending, W.None))
      else
        var event := DecodePlain(ch);
        (s, if event.Some? then DecodeResult(Value, event) else DecodeResult(None, W.None))
    else if ch != '[' then
      (s.(escSeen := false), DecodeResult(Value, W.Some(NewKeyEvent(Unknown, false, true))))
    else
      var (g, r) := CsiChar(s.csi, ch, false);
      (DecoderState(false, g), r)
  }

  /** Feeding bytes one after another: one result per byte. */
  function Run(s: DecoderState, input: seq<char>, fixed: bool): (r: (DecoderState, seq<DecodeResult>))
    ensures |r.1| == |input|
    decreases |input|
  {
    if input == [] then (s, [])
    else
      var (s1, r) := StepBy(s, input[0], fixed);
      var (s2, rs) := Run(s1, input[1..], fixed);
      (s2, [r] + rs)
  }

  function StepBy(s: DecoderState, ch: char, fixed: bool): (DecoderState, DecodeResult)
  {
    if fixed then StepFixed(s, ch) else Step(s, ch)
  }

  lemma RunOne(s: DecoderState, ch: char, fixed: bool)
    ensures Run(s, [ch], fixed) == (StepBy(s, ch, fixed).0, [StepBy(s, ch, fixed).1])
  {
    var st := StepBy(s, ch, fixed);
    assert [ch][0] == ch && [ch][1..] == [];
    assert Run(st.0, [], fixed) == (st.0, []);
    assert [st.1] + [] == [st.1];
  }

  /** The states `decode` as written can reach: the parameters are never
      touched, since only `[` ever reaches the control sequence path. */
  predicate Reachable(s: DecoderState)
  {
    s.csi.p1 == 0 && s.csi.p2 == 0 && !s.csi.semi
  }

  /** Keys the as-written decoder can report. */
  predicate PlainReport(r: DecodeResult)
  {
    r.event.Some? ==> r.event.value.code in {Enter, Tab, Backspace, Unknown}
  }

  lemma StepReachable(s: DecoderState, ch: char)
    requires Reachable(s)
    ensures Reachable(Step(s, ch).0) && PlainReport(Step(s, ch).1)
  {
    if s.escSeen && ch == '[' && s.csi.active {
      assert !IsFinalKey(0, '[');
    }
  }

  /** Whatever the input, the as-written decoder never reports an arrow, a
      navigation or a function key: `ESC [ A` gives pending, pending and
      none, and leaves the sequence open. */
  lemma {:induction false} AsWrittenOnlyPlainKeys(s: DecoderState, input: seq<char>)
    requires Reachable(s)
    ensures var (t, rs) := Run(s, input, false);
      && Reachable(t) && |rs| == |input|
      && forall i :: 0 <= i < |rs| ==> PlainReport(rs[i])
    decreases |input|
  {
    if input != [] {
      StepReachable(s, input[0]);
      AsWrittenOnlyPlainKeys(Step(s, input[0]).0, input[1..]);
    }
  }

  lemma EscBracketA()
    ensures Run(START, [ESC, '[', 'A'], false)
         == (DecoderState(false, Csi(true, 0, 0, false)),
             [DecodeResult(Pending, W.None), DecodeResult(Pending, W.None), DecodeResult(None, W.None)])
  {
    var open := DecoderState(false, Csi(true, 0, 0, false));
    var pending := DecodeResult(Pending, W.None);
    RunOne(START, ESC, false);
    assert StepBy(START, ESC, false) == (START.(escSeen := true), pending);
    RunOne(START.(escSeen := true), '[', false);
    assert CsiChar(IDLE, '[', false) == (open.csi, pending);
    assert StepBy(START.(escSeen := true), '[', false) == (open, pending);
    RunOne(open, 'A', false);
    assert DecodePlain('A') == W.None;
    assert StepBy(open, 'A', false) == (open, DecodeResult(None, W.None));
    assert Run(START, [ESC], false) == (START.(escSeen := true), [pending]);
    assert Run(START.(escSeen := true), ['['], false) == (open, [pending]);
    RunAppend(START, [ESC], ['['], false);
    assert [ESC] + ['['] == [ESC, '['];
    assert [pending] + [pending] == [pending, pending];
    assert Run(START, [ESC, '['], false) == (open, [pending, pending]);
    RunAppend(START, [ESC, '['], ['A'], false);
    assert [ESC, '['] + ['A'] == [ESC, '[', 'A'];
    assert [pending, pending] + [DecodeResult(None, W.None)] == [pending, pending, DecodeResult(None, W.None)];
  }

  /** `decode` as evidently intended: once `ESC [` has opened a sequence, every
      byte goes to the control sequence path until its final byte, an ESC
      followed by another byte is reported as an unknown key with alt, and the final byte
      decodes its flags into their own fields. */
  function StepFixed(s: DecoderState, ch: char): (DecoderState, DecodeResult)
  {
    if s.csi.active && !s.escSeen then
      var (g, r) := CsiChar(s.csi, ch, true);
      (s.(csi := g), r)
    else if !s.escSeen then
      if ch == ESC then (s.(escSeen := true), DecodeResult(Pending, W.None))
      else
        var event := DecodePlain(ch);
        (s, if event.Some? then DecodeResult(Value, event) else DecodeResult(None, W.None))
    else if ch != '[' then
      (s.(escSeen := false), DecodeResult(Value, W.Some(NewKeyEvent(Unknown, true))))
    else
      var (g, r) := CsiChar(s.csi, ch, true);
      (DecoderState(false, g), r)
  }

  lemma {:induction false} RunAppend(s: DecoderState, a: seq<char>, b: seq<char>, fixed: bool)
    ensures Run(s, a + b, fixed)
         == (Run(Run(s, a, fixed).0, b, fixed).0, Run(s, a, fixed).1 + Run(Run(s, a, fixed).0, b, fixed).1)
    decreases |a|
  {
    if a == [] {
      assert a + b == b;
      assert Run(s, a, fixed) == (s, []);
      assert [] + Run(s, b, fixed).1 == Run(s, b, fixed).1;
    } else {
      assert (a + b)[0] == a[0] && (a + b)[1..] == a[1..] + b;
      var (s1, r) := StepBy(s, a[0], fixed);
      RunAppend(s1, a[1..], b, fixed);
      var mid := Run(s1, a[1..], fixed);
      var end := Run(mid.0, b, fixed);
      assert Run(s, a + b, fixed) == (end.0, [r] + (mid.1 + end.1));
      assert Run(s, a, fixed) == (mid.0, [r] + mid.1);
      assert [r] + (mid.1 + end.1) == ([r] + mid.1) + end.1;
    }
  }

  /** Digits read left to right, each multiplying what came before by ten. */
  function Accumulate(acc: int, ds: seq<char>): int
    decreases |ds|
  {
    if ds == [] then acc else Accumulate(acc * 10 + DigitValue(ds[0]), ds[1..])
  }

  function Decimal(ds: seq<char>): (n: int)
    ensures (forall i :: 0 <= i < |ds| ==> IsDigit(ds[i])) ==> n >= 0
  {
    AccumulateNonNegative(0, ds);
    Accumulate(0, ds)
  }

  lemma {:induction false} AccumulateNonNegative(acc: int, ds: seq<char>)
    ensures acc >= 0 && (forall i :: 0 <= i < |ds| ==> IsDigit(ds[i])) ==> Accumulate(acc, ds) >= acc
    decreases |ds|
  {
    if ds != [] && acc >= 0 && (forall i :: 0 <= i < |ds| ==> IsDigit(ds[i])) {
      AccumulateNonNegative(acc * 10 + DigitValue(ds[0]), ds[1..]);
    }
  }

  function Pendings(n: nat): (r: seq<DecodeResult>)
    ensures |r| == n && forall i :: 0 <= i < n ==> r[i] == DecodeResult(Pending, W.None)
  {
    seq(n, _ => DecodeResult(Pending, W.None))
  }

  /** Inside an open sequence, digits accumulate into the parameter the
      semicolon selects, each byte reported as pending. */
  lemma {:induction false} RunDigits(g: Csi, ds: seq<char>)
    requires g.active && forall i :: 0 <= i < |ds| ==> IsDigit(ds[i])
    ensures Run(DecoderState(false, g), ds, true)
         == (DecoderState(false, if g.semi then g.(p2 := Accumulate(g.p2, ds)) else g.(p1 := Accumulate(g.p1, ds))),
             Pendings(|ds|))
    decreases |ds|
  {
    if ds != [] {
      var g1 := if g.semi then g.(p2 := g.p2 * 10 + DigitValue(ds[0])) else g.(p1 := g.p1 * 10 + DigitValue(ds[0]));
      assert StepFixed(DecoderState(false, g), ds[0]) == (DecoderState(false, g1), DecodeResult(Pending, W.None));
      RunDigits(g1, ds[1..]);
      assert [DecodeResult(Pending, W.None)] + Pendings(|ds| - 1) == Pendings(|ds|);
    }
  }

  /** `ESC [` opens a sequence. */
  lemma OpenFixed()
    ensures Run(START, [ESC, '['], true) == (DecoderState(false, Csi(true, 0, 0, false)), Pendings(2))
  {
    var pending := DecodeResult(Pending, W.None);
    RunOne(START, ESC, true);
    assert StepBy(START, ESC, true) == (START.(escSeen := true), pending);
    RunOne(START.(escSeen := true), '[', true);
    assert CsiChar(IDLE, '[', true) == (Csi(true, 0, 0, false), pending);
    assert StepBy(START.(escSeen := true), '[', true) == (DecoderState(false, Csi(true, 0, 0, false)), pending);
    RunAppend(START, [ESC], ['['], true);
    assert [pending] + [pending] == Pendings(2);
    assert [ESC] + ['['] == [ESC, '['];
  }

  /** A final byte naming a key closes the sequence and reports that key. */
  lemma FinalFixed(g: Csi, f: char)
    requires g.active && IsFinalKey(g.p1, f)
    ensures var (shift, alt, ctrl) := Modifiers(if g.semi then g.p2 else 1);
      Run(DecoderState(false, g), [f], true)
        == (START, [DecodeResult(Value, W.Some(KeyEvent(FinalKey(g.p1, f), shift, alt, ctrl)))])
  {
    RunOne(DecoderState(false, g), f, true);
  }

  /** The optional `; mod` part. */
  lemma ModFixed(g: Csi, ms: seq<char>, withMod: bool)
    requires g.active && !g.semi && g.p2 == 0 && forall i :: 0 <= i < |ms| ==> IsDigit(ms[i])
    ensures var tail := if withMod then [';'] + ms else [];
      Run(DecoderState(false, g), tail, true)
        == (DecoderState(false, if withMod then g.(semi := true, p2 := Accumulate(0, ms)) else g), Pendings(|tail|))
  {
    if withMod {
      RunOne(DecoderState(false, g), ';', true);
      assert StepBy(DecoderState(false, g), ';', true) == (DecoderState(false, g.(semi := true)), DecodeResult(Pending, W.None));
      assert Pendings(1) == [DecodeResult(Pending, W.None)];
      assert Run(DecoderState(false, g), [';'], true) == (DecoderState(false, g.(semi := true)), Pendings(1));
      RunAppend(DecoderState(false, g), [';'], ms, true);
      RunDigits(g.(semi := true, p2 := 0), ms);
      assert g.(semi := true) == g.(semi := true, p2 := 0);
      assert Pendings(1) + Pendings(|ms|) == Pendings(1 + |ms|);
    }
  }

  /** The corrected decoder reads `ESC [ p1 ; mod final` (or `ESC [ p1 final`)
      as the key the final byte names, with the modifiers the parameter
      encodes, every earlier byte pending, and is back at its start state. */
  lemma CsiSequenceFixed(ds: seq<char>, ms: seq<char>, withMod: bool, f: char)
    requires forall i :: 0 <= i < |ds| ==> IsDigit(ds[i])
    requires forall i :: 0 <= i < |ms| ==> IsDigit(ms[i])
    requires IsFinalKey(Decimal(ds), f)
    ensures var input := [ESC, '['] + ds + (if withMod then [';'] + ms else []) + [f];
            var (t, rs) := Run(START, input, true);
            var (shift, alt, ctrl) := Modifiers(if withMod then Decimal(ms) else 1);
      && t == START
      && rs == Pendings(|input| - 1) + [DecodeResult(Value, W.Some(KeyEvent(FinalKey(Decimal(ds), f), shift, alt, ctrl)))]
  {
    var open := Csi(true, 0, 0, false);
    var tail := if withMod then [';'] + ms else [];
    var g1 := open.(p1 := Decimal(ds));
    var g2 := if withMod then g1.(semi := true, p2 := Decimal(ms)) else g1;
    OpenFixed();
    RunDigits(open, ds);
    ModFixed(g1, ms, withMod);
    FinalFixed(g2, f);
    var last := Run(DecoderState(false, g2), [f], true).1;
    RunAppend(DecoderState(false, g1), tail, [f], true);
    RunAppend(DecoderState(false, open), ds, tail + [f], true);
    RunAppend(START, [ESC, '['], ds + (tail + [f]), true);
    assert [ESC, '['] + ds + tail + [f] == [ESC, '['] + (ds + (tail + [f]));
    assert Pendings(2) + (Pendings(|ds|) + (Pendings(|tail|) + last))
        == Pendings(2 + |ds| + |tail|) + last;
  }

  /** ESC then a byte other than `[`: the as-written decoder reports the
      unknown key with ctrl, the corrected one with alt. */
  lemma EscKey(ch: char)
    requires ch != '['
    ensures Run(START, [ESC, ch], false).1[1] == DecodeResult(Value, W.Some(KeyEvent(Unknown, false, false, true)))
    ensures Run(START, [ESC, ch], true).1[1] == DecodeResult(Value, W.Some(KeyEvent(Unknown, false, true, false)))
  {
    RunAppend(START, [ESC], [ch], false);
    RunAppend(START, [ESC], [ch], true);
    RunOne(START, ESC, false);
    RunOne(START, ESC, true);
    RunOne(START.(escSeen := true), ch, false);
    RunOne(START.(escSeen := true), ch, true);
    assert [ESC] + [ch] == [ESC, ch];
  }

  /** The statics of `src/terminal.cc` as fields. */
  class Decoder {
    var escSeen: bool
    var active: bool
    var p1: int
    var p2: int
    var semi: bool

    function State(): DecoderState
      reads this
    {
      DecoderState(escSeen, Csi(active, p1, p2, semi))
    }

    constructor()
      ensures State() == START
    {
      escSeen := false;
      active, p1, p2, semi := false, 0, 0, false;
    }

    /** `decode_csi_char`. */
    method DecodeCsi(ch: char) returns (r: DecodeResult)
      modifies this
      ensures escSeen == old(escSeen)
      ensures (State().csi, r) == CsiChar(old(State().csi), ch, false)
    {
      if !active {
        if ch == '[' {
          active, p1, p2, semi := true, 0, 0, false;
          return DecodeResult(Pending, W.None);
        }
        return DecodeResult(None, W.None);
      }
      if '0' <= ch <= '9' {
        if semi {
          p2 := p2 * 10 + (ch as int - '0' as int);
        } else {
          p1 := p1 * 10 + (ch as int - '0' as int);
        }
        return DecodeResult(Pending, W.None);
      }
      if ch == ';' {
        semi := true;
        return DecodeResult(Pending, W.None);
      }
      var mod := if semi then p2 else 1;
      var event := FinalByte(p1, ch, mod);
      active, p1, p2, semi := false, 0, 0, false;
      if event.None? {
        return DecodeResult(None, W.None);
      }
      return DecodeResult(Value, event);
    }

    /** `decode`. */
    method Decode(ch: char) returns (r: DecodeResult)
      modifies this
      ensures (State(), r) == Step(old(State()), ch)
    {
      if !escSeen {
        if ch == ESC {
          escSeen := true;
          return DecodeResult(Pending, W.None);
        }
        var event := DecodePlain(ch);
        if event.Some? {
          return DecodeResult(Value, event);
        }
        return DecodeResult(None, W.None);
      }
      escSeen := false;
      if ch != '[' {
        return DecodeResult(Value, W.Some(NewKeyEvent(Unknown, false, true)));
      }
      r := DecodeCsi(ch);
    }
  }
}
