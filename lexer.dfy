/** The lexer of `src/lexer.cc`: a command string becomes a sequence of tokens
    carrying line and column positions. The step functions below are the
    specification; the methods walk the string as the source does and are
    proved to follow them. */
module Lexer {
  import opened Wrappers
  import opened Text
  import opened Diagnostics
  import opened Tokens

  /** `is_punct`: the characters of `!$%^&*(){}[]|;:<>,?`. */
  predicate IsPunct(c: char)
  {
    match c
    case '!' | '$' | '%' | '^' | '&' | '*' | '(' | ')' | '{' | '}' | '[' | ']' | '|' | ';' | ':' | '<' | '>' | ',' | '?' => true
    case _ => false
  }

  /** `is_quote`: only `'` and `"` open a quoted string; a backtick does not. */
  predicate IsQuote(c: char)
  {
    c == '\'' || c == '"'
  }

  /** `matching_open`: the opener of a closing bracket, `'\0'` for anything else. */
  function MatchingOpen(c: char): (o: char)
    ensures o != '\0' <==> c == ')' || c == '}' || c == ']'
    ensures o != '\0' ==> IsPunct(c) && IsPunct(o)
  {
    match c
    case ')' => '('
    case '}' => '{'
    case ']' => '['
    case _ => '\0'
  }

  /** `get_punct_token_type`. */
  function PunctTokenType(c: char): (k: TokenType)
    ensures k == Bracket <==> c == '(' || c == ')' || c == '{' || c == '}' || c == '[' || c == ']'
    ensures k == Pipe <==> c == '|'
    ensures k == Dollar <==> c == '$'
    ensures k != Word && k != Quote
  {
    match c
    case '(' | ')' | '{' | '}' | '[' | ']' => Bracket
    case '|' => Pipe
    case '$' => Dollar
    case _ => NoneType
  }

  // ---------------------------------------------------------------------
  // find_next_whitespace

  /** The number of consecutive backslashes just before index `i`. */
  function BackslashRun(s: string, i: nat): (n: nat)
    requires i <= |s|
    ensures n <= i
    ensures forall k :: i - n <= k < i ==> s[k] == '\\'
    ensures n < i ==> s[i - n - 1] != '\\'
  {
    if i == 0 || s[i - 1] != '\\' then 0 else BackslashRun(s, i - 1) + 1
  }

  /** A whitespace character that no backslash escapes. */
  predicate UnescapedSpace(s: string, i: nat)
    requires i < |s|
  {
    IsSpace(s[i]) && BackslashRun(s, i) % 2 == 0
  }

  /** The first unescaped whitespace at or after `pos`, `None` for `npos`.
      The search walks `iota(pos, length)`, a range that exists only for
      `pos <= length`. */
  function NextWhitespace(s: string, pos: nat): (r: Option<nat>)
    requires pos <= |s|
    ensures r.Some? ==> pos <= r.value < |s| && UnescapedSpace(s, r.value)
    ensures r.Some? ==> forall k :: pos <= k < r.value ==> !UnescapedSpace(s, k)
    ensures r.None? ==> forall k :: pos <= k < |s| ==> !UnescapedSpace(s, k)
    decreases |s| - pos
  {
    if pos == |s| then None
    else if UnescapedSpace(s, pos) then Some(pos)
    else NextWhitespace(s, pos + 1)
  }

  /** The backslash count before index `i`, kept in a `uint8_t` as the source does. */
  method CountBackslashes(s: string, i: nat) returns (count: nat)
    requires i <= |s|
    ensures count == BackslashRun(s, i) % 256
  {
    count := 0;
    var j := i;
    while j > 0 && s[j - 1] == '\\'
      invariant 0 <= j <= i
      invariant BackslashRun(s, i) == BackslashRun(s, j) + (i - j)
      invariant count == (i - j) % 256
    {
      ModSucc(i - j);
      count := (count + 1) % 256;
      j := j - 1;
    }
  }

  /** Incrementing a byte counter wraps as the count does. */
  lemma ModSucc(n: nat)
    ensures (n % 256 + 1) % 256 == (n + 1) % 256
  {
    var q := n / 256;
    assert n == 256 * q + n % 256;
    if n % 256 == 255 {
      assert n + 1 == 256 * (q + 1);
    } else {
      assert n + 1 == 256 * q + (n % 256 + 1);
    }
  }

  /** A count kept modulo 256 keeps its parity. */
  lemma ParityModulo256(n: nat)
    ensures (n % 256) % 2 == n % 2
  {
    assert n == 256 * (n / 256) + n % 256;
    assert 256 * (n / 256) == 2 * (128 * (n / 256));
  }

  /** `find_next_whitespace`. */
  method FindNextWhitespace(s: string, pos: nat) returns (r: Option<nat>)
    requires pos <= |s|
    ensures r == NextWhitespace(s, pos)
  {
    var i := pos;
    while i < |s|
      invariant pos <= i <= |s|
      invariant NextWhitespace(s, pos) == NextWhitespace(s, i)
      decreases |s| - i
    {
      if IsSpace(s[i]) {
        var count := CountBackslashes(s, i);
        ParityModulo256(BackslashRun(s, i));
        if count % 2 == 0 {
          return Some(i);
        }
      }
      i := i + 1;
    }
    return None;
  }

  // ---------------------------------------------------------------------
  // Positions and the lexer state

  /** The cursor `lex` threads through its helpers: the index, the index where
      the current line starts, and the location given to the next token. */
  datatype Position = Position(index: nat, lineStart: nat, source: SourceLocation)

  /** Every local of `lex`: the position, the `escaped` flag and the tokens so far. */
  datatype LexState = LexState(pos: Position, escaped: bool, tokens: seq<Token>)

  function Initial(): LexState
  {
    LexState(Position(0, 0, SourceLocation(0, 0)), false, [])
  }

  /** A column advanced by one, as a `std::size_t`. */
  function NextColumn(loc: SourceLocation): SourceLocation
  {
    loc.(column := SizeT(loc.column + 1))
  }

  // ---------------------------------------------------------------------
  // get_tokens_from_string

  /** One character of a quoted string's interior: a newline starts a line,
      and the line start becomes the index plus one, the index itself
      advancing by one per newline only. */
  function InteriorChar(c: char, p: Position): Position
  {
    if c == '\n' then Position(p.index + 1, p.index + 1, SourceLocation(p.source.line + 1, 0))
    else p.(source := NextColumn(p.source))
  }

  /** The position after the interior characters `s[lo..hi]`. */
  function Interior(s: string, lo: nat, hi: nat, p: Position): Position
    requires lo <= hi <= |s|
    decreases hi
  {
    if hi == lo then p else InteriorChar(s[hi - 1], Interior(s, lo, hi - 1, p))
  }

  /** What `get_tokens_from_string` returns: 0, 1 or 2. */
  datatype StringOutcome = NotQuote | Closed(next: LexState) | Unclosed(tokens: seq<Token>)

  function StringTokens(s: string, st: LexState): (r: StringOutcome)
    requires st.pos.index < |s|
    ensures r.NotQuote? <==> !IsQuote(s[st.pos.index])
  {
    var i := st.pos.index;
    var q := s[i];
    if !IsQuote(q) then NotQuote
    else
      var open := Token(Quote, [q], st.pos.source);
      var afterOpen := NextColumn(st.pos.source);
      match FindFrom(s, q, i + 1)
      case None => Unclosed(st.tokens + [open, Token(Word, s[i + 1..], afterOpen)])
      case Some(close) =>
        var inner := Token(Word, s[i + 1..close], afterOpen);
        var p := Interior(s, i + 1, close, Position(i, st.pos.lineStart, afterOpen));
        var closing := Token(Quote, [s[close]], p.source);
        Closed(LexState(Position(close + 1, p.lineStart, NextColumn(p.source)),
                        st.escaped, st.tokens + [open, inner, closing]))
  }

  /** A quote with a matching closer yields the opening quote, the raw interior
      as one word and the closing quote, and lexing resumes after the closer. */
  lemma ClosedQuote(s: string, st: LexState, close: nat)
    requires st.pos.index < close < |s| && IsQuote(s[st.pos.index])
    requires s[close] == s[st.pos.index]
    requires forall k :: st.pos.index < k < close ==> s[k] != s[close]
    ensures StringTokens(s, st).Closed?
    ensures var next := StringTokens(s, st).next;
            && next.pos.index == close + 1
            && |next.tokens| == |st.tokens| + 3
            && next.tokens[..|st.tokens|] == st.tokens
            && next.tokens[|st.tokens|] == Token(Quote, [s[close]], st.pos.source)
            && next.tokens[|st.tokens| + 1].kind == Word
            && next.tokens[|st.tokens| + 1].data == s[st.pos.index + 1..close]
            && next.tokens[|st.tokens| + 2].kind == Quote
            && next.tokens[|st.tokens| + 2].data == [s[close]]
  {
    var r := FindFrom(s, s[st.pos.index], st.pos.index + 1);
    assert s[close] == s[st.pos.index];
    assert r == Some(close);
  }

  /** An unterminated quote yields the quote and one word holding the rest of the string. */
  lemma UnclosedQuote(s: string, st: LexState)
    requires st.pos.index < |s| && IsQuote(s[st.pos.index])
    requires forall k :: st.pos.index < k < |s| ==> s[k] != s[st.pos.index]
    ensures StringTokens(s, st)
         == Unclosed(st.tokens + [Token(Quote, [s[st.pos.index]], st.pos.source),
                                  Token(Word, s[st.pos.index + 1..], NextColumn(st.pos.source))])
  {
  }

  /** `get_tokens_from_string`: 0 when the index is not on a quote, 1 when the
      quote closes (the state moves past the closer), 2 when it does not. */
  method GetTokensFromString(s: string, st: LexState) returns (res: nat, next: LexState)
    requires st.pos.index < |s|
    ensures res == 0 ==> StringTokens(s, st).NotQuote? && next == st
    ensures res == 1 ==> StringTokens(s, st) == Closed(next)
    ensures res == 2 ==> StringTokens(s, st) == Unclosed(next.tokens)
    ensures res <= 2
  {
    var index: nat := st.pos.index;
    var q := s[index];
    assert s[index..index + 1] == [q];
    if !IsQuote(q) {
      return 0, st;
    }
    var tokens := st.tokens + [Token(Quote, s[index..index + 1], st.pos.source)];
    var source := NextColumn(st.pos.source);
    var closingQuote := FindFrom(s, q, index + 1);
    if closingQuote.None? {
      tokens := tokens + [Token(Word, s[index + 1..], source)];
      return 2, st.(tokens := tokens);
    }
    var close := closingQuote.value;
    tokens := tokens + [Token(Word, s[index + 1..close], source)];
    var lineStart: nat := st.pos.lineStart;
    var i := index + 1;
    ghost var start := Position(index, lineStart, source);
    while i < close
      invariant index + 1 <= i <= close
      invariant Position(index, lineStart, source) == Interior(s, st.pos.index + 1, i, start)
    {
      if s[i] == '\n' {
        source := SourceLocation(source.line + 1, 0);
        index := index + 1;
        lineStart := index;
      } else {
        source := NextColumn(source);
      }
      i := i + 1;
    }
    assert s[close..close + 1] == [s[close]];
    tokens := tokens + [Token(Quote, s[close..close + 1], source)];
    source := NextColumn(source);
    index := close + 1;
    assert st.tokens + [Token(Quote, [q], st.pos.source), Token(Word, s[st.pos.index + 1..close], NextColumn(st.pos.source)), Token(Quote, [s[close]], Interior(s, st.pos.index + 1, close, start).source)] == tokens;
    return 1, LexState(Position(index, lineStart, source), st.escaped, tokens);
  }

  // ---------------------------------------------------------------------
  // get_tokens_from_word

  /** The tokens emitted so far while scanning a word, and where the pending run starts. */
  datatype Scan = Scan(tokens: seq<Token>, start: nat)

  /** The location of a token `offset` characters into a word that starts at
      absolute index `index`: the column is measured from the line start. */
  function At(source: SourceLocation, index: nat, offset: nat, lineStart: nat): SourceLocation
  {
    source.(column := SizeT(index + offset - lineStart))
  }

  /** Scanning one more character `word[i]`: a punctuation character flushes
      the pending run `word[start..i]` as a word (when it is not empty) and
      becomes its own one-character token. */
  function ScanChar(word: string, i: nat, prev: Scan, p: Position): (r: Scan)
    requires prev.start <= i < |word|
    ensures r.start <= i + 1
  {
    var c := word[i];
    if !IsPunct(c) then prev
    else
      var pending := if i > prev.start
                     then [Token(Word, word[prev.start..i], At(p.source, p.index, prev.start, p.lineStart))]
                     else [];
      Scan(prev.tokens + pending + [Token(PunctTokenType(c), [c], At(p.source, p.index, i, p.lineStart))], i + 1)
  }

  /** The scan of `word[..n]` (the loop only gets this far when none of these
      characters is a quote). */
  function WordScan(word: string, n: nat, p: Position): (r: Scan)
    requires n <= |word|
    ensures r.start <= n
  {
    if n == 0 then Scan([], 0) else ScanChar(word, n - 1, WordScan(word, n - 1, p), p)
  }

  /** The index of the first quote in a word. */
  function FirstQuote(word: string, from: nat := 0): (r: Option<nat>)
    ensures r.Some? ==> from <= r.value < |word| && IsQuote(word[r.value])
                        && forall k :: from <= k < r.value ==> !IsQuote(word[k])
    ensures r.None? ==> forall k :: from <= k < |word| ==> !IsQuote(word[k])
    decreases |word| - from
  {
    if from >= |word| then None
    else if IsQuote(word[from]) then Some(from)
    else FirstQuote(word, from + 1)
  }

  /** What `get_tokens_from_word` appends, and the offset it returns (`None`
      for `SIZE_MAX`). On a quote it stops: the pending run before the quote is
      dropped, and the offset of the quote within the word is returned. */
  datatype WordOutcome = WordOutcome(tokens: seq<Token>, skip: Option<nat>)

  function WordTokens(word: string, p: Position): WordOutcome
  {
    match FirstQuote(word)
    case Some(q) => WordOutcome(WordScan(word, q, p).tokens, Some(q))
    case None =>
      var sc := WordScan(word, |word|, p);
      var last := if sc.start < |word|
                  then [Token(Word, word[sc.start..], At(p.source, p.index, sc.start, p.lineStart))]
                  else [];
      WordOutcome(sc.tokens + last, None)
  }

  /** `get_tokens_from_word`, with the word starting at absolute index `p.index`. */
  method GetTokensFromWord(word: string, p: Position) returns (out: seq<Token>, skip: Option<nat>)
    ensures WordTokens(word, p) == WordOutcome(out, skip)
  {
    out := [];
    var start := 0;
    var i := 0;
    while i < |word|
      invariant 0 <= i <= |word|
      invariant forall k :: 0 <= k < i ==> !IsQuote(word[k])
      invariant WordScan(word, i, p) == Scan(out, start)
    {
      if IsQuote(word[i]) {
        assert FirstQuote(word) == Some(i) by { FirstQuoteAt(word, i); }
        return out, Some(i);
      }
      ghost var scanned := ScanChar(word, i, Scan(out, start), p);
      if IsPunct(word[i]) {
        if i > start {
          out := out + [Token(Word, word[start..i], At(p.source, p.index, start, p.lineStart))];
        }
        out := out + [Token(PunctTokenType(word[i]), [word[i]], At(p.source, p.index, i, p.lineStart))];
        start := i + 1;
      }
      assert Scan(out, start) == scanned;
      i := i + 1;
    }
    NoQuote(word);
    if start < |word| {
      out := out + [Token(Word, word[start..], At(p.source, p.index, start, p.lineStart))];
    }
    return out, None;
  }

  lemma NoQuote(word: string)
    requires forall k :: 0 <= k < |word| ==> !IsQuote(word[k])
    ensures FirstQuote(word).None?
  {
  }

  lemma FirstQuoteAt(word: string, i: nat)
    requires i < |word| && IsQuote(word[i])
    requires forall k :: 0 <= k < i ==> !IsQuote(word[k])
    ensures FirstQuote(word) == Some(i)
  {
    assert IsQuote(word[i]);
  }

  // ---------------------------------------------------------------------
  // One iteration of lex's loop

  datatype StepOutcome = Next(next: LexState) | Done(tokens: seq<Token>)

  /** Where the word that starts at `from` ends: the next unescaped whitespace
      after it, or the end of the string. A word that starts at the end of the
      string (the pass stepped over a trailing whitespace) is empty: the
      source searches from one past the end there, which `SearchPastEnd`
      exhibits, and this guard is its correction. */
  function WordEnd(s: string, from: nat): (e: nat)
    requires from <= |s|
    ensures from <= e <= |s|
    ensures from == |s| ==> e == |s|
  {
    if from == |s| then |s|
    else
      match NextWhitespace(s, from + 1)
      case None => |s|
      case Some(w) => w
  }

  /** The word ends at the first unescaped whitespace after its start, or at
      the end of the input when there is none. */
  lemma WordEndIsNextSpace(s: string, from: nat)
    requires from <= |s|
    ensures var e := WordEnd(s, from);
            && (from < e < |s| ==> UnescapedSpace(s, e))
            && (e == |s| || from < e)
            && forall k :: from < k < e ==> !UnescapedSpace(s, k)
  {
  }

  /** Where the word of a pass starts: past the whitespace the pass steps over. */
  function WordStart(s: string, st: LexState): (from: nat)
    requires st.pos.index < |s|
    ensures st.pos.index <= from <= |s|
  {
    if !st.escaped && IsSpace(s[st.pos.index]) then st.pos.index + 1 else st.pos.index
  }

  /** The position src/lexer.cc:260 hands to `find_next_whitespace` in a word
      pass: one after the word's start. */
  function SearchStart(s: string, st: LexState): nat
    requires st.pos.index < |s|
  {
    WordStart(s, st) + 1
  }

  /** The end of a pass of `lex`'s loop when the index is on neither a newline,
      a backslash nor a quote: an unescaped whitespace character is stepped
      over, the text up to the next unescaped whitespace is split into tokens,
      and the index moves on. `fixed` selects how the offset returned by
      `get_tokens_from_word` is used: as written (`fixed == false`) it becomes
      the new index although it counts from the start of the word; corrected,
      it is added to the index where the word starts. */
  function WordStep(s: string, st: LexState, fixed: bool): LexState
    requires st.pos.index < |s|
  {
    var i := st.pos.index;
    var skipSpace := !st.escaped && IsSpace(s[i]);
    var from := WordStart(s, st);
    var source := if skipSpace then st.pos.source.(column := SizeT(from - st.pos.lineStart)) else st.pos.source;
    var end := WordEnd(s, from);
    var out := WordTokens(s[from..end], Position(from, st.pos.lineStart, source));
    var index := match out.skip
                 case None => end
                 case Some(k) => if fixed then from + k else k;
    LexState(Position(index, st.pos.lineStart, source.(column := SizeT(index - st.pos.lineStart))),
             false, st.tokens + out.tokens)
  }

  /** `WordStep` read off its parts. */
  lemma WordStepParts(s: string, st: LexState, fixed: bool, from: nat, source: SourceLocation, end: nat, out: WordOutcome)
    requires st.pos.index < |s| && from == WordStart(s, st)
    requires source == if from == st.pos.index then st.pos.source
                       else st.pos.source.(column := SizeT(from - st.pos.lineStart))
    requires end == WordEnd(s, from)
    requires out == WordTokens(s[from..end], Position(from, st.pos.lineStart, source))
    ensures var index := (match out.skip case None => end case Some(k) => if fixed then from + k else k);
            WordStep(s, st, fixed)
            == LexState(Position(index, st.pos.lineStart, source.(column := SizeT(index - st.pos.lineStart))),
                        false, st.tokens + out.tokens)
  {
  }

  /** One pass of `lex`'s loop body. */
  function Step(s: string, st: LexState, fixed: bool): (r: StepOutcome)
    requires st.pos.index < |s|
  {
    var i := st.pos.index;
    var c := s[i];
    if !st.escaped && c == '\n' then
      Next(LexState(Position(i + 1, i + 1, SourceLocation(st.pos.source.line + 1, 0)), false, st.tokens))
    else if !st.escaped && c == '\\' then
      Next(st.(pos := st.pos.(index := i + 1), escaped := true))
    else
      match StringTokens(s, st)
      case Closed(next) => Next(next)
      case Unclosed(tokens) => Done(tokens)
      case NotQuote => Next(WordStep(s, st, fixed))
  }

  /** The word part of a pass of `lex` as written (src/lexer.cc, the loop's tail). */
  method ScanWord(s: string, st: LexState) returns (next: LexState)
    requires st.pos.index < |s|
    ensures next == WordStep(s, st, false)
  {
    var index: nat := st.pos.index;
    var lineStart := st.pos.lineStart;
    var source := st.pos.source;
    if !st.escaped && IsSpace(s[index]) {
      index := index + 1;
      source := source.(column := SizeT(index - lineStart));
    }
    ghost var from, start := index, source;
    assert index == WordStart(s, st);
    var end := |s|;
    if index < |s| {
      // at the end of the string the source searches past it (`SearchPastEnd`)
      var nextWhitespace := FindNextWhitespace(s, index + 1);
      if nextWhitespace.Some? {
        end := nextWhitespace.value;
      }
    }
    assert end == WordEnd(s, index);
    var word := s[index..end];
    var out, skip := GetTokensFromWord(word, Position(index, lineStart, source));
    WordStepParts(s, st, false, from, start, end, WordOutcome(out, skip));
    if skip.Some? {
      index := skip.value;
    } else {
      index := end;
    }
    source := source.(column := SizeT(index - lineStart));
    next := LexState(Position(index, lineStart, source), false, st.tokens + out);
  }

  /** `lex`'s loop run for at most `fuel` iterations; `None` when the fuel runs
      out before the loop exits. */
  function Run(s: string, st: LexState, fuel: nat, fixed: bool): Option<seq<Token>>
    decreases fuel
  {
    if st.pos.index >= |s| then Some(st.tokens)
    else if fuel == 0 then None
    else match Step(s, st, fixed)
         case Done(tokens) => Some(tokens)
         case Next(next) => Run(s, next, fuel - 1, fixed)
  }

  /** `lex` as written, bounded by `fuel` iterations of its loop. */
  method Lex(s: string, fuel: nat) returns (r: Option<seq<Token>>)
    ensures r == Run(s, Initial(), fuel, false)
  {
    var index: nat, lineStart: nat, source, escaped, tokens := 0, 0, SourceLocation(0, 0), false, [];
    var remaining := fuel;
    while index < |s|
      invariant Run(s, LexState(Position(index, lineStart, source), escaped, tokens), remaining, false)
             == Run(s, Initial(), fuel, false)
      decreases remaining
    {
      if remaining == 0 {
        return None;
      }
      var st := LexState(Position(index, lineStart, source), escaped, tokens);
      remaining := remaining - 1;
      var c := s[index];
      if !escaped && c == '\n' {
        source := SourceLocation(source.line + 1, 0);
        index := index + 1;
        lineStart := index;
        RunNext(s, st, LexState(Position(index, lineStart, source), escaped, tokens), remaining);
        continue;
      }
      if !escaped && c == '\\' {
        escaped := true;
        index := index + 1;
        RunNext(s, st, LexState(Position(index, lineStart, source), escaped, tokens), remaining);
        continue;
      }
      var res, next := GetTokensFromString(s, st);
      if res == 2 {
        return Some(next.tokens);
      }
      if res == 0 {
        next := ScanWord(s, st);
      }
      RunNext(s, st, next, remaining);
      index, lineStart, source, escaped, tokens := next.pos.index, next.pos.lineStart, next.pos.source, next.escaped, next.tokens;
    }
    return Some(tokens);
  }

  lemma RunNext(s: string, st: LexState, next: LexState, fuel: nat, fixed: bool := false)
    requires st.pos.index < |s| && Step(s, st, fixed) == Next(next)
    ensures Run(s, st, fuel + 1, fixed) == Run(s, next, fuel, fixed)
  {
  }

  // ---------------------------------------------------------------------
  // Properties

  /** An unescaped newline ends the line: the line number grows by one, the
      column restarts at 0 and the line starts at the following index. */
  lemma NewlineStartsLine(s: string, st: LexState, fixed: bool)
    requires st.pos.index < |s| && s[st.pos.index] == '\n' && !st.escaped
    ensures Step(s, st, fixed).Next?
    ensures var p := Step(s, st, fixed).next.pos;
            && p.source == SourceLocation(st.pos.source.line + 1, 0)
            && p.index == p.lineStart == st.pos.index + 1
  {
  }

  /** Running into an unterminated quote ends `lex` with the quote and the rest of the input as one word. */
  lemma UnclosedQuoteEndsLex(s: string, st: LexState, fuel: nat, fixed: bool)
    requires st.pos.index < |s| && IsQuote(s[st.pos.index])
    requires st.escaped || s[st.pos.index] != '\n'
    requires forall k :: st.pos.index < k < |s| ==> s[k] != s[st.pos.index]
    ensures Run(s, st, fuel + 1, fixed)
         == Some(st.tokens + [Token(Quote, [s[st.pos.index]], st.pos.source),
                              Token(Word, s[st.pos.index + 1..], NextColumn(st.pos.source))])
  {
    UnclosedQuote(s, st);
  }

  /** With the offset added to the word's start index, every pass of the loop
      moves the index forward. */
  lemma FixedStepAdvances(s: string, st: LexState)
    requires st.pos.index < |s|
    ensures Step(s, st, true).Next? ==> Step(s, st, true).next.pos.index > st.pos.index
  {
    var i := st.pos.index;
    if !(!st.escaped && (s[i] == '\n' || s[i] == '\\')) && StringTokens(s, st).NotQuote? {
      var skipSpace := !st.escaped && IsSpace(s[i]);
      var from := if skipSpace then i + 1 else i;
      var end := WordEnd(s, from);
      var source := if skipSpace then st.pos.source.(column := SizeT(from - st.pos.lineStart)) else st.pos.source;
      var out := WordTokens(s[from..end], Position(from, st.pos.lineStart, source));
      if !skipSpace && out.skip.Some? {
        assert s[from..end][0] == s[i];
      }
    }
  }

  /** The corrected loop always finishes: it needs no more passes than the
      string has characters. */
  lemma {:induction false} FixedRunTerminates(s: string, st: LexState, fuel: nat)
    requires st.pos.index + fuel >= |s|
    ensures Run(s, st, fuel, true).Some?
    decreases fuel
  {
    if st.pos.index < |s| {
      FixedStepAdvances(s, st);
      match Step(s, st, true)
      case Done(_) =>
      case Next(next) => FixedRunTerminates(s, next, fuel - 1);
    }
  }

  /** The corrected lexer: the loop with the offset made absolute, run until it exits. */
  function LexFixed(s: string): (tokens: seq<Token>)
  {
    FixedRunTerminates(s, Initial(), |s|);
    Run(s, Initial(), |s|, true).value
  }

  /** As written, a word pass searches past the end of the string exactly when
      it steps over an unescaped whitespace that is the string's last character. */
  lemma SearchPastEnd(s: string, st: LexState)
    requires st.pos.index < |s|
    ensures SearchStart(s, st) > |s| <==> st.pos.index == |s| - 1 && !st.escaped && IsSpace(s[|s| - 1])
  {
  }

  /** Corrected: a pass over a trailing unescaped whitespace (not a newline)
      adds no token and moves the index to the end, so lexing stops there. */
  lemma TrailingSpaceEndsWord(s: string, st: LexState, fuel: nat, fixed: bool)
    requires st.pos.index == |s| - 1 && !st.escaped
    requires IsSpace(s[|s| - 1]) && s[|s| - 1] != '\n'
    ensures Step(s, st, fixed)
         == Next(LexState(Position(|s|, st.pos.lineStart, st.pos.source.(column := SizeT(|s| - st.pos.lineStart))),
                          false, st.tokens))
    ensures Run(s, st, fuel + 1, fixed) == Some(st.tokens)
  {
    var p := Position(|s|, st.pos.lineStart, st.pos.source.(column := SizeT(|s| - st.pos.lineStart)));
    assert StringTokens(s, st).NotQuote?;
    assert WordEnd(s, |s|) == |s|;
    NoQuote(s[|s|..]);
    assert WordTokens(s[|s|..|s|], p) == WordOutcome([], None);
    assert st.tokens + [] == st.tokens;
  }

  const LS_SPACE: string := "ls "

  /** The state of `lex` on `ls ` after its first pass: `ls` emitted, the index on the space. */
  const LS_AT_SPACE: LexState := LexState(Position(2, 0, SourceLocation(0, 2)), false, [Token(Word, "ls", SourceLocation(0, 0))])

  /** As written, `ls ` (what `-- ls ""` joins to) reaches a word pass on the
      trailing space, and that pass searches from index 4 of a 3-character
      string, outside the range `find_next_whitespace` is defined on. */
  lemma LsTrailingSpace(fixed: bool)
    ensures Step(LS_SPACE, Initial(), fixed) == Next(LS_AT_SPACE)
    ensures LS_SPACE[LS_AT_SPACE.pos.index] !in {'\n', '\\'} && StringTokens(LS_SPACE, LS_AT_SPACE).NotQuote?
    ensures SearchStart(LS_SPACE, LS_AT_SPACE) == |LS_SPACE| + 1
  {
    var s := LS_SPACE;
    assert UnescapedSpace(s, 2) by { assert BackslashRun(s, 2) == 0; }
    assert !UnescapedSpace(s, 1);
    assert NextWhitespace(s, 1) == Some(2);
    assert WordEnd(s, 0) == 2;
    assert s[0..2] == "ls";
    NoQuote("ls");
    assert WordScan("ls", 2, Position(0, 0, SourceLocation(0, 0))) == Scan([], 0) by {
      assert WordScan("ls", 1, Position(0, 0, SourceLocation(0, 0))) == Scan([], 0);
    }
    assert StringTokens(s, Initial()).NotQuote?;
  }

  /** Corrected, `ls ` lexes to the single word `ls`. */
  lemma LsTrailingSpaceFixed()
    ensures LexFixed(LS_SPACE) == [Token(Word, "ls", SourceLocation(0, 0))]
  {
    LsTrailingSpace(true);
    RunNext(LS_SPACE, Initial(), LS_AT_SPACE, 2, true);
    TrailingSpaceEndsWord(LS_SPACE, LS_AT_SPACE, 1, true);
  }

  /** The texts of a run of tokens, concatenated. */
  function Concat(tokens: seq<Token>): string
  {
    if tokens == [] then [] else Concat(tokens[..|tokens| - 1]) + tokens[|tokens| - 1].data
  }

  lemma {:induction false} ConcatAppend(a: seq<Token>, b: seq<Token>)
    ensures Concat(a + b) == Concat(a) + Concat(b)
    decreases |b|
  {
    if b != [] {
      var n := |b| - 1;
      assert (a + b)[..|a + b| - 1] == a + b[..n];
      assert (a + b)[|a + b| - 1] == b[n];
      ConcatAppend(a, b[..n]);
      calc {
        Concat(a + b);
        Concat(a + b[..n]) + b[n].data;
        Concat(a) + Concat(b[..n]) + b[n].data;
        Concat(a) + (Concat(b[..n]) + b[n].data);
        Concat(a) + Concat(b);
      }
    } else {
      assert a + b == a;
    }
  }

  /** A token cut from a word: a non-empty run without punctuation, or a single
      punctuation character whose kind is `get_punct_token_type`'s. */
  predicate WordPiece(t: Token)
  {
    if t.kind == Word then |t.data| > 0 && forall k :: 0 <= k < |t.data| ==> !IsPunct(t.data[k])
    else |t.data| == 1 && IsPunct(t.data[0]) && t.kind == PunctTokenType(t.data[0])
  }

  /** Each token sits where its text starts: its column is the word's index
      plus the length of the text before it, less the line start. */
  predicate Placed(tokens: seq<Token>, p: Position)
  {
    forall k :: 0 <= k < |tokens| ==> tokens[k].source == At(p.source, p.index, |Concat(tokens[..k])|, p.lineStart)
  }

  lemma PlacedSnoc(tokens: seq<Token>, t: Token, p: Position)
    requires Placed(tokens, p)
    requires t.source == At(p.source, p.index, |Concat(tokens)|, p.lineStart)
    ensures Placed(tokens + [t], p)
  {
    var ts := tokens + [t];
    forall k | 0 <= k < |ts|
      ensures ts[k].source == At(p.source, p.index, |Concat(ts[..k])|, p.lineStart)
    {
      if k < |tokens| {
        assert ts[..k] == tokens[..k];
      } else {
        assert ts[..k] == tokens;
      }
    }
  }

  /** The tokens so far cover `word[..upto]` with pieces, each at its place. */
  predicate Covers(word: string, tokens: seq<Token>, upto: nat, p: Position)
  {
    && upto <= |word|
    && Concat(tokens) == word[..upto]
    && (forall k :: 0 <= k < |tokens| ==> WordPiece(tokens[k]))
    && Placed(tokens, p)
  }

  lemma AppendPiece(word: string, tokens: seq<Token>, lo: nat, hi: nat, t: Token, p: Position)
    requires Covers(word, tokens, lo, p) && lo <= hi <= |word|
    requires WordPiece(t) && t.data == word[lo..hi] && t.source == At(p.source, p.index, lo, p.lineStart)
    ensures Covers(word, tokens + [t], hi, p)
  {
    PlacedSnoc(tokens, t, p);
    ConcatAppend(tokens, [t]);
    assert Concat([t]) == t.data by { assert [t][..0] == []; }
    assert word[..lo] + word[lo..hi] == word[..hi];
    var ts := tokens + [t];
    assert forall k :: 0 <= k < |ts| ==> ts[k] == t || ts[k] == tokens[k];
  }

  /** A scan step keeps the cover, and leaves no punctuation in the pending run. */
  lemma ScanCharCovers(word: string, i: nat, prev: Scan, p: Position)
    requires prev.start <= i < |word|
    requires Covers(word, prev.tokens, prev.start, p)
    requires forall k :: prev.start <= k < i ==> !IsPunct(word[k])
    ensures var sc := ScanChar(word, i, prev, p);
            && Covers(word, sc.tokens, sc.start, p)
            && forall k :: sc.start <= k < i + 1 ==> !IsPunct(word[k])
  {
    var c := word[i];
    if IsPunct(c) {
      var mid := prev.tokens;
      if i > prev.start {
        var w := Token(Word, word[prev.start..i], At(p.source, p.index, prev.start, p.lineStart));
        AppendPiece(word, prev.tokens, prev.start, i, w, p);
        mid := prev.tokens + [w];
      } else {
        assert prev.tokens + [] == prev.tokens;
      }
      var t := Token(PunctTokenType(c), [c], At(p.source, p.index, i, p.lineStart));
      assert word[i..i + 1] == [c];
      AppendPiece(word, mid, i, i + 1, t, p);
    }
  }

  /** What a scan of `word[..n]` has produced: pieces covering `word[..start]`,
      each at its place, and no punctuation in the pending run `word[start..n]`. */
  lemma {:induction false} WordScanCovers(word: string, n: nat, p: Position)
    requires n <= |word|
    ensures var sc := WordScan(word, n, p);
            && Covers(word, sc.tokens, sc.start, p)
            && (forall k :: sc.start <= k < n ==> !IsPunct(word[k]))
    decreases n
  {
    if n > 0 {
      WordScanCovers(word, n - 1, p);
      ScanCharCovers(word, n - 1, WordScan(word, n - 1, p), p);
    } else {
      assert Concat([]) == word[..0];
    }
  }

  /** Within a word without quotes, the tokens cover the word exactly: every
      punctuation character is a one-character token of its own kind, the runs
      between them are words, no word is empty, and each token's column is its
      absolute index less the line start. */
  lemma WordTokensPartition(word: string, p: Position)
    requires FirstQuote(word).None?
    ensures var out := WordTokens(word, p).tokens;
            && Concat(out) == word
            && (forall k :: 0 <= k < |out| ==> WordPiece(out[k]))
            && Placed(out, p)
    ensures WordTokens(word, p).skip.None?
  {
    WordScanCovers(word, |word|, p);
    var sc := WordScan(word, |word|, p);
    if sc.start < |word| {
      var w := Token(Word, word[sc.start..], At(p.source, p.index, sc.start, p.lineStart));
      AppendPiece(word, sc.tokens, sc.start, |word|, w, p);
    } else {
      assert sc.tokens + [] == sc.tokens;
    }
    assert word[..|word|] == word;
  }

  // ---------------------------------------------------------------------
  // The word-relative offset used as an absolute index

  const ECHO_QUOTED: string := "echo \"hi\""

  /** The state at the start of `echo "hi"` with `tokens` already emitted. */
  function EchoStart(tokens: seq<Token>): LexState
  {
    LexState(Position(0, 0, SourceLocation(0, 0)), false, tokens)
  }

  lemma EchoWhitespace()
    ensures NextWhitespace(ECHO_QUOTED, 1) == Some(4)
    ensures NextWhitespace(ECHO_QUOTED, 6) == None
  {
    var s := ECHO_QUOTED;
    assert !UnescapedSpace(s, 1) && !UnescapedSpace(s, 2) && !UnescapedSpace(s, 3);
    assert BackslashRun(s, 4) == 0;
    assert NextWhitespace(s, 1) == NextWhitespace(s, 4);
    assert !UnescapedSpace(s, 6) && !UnescapedSpace(s, 7) && !UnescapedSpace(s, 8);
  }

  lemma EchoWord(p: Position)
    ensures WordTokens("echo", p) == WordOutcome([Token(Word, "echo", At(p.source, p.index, 0, p.lineStart))], None)
  {
    NoQuote("echo");
    assert WordScan("echo", 4, p) == Scan([], 0) by {
      assert WordScan("echo", 1, p) == Scan([], 0);
      assert WordScan("echo", 2, p) == Scan([], 0);
      assert WordScan("echo", 3, p) == Scan([], 0);
    }
  }

  lemma QuotedWord(p: Position)
    ensures WordTokens("\"hi\"", p) == WordOutcome([], Some(0))
  {
    assert FirstQuote("\"hi\"") == Some(0);
  }

  /** The first pass over `echo "hi"` emits `echo` and stops at the space. */
  lemma EchoFirstPass(tokens: seq<Token>, fixed: bool)
    ensures Step(ECHO_QUOTED, EchoStart(tokens), fixed)
         == Next(LexState(Position(4, 0, SourceLocation(0, 4)), false, tokens + [Token(Word, "echo", SourceLocation(0, 0))]))
  {
    var s := ECHO_QUOTED;
    var st := EchoStart(tokens);
    EchoWhitespace();
    assert WordEnd(s, 0) == 4;
    assert s[0..4] == "echo";
    EchoWord(Position(0, 0, SourceLocation(0, 0)));
    assert StringTokens(s, st).NotQuote?;
  }

  /** The second pass steps over the space and meets the quote at offset 0 of
      the word `"hi"`: as written the index becomes 0, corrected it becomes 5. */
  lemma EchoSecondPass(tokens: seq<Token>, fixed: bool)
    ensures Step(ECHO_QUOTED, LexState(Position(4, 0, SourceLocation(0, 4)), false, tokens), fixed)
         == Next(LexState(Position(if fixed then 5 else 0, 0, SourceLocation(0, if fixed then 5 else 0)), false, tokens))
  {
    var s := ECHO_QUOTED;
    var st := LexState(Position(4, 0, SourceLocation(0, 4)), false, tokens);
    EchoWhitespace();
    assert WordEnd(s, 5) == 9;
    assert s[5..9] == "\"hi\"";
    QuotedWord(Position(5, 0, SourceLocation(0, 5)));
    assert StringTokens(s, st).NotQuote?;
    assert tokens + [] == tokens;
  }

  /** `lex` as written never finishes on `echo "hi"`: no amount of fuel is enough. */
  lemma {:induction false} EchoQuotedDiverges(tokens: seq<Token>, fuel: nat)
    ensures Run(ECHO_QUOTED, EchoStart(tokens), fuel, false).None?
    decreases fuel
  {
    var echo := tokens + [Token(Word, "echo", SourceLocation(0, 0))];
    EchoFirstPass(tokens, false);
    EchoSecondPass(echo, false);
    if fuel >= 2 {
      EchoQuotedDiverges(echo, fuel - 2);
    }
  }

  /** The corrected pass over the quoted word. */
  lemma EchoThirdPass(tokens: seq<Token>)
    ensures Step(ECHO_QUOTED, LexState(Position(5, 0, SourceLocation(0, 5)), false, tokens), true)
         == Next(LexState(Position(9, 0, SourceLocation(0, 9)), false,
                          tokens + [Token(Quote, "\"", SourceLocation(0, 5)), Token(Word, "hi", SourceLocation(0, 6)),
                                    Token(Quote, "\"", SourceLocation(0, 8))]))
  {
    var s := ECHO_QUOTED;
    assert FindFrom(s, '"', 6) == Some(8);
    var p0 := Position(5, 0, SourceLocation(0, 6));
    assert Interior(s, 6, 8, p0) == Position(5, 0, SourceLocation(0, 8)) by {
      assert Interior(s, 6, 7, p0) == Position(5, 0, SourceLocation(0, 7));
    }
    assert s[6..8] == "hi";
  }

  /** The tokens the corrected lexer gives for `echo "hi"`. */
  const ECHO_QUOTED_TOKENS: seq<Token> :=
    [ Token(Word, "echo", SourceLocation(0, 0)),
      Token(Quote, "\"", SourceLocation(0, 5)),
      Token(Word, "hi", SourceLocation(0, 6)),
      Token(Quote, "\"", SourceLocation(0, 8)) ]

  lemma EchoRunFixed(s: string, fuel: nat)
    requires s == ECHO_QUOTED && fuel == 9
    ensures Run(s, Initial(), fuel, true) == Some(ECHO_QUOTED_TOKENS)
  {
    var echo := [Token(Word, "echo", SourceLocation(0, 0))];
    var at4 := LexState(Position(4, 0, SourceLocation(0, 4)), false, echo);
    var at5 := LexState(Position(5, 0, SourceLocation(0, 5)), false, echo);
    var rest := [Token(Quote, "\"", SourceLocation(0, 5)), Token(Word, "hi", SourceLocation(0, 6)),
                 Token(Quote, "\"", SourceLocation(0, 8))];
    var done := LexState(Position(9, 0, SourceLocation(0, 9)), false, echo + rest);
    assert echo + rest == ECHO_QUOTED_TOKENS;
    EchoFirstPass([], true);
    assert [] + echo == echo;
    RunNext(s, Initial(), at4, fuel - 1, true);
    EchoSecondPass(echo, true);
    RunNext(s, at4, at5, fuel - 2, true);
    EchoThirdPass(echo);
    RunNext(s, at5, done, fuel - 3, true);
  }

  /** The corrected lexer splits `echo "hi"` into the word, the two quotes and
      the quoted word, each at its column. */
  lemma EchoQuotedFixed()
    ensures LexFixed(ECHO_QUOTED) == ECHO_QUOTED_TOKENS
  {
    EchoRunFixed(ECHO_QUOTED, |ECHO_QUOTED|);
  }
}
