/** The token verifier of `src/lexer.cc`: one stack of opening-bracket
    locations per bracket family, and a toggle for quotes. */
module TokenVerifier {
  import opened Wrappers
  import opened Diagnostics
  import opened Tokens
  import opened Lexer

  predicate IsOpener(c: char)
  {
    c == '(' || c == '{' || c == '['
  }

  /** The verifier reads the first character of every bracket token. */
  predicate BracketsHaveText(tokens: seq<Token>)
  {
    forall k :: 0 <= k < |tokens| && tokens[k].kind == Bracket ==> |tokens[k].data| > 0
  }

  /** The verifier's locals: the three stacks, keyed by opener, and the
      pending opening quote, if any. */
  datatype Matching = Matching(stacks: map<char, seq<SourceLocation>>, quote: Option<Token>)

  predicate ValidStacks(m: Matching)
  {
    forall c :: c in m.stacks <==> IsOpener(c)
  }

  function Empty(): (m: Matching)
    ensures ValidStacks(m)
  {
    Matching(map['(' := [], '{' := [], '[' := []], None)
  }

  const LEXER_DOMAIN: string := "cchell::lexer"

  function ExtraClosing(c: char, source: SourceLocation): Diagnostic
  {
    Diagnostic(Error, "extra closing bracket '" + [c] + "' found.", "try removing the '" + [c] + "'.",
               LEXER_DOMAIN, source, 1)
  }

  function UnclosedBracket(open: char, source: SourceLocation): Diagnostic
  {
    Diagnostic(Error, "unclosed bracket '" + [open] + "' found.", "consider adding a closing '" + [open] + "'.",
               LEXER_DOMAIN, source, 1)
  }

  function UnclosedQuote(quote: Token): Diagnostic
  {
    Diagnostic(Error, "unclosed quote " + quote.data + " found.", "consider adding a closing " + quote.data + ".",
               LEXER_DOMAIN, quote.source, 1)
  }

  /** One token: an opener is pushed on its family's stack; a closer pops its
      family's stack, and is an error when that stack is empty or it closes no
      family; a quote token sets or clears the pending quote. */
  function ScanToken(m: Matching, t: Token): (r: Result<Matching, Diagnostic>)
    requires ValidStacks(m)
    requires t.kind == Bracket ==> |t.data| > 0
    ensures r.Ok? ==> ValidStacks(r.value)
  {
    if t.kind == Bracket then
      var c := t.data[0];
      if IsOpener(c) then Ok(m.(stacks := m.stacks[c := m.stacks[c] + [t.source]]))
      else
        var open := MatchingOpen(c);
        if open == '\0' || m.stacks[open] == [] then Err(ExtraClosing(c, t.source))
        else Ok(m.(stacks := m.stacks[open := m.stacks[open][..|m.stacks[open]| - 1]]))
    else if t.kind == Quote then
      Ok(m.(quote := if m.quote.None? then Some(t) else None))
    else Ok(m)
  }

  /** The loop over all tokens, stopping at the first error. */
  function ScanAll(tokens: seq<Token>): (r: Result<Matching, Diagnostic>)
    requires BracketsHaveText(tokens)
    ensures r.Ok? ==> ValidStacks(r.value)
  {
    if tokens == [] then Ok(Empty())
    else
      var n := |tokens| - 1;
      match ScanAll(tokens[..n])
      case Err(d) => Err(d)
      case Ok(m) => ScanToken(m, tokens[n])
  }

  /** The iteration order of the `unordered_map` of stacks: the three openers,
      each once, in an order the model leaves open. */
  predicate IsFamilyOrder(order: seq<char>)
  {
    && |order| == 3
    && (forall k :: 0 <= k < 3 ==> IsOpener(order[k]))
    && order[0] != order[1] && order[1] != order[2] && order[0] != order[2]
  }

  /** The checks after the loop: the first family (in `order`) whose stack is not
      empty is reported at its top, then a pending quote. */
  function EndCheck(m: Matching, order: seq<char>, from: nat := 0): Option<Diagnostic>
    requires ValidStacks(m) && IsFamilyOrder(order) && from <= 3
    decreases 3 - from
  {
    if from == 3 then
      match m.quote
      case None => None
      case Some(q) => Some(UnclosedQuote(q))
    else
      var open := order[from];
      var stack := m.stacks[open];
      if stack != [] then Some(UnclosedBracket(open, stack[|stack| - 1]))
      else EndCheck(m, order, from + 1)
  }

  /** `verifier::operator()`. */
  function Verdict(tokens: seq<Token>, order: seq<char>): Option<Diagnostic>
    requires BracketsHaveText(tokens) && IsFamilyOrder(order)
  {
    match ScanAll(tokens)
    case Err(d) => Some(d)
    case Ok(m) => EndCheck(m, order)
  }

  /** `verifier::operator()` as the source runs it: the stacks and the quote
      toggle updated token by token, then the end-of-input checks. */
  method Verify(tokens: seq<Token>, order: seq<char>) returns (r: Option<Diagnostic>)
    requires BracketsHaveText(tokens) && IsFamilyOrder(order)
    ensures r == Verdict(tokens, order)
  {
    var bracket: map<char, seq<SourceLocation>> := map['(' := [], '{' := [], '[' := []];
    var quote: Option<Token> := None;
    var i := 0;
    while i < |tokens|
      invariant 0 <= i <= |tokens|
      invariant BracketsHaveText(tokens[..i])
      invariant ScanAll(tokens[..i]) == Ok(Matching(bracket, quote))
    {
      var token := tokens[i];
      ScanAllNext(tokens, i);
      if token.kind == Bracket {
        var c := token.data[0];
        if IsOpener(c) {
          bracket := bracket[c := bracket[c] + [token.source]];
        } else {
          var open := MatchingOpen(c);
          if open == '\0' || bracket[open] == [] {
            var b := new DiagnosticBuilder(Error);
            b.Domain(LEXER_DOMAIN);
            b.Message("extra closing bracket '" + [c] + "' found.");
            b.Annotation("try removing the '" + [c] + "'.");
            b.Source(token.source);
            var d := b.Build();
            ScanAllStops(tokens, i + 1);
            return Some(d);
          }
          bracket := bracket[open := bracket[open][..|bracket[open]| - 1]];
        }
      } else if token.kind == Quote {
        if quote.None? {
          quote := Some(token);
        } else {
          quote := None;
        }
      }
      i := i + 1;
    }
    assert tokens[..|tokens|] == tokens;
    r := CheckEnd(Matching(bracket, quote), order);
  }

  /** The checks after `verifier::operator()`'s loop. */
  method CheckEnd(m: Matching, order: seq<char>) returns (r: Option<Diagnostic>)
    requires ValidStacks(m) && IsFamilyOrder(order)
    ensures r == EndCheck(m, order)
  {
    var k := 0;
    while k < 3
      invariant 0 <= k <= 3
      invariant EndCheck(m, order) == EndCheck(m, order, k)
    {
      var open := order[k];
      var stack := m.stacks[open];
      if stack != [] {
        var d := BuildError(LEXER_DOMAIN, "unclosed bracket '" + [open] + "' found.",
                            "consider adding a closing '" + [open] + "'.", stack[|stack| - 1], 1);
        return Some(d);
      }
      k := k + 1;
    }
    if m.quote.Some? {
      var d := BuildError(LEXER_DOMAIN, "unclosed quote " + m.quote.value.data + " found.",
                          "consider adding a closing " + m.quote.value.data + ".", m.quote.value.source, 1);
      return Some(d);
    }
    return None;
  }

  lemma ScanAllNext(tokens: seq<Token>, i: nat)
    requires BracketsHaveText(tokens) && i < |tokens|
    ensures BracketsHaveText(tokens[..i]) && BracketsHaveText(tokens[..i + 1])
    ensures ScanAll(tokens[..i + 1])
         == match ScanAll(tokens[..i])
            case Err(d) => Err(d)
            case Ok(m) => ScanToken(m, tokens[i])
  {
    assert tokens[..i + 1][..i] == tokens[..i];
  }

  /** Once the loop has met an error, the verdict is that error. */
  lemma {:induction false} ScanAllStops(tokens: seq<Token>, n: nat)
    requires BracketsHaveText(tokens) && n <= |tokens|
    requires ScanAll(tokens[..n]).Err?
    ensures ScanAll(tokens) == ScanAll(tokens[..n])
    decreases |tokens| - n
  {
    if n < |tokens| {
      assert tokens[..n + 1][..n] == tokens[..n];
      assert BracketsHaveText(tokens[..n + 1]);
      ScanAllStops(tokens, n + 1);
    } else {
      assert tokens[..n] == tokens;
    }
  }

  // ---------------------------------------------------------------------
  // A counting characterisation

  /** A bracket token whose first character is `c`. */
  predicate BracketOf(t: Token, c: char)
  {
    t.kind == Bracket && |t.data| > 0 && t.data[0] == c
  }

  /** The closer of a family, for an opener. */
  function Closer(o: char): char
  {
    match o
    case '(' => ')'
    case '{' => '}'
    case _ => ']'
  }

  /** How many bracket tokens start with `c`. */
  function CountOf(tokens: seq<Token>, c: char): nat
  {
    if tokens == [] then 0
    else CountOf(tokens[..|tokens| - 1], c) + (if BracketOf(tokens[|tokens| - 1], c) then 1 else 0)
  }

  function QuoteCount(tokens: seq<Token>): nat
  {
    if tokens == [] then 0
    else QuoteCount(tokens[..|tokens| - 1]) + (if tokens[|tokens| - 1].kind == Quote then 1 else 0)
  }

  /** The last quote token, if any. */
  function LastQuote(tokens: seq<Token>): Option<Token>
  {
    if tokens == [] then None
    else if tokens[|tokens| - 1].kind == Quote then Some(tokens[|tokens| - 1])
    else LastQuote(tokens[..|tokens| - 1])
  }

  /** A token may follow `before`: unless it is a closing bracket, always; a
      closing bracket must close a family that `before` has opened more often
      than it has closed. */
  predicate MayFollow(before: seq<Token>, t: Token)
    requires t.kind == Bracket ==> |t.data| > 0
  {
    t.kind == Bracket && !IsOpener(t.data[0]) ==>
      var o := MatchingOpen(t.data[0]);
      o != '\0' && CountOf(before, Closer(o)) < CountOf(before, o)
  }

  /** Every token may follow the ones before it: the counting definition of a
      run of tokens that meets no extra closing bracket. */
  predicate Nested(tokens: seq<Token>)
    requires BracketsHaveText(tokens)
  {
    tokens == [] ||
      var n := |tokens| - 1;
      assert BracketsHaveText(tokens[..n]) by { assert forall k :: 0 <= k < n ==> tokens[..n][k] == tokens[k]; }
      Nested(tokens[..n]) && MayFollow(tokens[..n], tokens[n])
  }

  /** How a token moves the depth of family `o`: up for its opener, down for
      its closer. */
  function Delta(t: Token, o: char): int
  {
    if BracketOf(t, o) then 1 else if BracketOf(t, Closer(o)) then -1 else 0
  }

  /** Openers of family `o` minus its closers. */
  function Depth(ts: seq<Token>, o: char): int
  {
    CountOf(ts, o) - CountOf(ts, Closer(o))
  }

  /** The opener at `k` is never closed: every run of tokens starting at it
      holds more openers than closers of its family. */
  predicate UnmatchedAt(ts: seq<Token>, o: char, k: nat)
    requires k < |ts|
  {
    BracketOf(ts[k], o) && forall j :: k < j <= |ts| ==> Depth(ts[k..j], o) > 0
  }

  /** The locations of the unmatched openers of family `o` among the first
      `n` tokens, in order. */
  function OpenLocations(ts: seq<Token>, o: char, n: nat): seq<SourceLocation>
    requires n <= |ts|
  {
    if n == 0 then []
    else OpenLocations(ts, o, n - 1) + (if UnmatchedAt(ts, o, n - 1) then [ts[n - 1].source] else [])
  }

  function Unclosed(ts: seq<Token>, o: char): seq<SourceLocation>
  {
    OpenLocations(ts, o, |ts|)
  }

  /** From each unmatched opener to the end, the depth is the number of
      unmatched openers from that one on. */
  predicate DepthsMatch(ts: seq<Token>, o: char)
  {
    forall k :: 0 <= k < |ts| && UnmatchedAt(ts, o, k) ==>
      Depth(ts[k..], o) == |Unclosed(ts, o)| - |OpenLocations(ts, o, k)|
  }

  /** One family's stack after `tokens`: the locations of its unmatched
      openers, as many as its openers outnumber its closers. */
  predicate FamilyCounted(tokens: seq<Token>, stack: seq<SourceLocation>, o: char)
  {
    && |stack| + CountOf(tokens, Closer(o)) == CountOf(tokens, o)
    && stack == Unclosed(tokens, o)
    && DepthsMatch(tokens, o)
  }

  /** What the stacks and the quote hold after a run of tokens the loop
      accepts: each family's stack is the list of its unmatched openers'
      locations, as long as the family's openers outnumber its closers. */
  predicate Counted(tokens: seq<Token>, m: Matching)
  {
    && ValidStacks(m)
    && (forall o :: IsOpener(o) ==> FamilyCounted(tokens, m.stacks[o], o))
    && (m.quote.Some? <==> QuoteCount(tokens) % 2 == 1)
    && (m.quote.Some? ==> m.quote == LastQuote(tokens))
  }

  lemma CountsSnoc(before: seq<Token>, t: Token)
    ensures forall c :: CountOf(before + [t], c) == CountOf(before, c) + (if BracketOf(t, c) then 1 else 0)
    ensures QuoteCount(before + [t]) == QuoteCount(before) + (if t.kind == Quote then 1 else 0)
    ensures LastQuote(before + [t]) == if t.kind == Quote then Some(t) else LastQuote(before)
  {
    assert (before + [t])[..|before|] == before;
  }

  lemma SegmentSnoc(before: seq<Token>, t: Token, k: nat, o: char)
    requires k <= |before| && IsOpener(o)
    ensures (before + [t])[k..] == before[k..] + [t]
    ensures Depth((before + [t])[k..], o) == Depth(before[k..], o) + Delta(t, o)
  {
    assert (before + [t])[k..] == before[k..] + [t];
    CountsSnoc(before[k..], t);
  }

  /** Adding a token keeps an earlier opener unmatched exactly when it moves
      the depth from that opener on no lower than 1. */
  lemma UnmatchedSnoc(before: seq<Token>, t: Token, o: char, k: nat)
    requires k < |before| && IsOpener(o)
    ensures UnmatchedAt(before + [t], o, k) <==> UnmatchedAt(before, o, k) && Depth(before[k..], o) + Delta(t, o) > 0
  {
    var ts := before + [t];
    SegmentSnoc(before, t, k, o);
    assert ts[k] == before[k];
    assert ts[k..|ts|] == ts[k..];
    assert before[k..|before|] == before[k..];
    forall j | k < j <= |before|
      ensures ts[k..j] == before[k..j]
    {
    }
  }

  /** The new token is an unmatched opener exactly when it opens family `o`. */
  lemma LastUnmatched(before: seq<Token>, t: Token, o: char)
    requires IsOpener(o)
    ensures UnmatchedAt(before + [t], o, |before|) <==> BracketOf(t, o)
  {
    var ts := before + [t];
    assert ts[|before|..|ts|] == [t];
    CountsSnoc([], t);
    assert [] + [t] == [t];
  }

  lemma {:induction false} OpenPrefix(ts: seq<Token>, o: char, n: nat, m: nat)
    requires n <= m <= |ts|
    ensures OpenLocations(ts, o, n) <= OpenLocations(ts, o, m)
    decreases m
  {
    if n < m {
      OpenPrefix(ts, o, n, m - 1);
    }
  }

  /** A token that does not close family `o` leaves its earlier unmatched
      openers as they are. */
  lemma {:induction false} OpenKept(before: seq<Token>, t: Token, o: char, n: nat)
    requires IsOpener(o) && Delta(t, o) >= 0 && n <= |before|
    ensures OpenLocations(before + [t], o, n) == OpenLocations(before, o, n)
  {
    if n > 0 {
      OpenKept(before, t, o, n - 1);
      UnmatchedSnoc(before, t, o, n - 1);
      assert (before + [t])[n - 1] == before[n - 1];
      if UnmatchedAt(before, o, n - 1) {
        assert before[n - 1..|before|] == before[n - 1..];
      }
    }
  }

  /** A closer of family `o` matches the last unmatched opener and no other. */
  lemma {:induction false} OpenDropped(before: seq<Token>, t: Token, o: char, n: nat)
    requires IsOpener(o) && Delta(t, o) == -1 && DepthsMatch(before, o)
    requires |Unclosed(before, o)| > 0 && n <= |before|
    ensures var g := OpenLocations(before, o, n);
            OpenLocations(before + [t], o, n) == if |g| == |Unclosed(before, o)| then g[..|g| - 1] else g
  {
    if n > 0 {
      OpenDropped(before, t, o, n - 1);
      UnmatchedSnoc(before, t, o, n - 1);
      assert (before + [t])[n - 1] == before[n - 1];
      OpenPrefix(before, o, n, |before|);
      OpenPrefix(before, o, n - 1, n);
    }
  }

  /** One token moves family `o`'s unmatched openers as the stack moves:
      pushed by its opener, the last one dropped by its closer, kept by any
      other token. */
  lemma UnclosedStep(before: seq<Token>, t: Token, o: char)
    requires IsOpener(o) && DepthsMatch(before, o)
    requires Delta(t, o) == -1 ==> |Unclosed(before, o)| > 0
    ensures Unclosed(before + [t], o)
         == if Delta(t, o) == 1 then Unclosed(before, o) + [t.source]
            else if Delta(t, o) == -1 then Unclosed(before, o)[..|Unclosed(before, o)| - 1]
            else Unclosed(before, o)
  {
    var n := |before|;
    LastUnmatched(before, t, o);
    assert (before + [t])[n] == t;
    if Delta(t, o) >= 0 {
      OpenKept(before, t, o, n);
    } else {
      OpenDropped(before, t, o, n);
    }
  }

  lemma DepthStep(before: seq<Token>, t: Token, o: char, k: nat)
    requires IsOpener(o) && DepthsMatch(before, o)
    requires Delta(t, o) == -1 ==> |Unclosed(before, o)| > 0
    requires k < |before| + 1 && UnmatchedAt(before + [t], o, k)
    ensures Depth((before + [t])[k..], o) == |Unclosed(before + [t], o)| - |OpenLocations(before + [t], o, k)|
  {
    var ts := before + [t];
    var n := |before|;
    UnclosedStep(before, t, o);
    if k == n {
      LastUnmatched(before, t, o);
      OpenKept(before, t, o, n);
      assert ts[k..] == [t];
      CountsSnoc([], t);
      assert [] + [t] == [t];
    } else {
      UnmatchedSnoc(before, t, o, k);
      SegmentSnoc(before, t, k, o);
      if Delta(t, o) >= 0 {
        OpenKept(before, t, o, k);
      } else {
        OpenDropped(before, t, o, k);
        OpenPrefix(before, o, k, k + 1);
        OpenPrefix(before, o, k + 1, n);
      }
    }
  }

  lemma FamilyStep(before: seq<Token>, t: Token, o: char)
    requires IsOpener(o) && DepthsMatch(before, o)
    requires Delta(t, o) == -1 ==> |Unclosed(before, o)| > 0
    ensures Unclosed(before + [t], o)
         == if Delta(t, o) == 1 then Unclosed(before, o) + [t.source]
            else if Delta(t, o) == -1 then Unclosed(before, o)[..|Unclosed(before, o)| - 1]
            else Unclosed(before, o)
    ensures DepthsMatch(before + [t], o)
  {
    UnclosedStep(before, t, o);
    forall k | 0 <= k < |before + [t]| && UnmatchedAt(before + [t], o, k)
      ensures Depth((before + [t])[k..], o) == |Unclosed(before + [t], o)| - |OpenLocations(before + [t], o, k)|
    {
      DepthStep(before, t, o, k);
    }
  }

  /** A family's stack, moved as the token moves it, stays its unmatched
      openers. */
  lemma FamilyScanned(before: seq<Token>, stack: seq<SourceLocation>, t: Token, o: char, next: seq<SourceLocation>)
    requires IsOpener(o) && FamilyCounted(before, stack, o)
    requires Delta(t, o) == -1 ==> stack != []
    requires next == if Delta(t, o) == 1 then stack + [t.source]
                     else if Delta(t, o) == -1 then stack[..|stack| - 1]
                     else stack
    ensures FamilyCounted(before + [t], next, o)
  {
    CountsSnoc(before, t);
    FamilyStep(before, t, o);
  }

  lemma OpenerCounted(before: seq<Token>, m: Matching, t: Token)
    requires Counted(before, m) && t.kind == Bracket && |t.data| > 0 && IsOpener(t.data[0])
    ensures ScanToken(m, t).Ok? && Counted(before + [t], ScanToken(m, t).value)
  {
    var m2 := ScanToken(m, t).value;
    forall o | IsOpener(o)
      ensures FamilyCounted(before + [t], m2.stacks[o], o)
    {
      assert Delta(t, o) == if o == t.data[0] then 1 else 0;
      FamilyScanned(before, m.stacks[o], t, o, m2.stacks[o]);
    }
    CountsSnoc(before, t);
  }

  lemma CloserCounted(before: seq<Token>, m: Matching, t: Token)
    requires Counted(before, m) && t.kind == Bracket && |t.data| > 0 && !IsOpener(t.data[0])
    ensures ScanToken(m, t).Ok? <==> MayFollow(before, t)
    ensures ScanToken(m, t).Ok? ==> Counted(before + [t], ScanToken(m, t).value)
  {
    CountsSnoc(before, t);
    var c := t.data[0];
    var open := MatchingOpen(c);
    if open != '\0' && m.stacks[open] != [] {
      assert FamilyCounted(before, m.stacks[open], open);
      CloserKeepsFamilies(before, m, t, open);
    } else if open != '\0' {
      assert FamilyCounted(before, m.stacks[open], open);
    }
  }

  lemma CloserKeepsFamilies(before: seq<Token>, m: Matching, t: Token, open: char)
    requires Counted(before, m) && t.kind == Bracket && |t.data| > 0 && !IsOpener(t.data[0])
    requires open == MatchingOpen(t.data[0]) && open != '\0' && m.stacks[open] != []
    ensures ScanToken(m, t).Ok? && Counted(before + [t], ScanToken(m, t).value)
  {
    var m2 := ScanToken(m, t).value;
    assert Closer(open) == t.data[0];
    forall o | IsOpener(o)
      ensures FamilyCounted(before + [t], m2.stacks[o], o)
    {
      assert Delta(t, o) == if o == open then -1 else 0;
      FamilyScanned(before, m.stacks[o], t, o, m2.stacks[o]);
    }
    CountsSnoc(before, t);
  }

  lemma OtherCounted(before: seq<Token>, m: Matching, t: Token)
    requires Counted(before, m) && t.kind != Bracket
    ensures ScanToken(m, t).Ok? && Counted(before + [t], ScanToken(m, t).value)
  {
    CountsSnoc(before, t);
    forall o | IsOpener(o)
      ensures FamilyCounted(before + [t], m.stacks[o], o)
    {
      FamilyScanned(before, m.stacks[o], t, o, m.stacks[o]);
    }
  }

  lemma ScanTokenCounted(before: seq<Token>, m: Matching, t: Token)
    requires Counted(before, m) && (t.kind == Bracket ==> |t.data| > 0)
    ensures ScanToken(m, t).Ok? <==> MayFollow(before, t)
    ensures ScanToken(m, t).Ok? ==> Counted(before + [t], ScanToken(m, t).value)
  {
    if t.kind != Bracket {
      OtherCounted(before, m, t);
    } else if IsOpener(t.data[0]) {
      OpenerCounted(before, m, t);
    } else {
      CloserCounted(before, m, t);
    }
  }

  /** The stack matcher agrees with the counting definition: the loop meets no
      extra closing bracket exactly when the tokens are `Nested`, and then each
      family's stack holds as many locations as there are unclosed openers of
      that family, while a quote is pending exactly when the number of quote
      tokens is odd, and it is then the last quote token. */
  lemma {:induction false} ScanAllCounted(tokens: seq<Token>)
    requires BracketsHaveText(tokens)
    ensures ScanAll(tokens).Ok? <==> Nested(tokens)
    ensures ScanAll(tokens).Ok? ==> Counted(tokens, ScanAll(tokens).value)
    decreases |tokens|
  {
    if tokens != [] {
      var n := |tokens| - 1;
      ScanAllNext(tokens, n);
      assert tokens[..n + 1] == tokens;
      ScanAllCounted(tokens[..n]);
      if ScanAll(tokens[..n]).Ok? {
        ScanTokenCounted(tokens[..n], ScanAll(tokens[..n]).value, tokens[n]);
        assert tokens[..n] + [tokens[n]] == tokens;
      }
    } else {
      assert Counted([], Empty());
    }
  }

  /** An error from the loop is the extra-closing diagnostic of the first
      closing bracket that may not follow the tokens before it. */
  lemma {:induction false} ScanAllError(tokens: seq<Token>)
    requires BracketsHaveText(tokens) && ScanAll(tokens).Err?
    ensures exists k :: 0 <= k < |tokens| && BracketsHaveText(tokens[..k]) && Nested(tokens[..k])
                        && tokens[k].kind == Bracket && |tokens[k].data| > 0 && !MayFollow(tokens[..k], tokens[k])
                        && ScanAll(tokens).error == ExtraClosing(tokens[k].data[0], tokens[k].source)
    decreases |tokens|
  {
    var n := |tokens| - 1;
    ScanAllNext(tokens, n);
    assert tokens[..n + 1] == tokens;
    assert tokens[..n][..n] == tokens[..n];
    if ScanAll(tokens[..n]).Err? {
      ScanAllError(tokens[..n]);
      var k :| 0 <= k < n && BracketsHaveText(tokens[..n][..k]) && Nested(tokens[..n][..k])
               && tokens[..n][k].kind == Bracket && |tokens[..n][k].data| > 0 && !MayFollow(tokens[..n][..k], tokens[..n][k])
               && ScanAll(tokens[..n]).error == ExtraClosing(tokens[..n][k].data[0], tokens[..n][k].source);
      assert tokens[..n][..k] == tokens[..k];
    } else {
      ScanAllCounted(tokens[..n]);
      ScanTokenCounted(tokens[..n], ScanAll(tokens[..n]).value, tokens[n]);
    }
  }

  lemma {:induction false} EndCheckNone(m: Matching, order: seq<char>, from: nat)
    requires ValidStacks(m) && IsFamilyOrder(order) && from <= 3
    ensures EndCheck(m, order, from).None? <==>
              (forall k :: from <= k < 3 ==> m.stacks[order[k]] == []) && m.quote.None?
    decreases 3 - from
  {
    if from < 3 {
      EndCheckNone(m, order, from + 1);
    }
  }

  /** The verifier reports nothing exactly when no closing bracket is extra,
      every family has as many closers as openers, and the quote tokens pair
      up. */
  lemma VerdictNone(tokens: seq<Token>, order: seq<char>)
    requires BracketsHaveText(tokens) && IsFamilyOrder(order)
    ensures Verdict(tokens, order).None? <==>
              && Nested(tokens)
              && (forall o :: IsOpener(o) ==> CountOf(tokens, Closer(o)) == CountOf(tokens, o))
              && QuoteCount(tokens) % 2 == 0
  {
    ScanAllCounted(tokens);
    if ScanAll(tokens).Ok? {
      var m := ScanAll(tokens).value;
      EndCheckNone(m, order, 0);
      assert forall o :: IsOpener(o) ==> o == order[0] || o == order[1] || o == order[2];
    }
  }

  /** The last location listed is the latest unmatched opener's. */
  lemma {:induction false} LastOpen(ts: seq<Token>, o: char, n: nat)
    requires n <= |ts| && OpenLocations(ts, o, n) != []
    ensures exists k :: 0 <= k < n && UnmatchedAt(ts, o, k)
                        && OpenLocations(ts, o, n)[|OpenLocations(ts, o, n)| - 1] == ts[k].source
                        && forall j :: k < j < n ==> !UnmatchedAt(ts, o, j)
  {
    var prev := OpenLocations(ts, o, n - 1);
    if UnmatchedAt(ts, o, n - 1) {
      assert OpenLocations(ts, o, n) == prev + [ts[n - 1].source];
    } else {
      assert OpenLocations(ts, o, n) == prev;
      LastOpen(ts, o, n - 1);
      var k :| 0 <= k < n - 1 && UnmatchedAt(ts, o, k)
               && prev[|prev| - 1] == ts[k].source
               && forall j :: k < j < n - 1 ==> !UnmatchedAt(ts, o, j);
      assert forall j :: k < j < n ==> !UnmatchedAt(ts, o, j);
    }
  }

  /** Families whose stacks are empty are passed over by the end checks. */
  lemma {:induction false} EndCheckSkip(m: Matching, order: seq<char>, from: nat, f: nat)
    requires ValidStacks(m) && IsFamilyOrder(order) && from <= f <= 3
    requires forall g :: from <= g < f ==> m.stacks[order[g]] == []
    ensures EndCheck(m, order, from) == EndCheck(m, order, f)
    decreases f - from
  {
    if from < f {
      EndCheckSkip(m, order, from + 1, f);
    }
  }

  /** The end checks report the first family in `order` with a non-empty
      stack, at its top. */
  lemma EndCheckFirst(m: Matching, order: seq<char>, f: nat)
    requires ValidStacks(m) && IsFamilyOrder(order) && f < 3
    requires forall g :: 0 <= g < f ==> m.stacks[order[g]] == []
    requires m.stacks[order[f]] != []
    ensures EndCheck(m, order) == Some(UnclosedBracket(order[f], m.stacks[order[f]][|m.stacks[order[f]]| - 1]))
  {
    EndCheckSkip(m, order, 0, f);
  }

  /** With no extra closer, the first family in `order` whose openers outnumber
      its closers is reported at the last of its unmatched openers. */
  lemma VerdictLastOpen(tokens: seq<Token>, order: seq<char>, f: nat)
    requires BracketsHaveText(tokens) && IsFamilyOrder(order) && Nested(tokens) && f < 3
    requires forall g :: 0 <= g < f ==> CountOf(tokens, Closer(order[g])) == CountOf(tokens, order[g])
    requires CountOf(tokens, Closer(order[f])) < CountOf(tokens, order[f])
    ensures Unclosed(tokens, order[f]) != []
    ensures Verdict(tokens, order)
         == Some(UnclosedBracket(order[f], Unclosed(tokens, order[f])[|Unclosed(tokens, order[f])| - 1]))
  {
    ScanAllCounted(tokens);
    var m := ScanAll(tokens).value;
    assert FamilyCounted(tokens, m.stacks[order[f]], order[f]);
    forall g | 0 <= g < f
      ensures m.stacks[order[g]] == []
    {
      assert FamilyCounted(tokens, m.stacks[order[g]], order[g]);
    }
    EndCheckFirst(m, order, f);
    assert Verdict(tokens, order) == EndCheck(m, order);
  }

  /** ... and that opener is the latest unmatched one. */
  lemma VerdictUnclosed(tokens: seq<Token>, order: seq<char>, f: nat)
    requires BracketsHaveText(tokens) && IsFamilyOrder(order) && Nested(tokens) && f < 3
    requires forall g :: 0 <= g < f ==> CountOf(tokens, Closer(order[g])) == CountOf(tokens, order[g])
    requires CountOf(tokens, Closer(order[f])) < CountOf(tokens, order[f])
    ensures exists k :: 0 <= k < |tokens| && UnmatchedAt(tokens, order[f], k)
                        && (forall j :: k < j < |tokens| ==> !UnmatchedAt(tokens, order[f], j))
                        && Verdict(tokens, order) == Some(UnclosedBracket(order[f], tokens[k].source))
  {
    VerdictLastOpen(tokens, order, f);
    LastOpen(tokens, order[f], |tokens|);
  }

  /** The tokens `(`, `[`, `)`, `]`, with any locations. */
  predicate Crossed(ts: seq<Token>)
  {
    && |ts| == 4 && (forall k :: 0 <= k < 4 ==> ts[k].kind == Bracket)
    && ts[0].data == "(" && ts[1].data == "[" && ts[2].data == ")" && ts[3].data == "]"
  }

  lemma CrossedOpen(ts: seq<Token>)
    requires Crossed(ts)
    ensures BracketsHaveText(ts[..2]) && ScanAll(ts[..2]).Ok?
    ensures var m := ScanAll(ts[..2]).value;
      m.stacks['('] == [ts[0].source] && m.stacks['['] == [ts[1].source] && m.stacks['{'] == [] && m.quote.None?
  {
    assert ts[..0] == [];
    ScanAllNext(ts, 0);
    ScanAllNext(ts, 1);
  }

  lemma CrossedParen(ts: seq<Token>)
    requires Crossed(ts)
    ensures BracketsHaveText(ts[..3]) && ScanAll(ts[..3]).Ok?
    ensures var m := ScanAll(ts[..3]).value;
      m.stacks['('] == [] && m.stacks['['] == [ts[1].source] && m.stacks['{'] == [] && m.quote.None?
  {
    CrossedOpen(ts);
    ScanAllNext(ts, 2);
    assert ts[2].data[0] == ')';
  }

  lemma CrossedClose(ts: seq<Token>)
    requires Crossed(ts)
    ensures BracketsHaveText(ts) && ScanAll(ts).Ok?
    ensures forall o :: IsOpener(o) ==> ScanAll(ts).value.stacks[o] == []
    ensures ScanAll(ts).value.quote.None?
  {
    CrossedParen(ts);
    ScanAllNext(ts, 3);
    assert ts[3].data[0] == ']';
    assert ts[..4] == ts;
  }

  /** The families are independent: `([)]` passes, whatever the order of the
      end-of-input checks. */
  lemma CrossedFamiliesPass(ts: seq<Token>, order: seq<char>)
    requires Crossed(ts) && IsFamilyOrder(order)
    ensures BracketsHaveText(ts) && Verdict(ts, order) == None
  {
    CrossedClose(ts);
    EndCheckNone(ScanAll(ts).value, order, 0);
  }
}
