/** The lexer's vocabulary (`include/lexer.hh`): token kinds, tokens, and the
    way both are printed. */
module Tokens {
  import opened Wrappers
  import opened Text
  import opened Diagnostics

  /** `token_type`; `NoneType` is `token_type::none`, the kind of punctuation
      that is neither a bracket, a pipe nor a dollar sign. */
  datatype TokenType = Word | Bracket | Quote | Pipe | Dollar | NoneType

  /** `token`: the constructor arguments are kept as they are, and the accessors
      `type()`, `data()` and `source()` are the fields `kind`, `data` and `source`. */
  datatype Token = Token(kind: TokenType, data: string, source: SourceLocation)

  const TYPE_PREFIX: string := "token_type::"

  /** `formatter<token_type>`: the qualified enumerator name. */
  function TypeName(k: TokenType): (s: string)
    ensures StartsWith(s, TYPE_PREFIX)
  {
    match k
    case Word => "token_type::word"
    case Bracket => "token_type::bracket"
    case Quote => "token_type::quote"
    case Pipe => "token_type::pipe"
    case Dollar => "token_type::dollar"
    case NoneType => "token_type::none"
  }

  /** The six names are pairwise distinct, so a printed kind identifies the kind. */
  lemma TypeNameInjective(a: TokenType, b: TokenType)
    requires TypeName(a) == TypeName(b)
    ensures a == b
  {
    var sa, sb := TypeName(a), TypeName(b);
    assert sa[12] == sb[12] && sa[13] == sb[13];
  }

  /** What `std::quoted` writes between its delimiters: `"` and `\` are preceded
      by a backslash, every other character is copied. */
  function Escape(s: string): (r: string)
    ensures |r| >= |s|
  {
    if s == [] then []
    else (if s[0] == '"' || s[0] == '\\' then ['\\', s[0]] else [s[0]]) + Escape(s[1..])
  }

  /** `std::quoted(s)` written to a stream. */
  function Quoted(s: string): (r: string)
    ensures |r| >= 2 && r[0] == '"' && r[|r| - 1] == '"'
  {
    "\"" + Escape(s) + "\""
  }

  /** Reads an escaped body up to its closing `"`, which must end the text. */
  function Unescape(t: string): Option<string>
    decreases |t|
  {
    if t == [] then None
    else if t[0] == '"' then (if |t| == 1 then Some([]) else None)
    else if t[0] == '\\' then
      (if |t| < 2 then None
       else match Unescape(t[2..])
            case None => None
            case Some(r) => Some([t[1]] + r))
    else
      match Unescape(t[1..])
      case None => None
      case Some(r) => Some([t[0]] + r)
  }

  /** The reading `std::quoted` performs on input: the inverse of `Quoted`. */
  function Unquote(t: string): Option<string>
  {
    if |t| >= 1 && t[0] == '"' then Unescape(t[1..]) else None
  }

  lemma {:induction false} UnescapeEscape(s: string)
    ensures Unescape(Escape(s) + "\"") == Some(s)
    decreases |s|
  {
    if s != [] {
      UnescapeEscape(s[1..]);
      var rest := Escape(s[1..]) + "\"";
      if s[0] == '"' || s[0] == '\\' {
        assert Escape(s) + "\"" == ['\\', s[0]] + rest;
        assert (['\\', s[0]] + rest)[2..] == rest;
      } else {
        assert Escape(s) + "\"" == [s[0]] + rest;
        assert ([s[0]] + rest)[1..] == rest;
      }
      assert [s[0]] + s[1..] == s;
    }
  }

  /** Quoting loses nothing: the quoted text reads back as the original data. */
  lemma QuotedRoundTrip(s: string)
    ensures Unquote(Quoted(s)) == Some(s)
  {
    UnescapeEscape(s);
    assert Quoted(s)[1..] == Escape(s) + "\"";
  }

  /** The lines of a printed token, in field order. */
  function TokenLines(t: Token): seq<string>
  {
    [ "{",
      "  \"source\": [ " + FormatLocation(t.source) + " ],",
      "  \"data\":   " + Quoted(t.data) + ",",
      "  \"type\":   " + TypeName(t.kind),
      "}" ]
  }

  /** `formatter<token>`: a JSON-like block with the source location, the
      quoted data and the kind, one field per line. */
  function FormatToken(t: Token): string
  {
    Join(TokenLines(t), "\n")
  }

  /** The printed token splits at newlines into exactly its five lines: the
      opening brace, the location as `line:column`, the quoted data (which reads
      back through `Unquote`, see `QuotedRoundTrip`), the kind, and the closing
      brace. */
  lemma FormatTokenFields(t: Token)
    requires '\n' !in t.data
    ensures Split(FormatToken(t), '\n') == TokenLines(t)
  {
    EscapeKeepsNewlines(t.data);
    FormatLocationHasNoNewline(t.source);
    TypeNameHasNoNewline(t.kind);
    var parts := TokenLines(t);
    assert forall k :: 0 <= k < |parts| ==> '\n' !in parts[k];
    SplitJoin(parts, '\n');
  }

  lemma {:induction false} EscapeKeepsNewlines(s: string)
    requires '\n' !in s
    ensures '\n' !in Escape(s)
    decreases |s|
  {
    if s != [] {
      assert s[1..] == s[1..];
      assert forall k :: 0 <= k < |s[1..]| ==> s[1..][k] == s[k + 1];
      EscapeKeepsNewlines(s[1..]);
    }
  }

  lemma FormatLocationHasNoNewline(loc: SourceLocation)
    ensures '\n' !in FormatLocation(loc)
  {
    var a, b := NatToString(loc.line), NatToString(loc.column);
    assert AllDigits(a) && AllDigits(b);
    assert FormatLocation(loc) == a + ":" + b;
    forall k | 0 <= k < |a + ":" + b|
      ensures (a + ":" + b)[k] != '\n'
    {
      if k < |a| { assert IsDigit(a[k]); }
      else if k > |a| { assert IsDigit(b[k - |a| - 1]); }
    }
  }

  lemma TypeNameHasNoNewline(k: TokenType)
    ensures '\n' !in TypeName(k)
  {
  }
}
