/** The assignment classifier (`src/parser/assignment.cc`): a `KEY=VALUE`
    token before the command. */
module AssignmentParser {
  import opened Wrappers
  import opened Text
  import opened Diagnostics
  import opened Tokens
  import opened Ast
  import opened ParserShared

  /** `is_assignment`: a non-empty word whose first character may start an
      option-style identifier (so `-` is allowed there), with at most one `=`,
      and whose other characters are identifier characters without `-`. */
  predicate IsAssignment(data: string)
  {
    && data != []
    && IsIdentifierStart(data[0])
    && Count(data, '=') <= 1
    && forall i :: 1 <= i < |data| ==> IsIdentifierChar(data[i], false)
  }

  /** `impl::assignment`: whether the token was taken, and the parent after
      the call. A taken token becomes one assignment node (with the token's
      source and no data) whose children are the identifier before the `=`
      and the literal after it. */
  function ParseAssignment(token: Token, parent: AstNode): (r: (bool, AstNode))
    ensures r.0 <==> IsAssignment(token.data) && '=' in token.data
    ensures !r.0 ==> r.1 == parent
  {
    if !IsAssignment(token.data) then (false, parent)
    else
      match FindFrom(token.data, '=', 0)
      case None => (false, parent)
      case Some(at) =>
        var root := NewNode().(kind := Assignment).(source := token.source);
        // The source writes this as a call on the location; the evident
        // intent is the token's line with column `at + 1`.
        var valueSource := SourceLocation(token.source.line, at + 1);
        var node := SplitKeyValue(token.data, root, Identifier, Literal, token.source, valueSource);
        (true, parent.(children := parent.children + [node]))
  }

  /** Two occurrences of `c` count twice. */
  lemma {:induction false} CountAtLeastTwo(s: string, c: char, i: nat, j: nat)
    requires i < j < |s| && s[i] == c && s[j] == c
    ensures Count(s, c) >= 2
    decreases |s|
  {
    if i == 0 {
      assert s[1..][j - 1] == c;
    } else {
      CountAtLeastTwo(s[1..], c, i - 1, j - 1);
    }
  }

  /** What a taken assignment adds: exactly one node after the parent's
      existing children, holding the identifier and the literal that, joined
      by `=`, give back the token's text; neither holds an `=`, and the
      literal's column is just past the `=`. */
  lemma AssignmentNode(token: Token, parent: AstNode)
    requires ParseAssignment(token, parent).0
    ensures var after := ParseAssignment(token, parent).1;
      && after.kind == parent.kind && after.data == parent.data && after.source == parent.source
      && |after.children| == |parent.children| + 1
      && after.children[..|parent.children|] == parent.children
      && var node := after.children[|parent.children|];
         && node.kind == Assignment && node.data == [] && node.source == token.source
         && |node.children| == 2
         && var key := node.children[0];
            var value := node.children[1];
            && key.kind == Identifier && key.source == token.source
            && value.kind == Literal && value.source == SourceLocation(token.source.line, |key.data| + 1)
            && key.data + "=" + value.data == token.data
            && '=' !in key.data && '=' !in value.data
  {
    var data := token.data;
    var at := FindFrom(data, '=', 0).value;
    var node := ParseAssignment(token, parent).1.children[|parent.children|];
    var key, value := node.children[0], node.children[1];
    assert key.data == data[..at];
    assert value.data == data[at + 1..];
    assert key.data + [data[at]] + value.data == data;
    forall k | 0 <= k < |value.data|
      ensures value.data[k] != '='
    {
      if value.data[k] == '=' {
        assert data[at + 1 + k] == '=';
        CountAtLeastTwo(data, '=', at, at + 1 + k);
      }
    }
  }
}
