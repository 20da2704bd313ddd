/** The option classifier (`src/parser/option.cc`): an argument after the
    command, optionally `KEY=VALUE`. */
module OptionParser {
  import opened Wrappers
  import opened Text
  import opened Diagnostics
  import opened Tokens
  import opened Ast
  import opened ParserShared
  import opened AssignmentParser

  /** `is_option`: a non-empty word whose first character is a letter, `_` or
      `-`, with at most one `=`, and whose other characters are identifier
      characters, `-` included. */
  predicate IsOption(data: string)
  {
    && data != []
    && IsIdentifierStart(data[0], true)
    && Count(data, '=') <= 1
    && forall i :: 1 <= i < |data| ==> IsIdentifierChar(data[i], true)
  }

  /** `impl::option`: a taken token becomes one option node carrying the
      token's text and source; when the text holds an `=`, the node's children
      are the identifier before it and the parameter after it. */
  function ParseOption(token: Token, parent: AstNode): (r: (bool, AstNode))
    ensures r.0 <==> IsOption(token.data)
    ensures !r.0 ==> r.1 == parent
  {
    if !IsOption(token.data) then (false, parent)
    else
      var root := NewNode().(kind := Option).(source := token.source).(data := token.data);
      var node :=
        match FindFrom(token.data, '=', 0)
        case None => root
        case Some(at) =>
          SplitKeyValue(token.data, root, Identifier, Parameter, token.source,
                        token.source.(column := at + 1));
      (true, parent.(children := parent.children + [node]))
  }

  /** What a taken option adds: exactly one node after the parent's existing
      children, with the token's text and source; it has no children when the
      text has no `=`, and otherwise an identifier and a parameter that, joined
      by `=`, give back the text, the parameter's column being just past the
      `=`. */
  lemma OptionNode(token: Token, parent: AstNode)
    requires ParseOption(token, parent).0
    ensures var after := ParseOption(token, parent).1;
      && after.kind == parent.kind && after.data == parent.data && after.source == parent.source
      && |after.children| == |parent.children| + 1
      && after.children[..|parent.children|] == parent.children
      && var node := after.children[|parent.children|];
         && node.kind == Option && node.data == token.data && node.source == token.source
         && ('=' !in token.data ==> node.children == [])
         && ('=' in token.data ==>
               && |node.children| == 2
               && var key := node.children[0];
                  var value := node.children[1];
                  && key.kind == Identifier && key.source == token.source
                  && value.kind == Parameter && value.source == token.source.(column := |key.data| + 1)
                  && key.data + "=" + value.data == token.data
                  && '=' !in key.data && '=' !in value.data)
  {
    var data := token.data;
    if '=' in data {
      var at := FindFrom(data, '=', 0).value;
      var node := ParseOption(token, parent).1.children[|parent.children|];
      var key, value := node.children[0], node.children[1];
      assert key.data == data[..at];
      assert value.data == data[at + 1..];
      assert key.data + [data[at]] + value.data == data;
      forall k | 0 <= k < |value.data|
        ensures value.data[k] != '='
      {
        if value.data[k] == '=' {
          assert data[at + 1 + k] == '=';
          CountAtLeastTwo(data, '=', at, at + 1 + k);
        }
      }
    }
  }
}
