/** The two tree printers: `formatter<ast_node>` of `include/parser.hh` and
    the variant of `include/formatters.hh` that also looks at the parent's
    kind. Output is described by its rows, each row being what one node prints
    before its newline. */
module TreeFormat {
  import opened Wrappers
  import opened Text
  import opened Ast

  const LAST_BRANCH: string := "\U{2514}\U{2500}\U{2500} "
  const MID_BRANCH: string := "\U{251C}\U{2500}\U{2500} "
  const LAST_INDENT: string := "    "
  const MID_INDENT: string := "\U{2502}   "

  function Connector(isLast: bool): string
  {
    if isLast then LAST_BRANCH else MID_BRANCH
  }

  function Extension(isLast: bool): string
  {
    if isLast then LAST_INDENT else MID_INDENT
  }

  /** The kind's name, and the text in double quotes when there is any. */
  function Label(node: AstNode): string
  {
    TypeName(node.kind) + (if node.data != [] then " \"" + node.data + "\"" else "")
  }

  /** A label reads back as its node's kind, followed, only when the node has
      data, by that data between double quotes. */
  lemma LabelParts(node: AstNode)
    ensures var name := TypeName(node.kind);
      && StartsWith(Label(node), name)
      && KindNamed(Label(node)[..|name|]) == Some(node.kind)
      && (node.data == [] <==> |Label(node)| == |name|)
      && (node.data != [] ==>
            && Label(node)[|name|..|name| + 2] == " \""
            && Label(node)[|name| + 2..|Label(node)| - 1] == node.data
            && Label(node)[|Label(node)| - 1] == '"')
  {
    var name := TypeName(node.kind);
    assert Label(node)[..|name|] == name;
    TypeNameRoundTrip(node.kind);
  }

  /** Rows printed one after another, each ended by a newline. */
  function Lines(rows: seq<string>): string
  {
    if rows == [] then "" else rows[0] + "\n" + Lines(rows[1..])
  }

  /** `mf_format_node` of `include/parser.hh`: a connector after a non-empty
      prefix, the label, then the children under the prefix extended by the
      node's own indent, each told whether it is the last. */
  function PlainRows(node: AstNode, prefix: string, isLast: bool): seq<string>
    decreases Size(node), 0
  {
    [(if prefix != [] then prefix + Connector(isLast) else []) + Label(node)]
      + PlainChildRows(node.children, prefix + Extension(isLast))
  }

  function PlainChildRows(children: seq<AstNode>, prefix: string): seq<string>
    decreases SizeList(children), 1
  {
    if children == [] then []
    else PlainRows(children[0], prefix, |children| == 1) + PlainChildRows(children[1..], prefix)
  }

  /** `formatter<ast_node>::format` of `include/parser.hh`. */
  function FormatPlain(root: AstNode): string
  {
    Lines(PlainRows(root, [], true))
  }

  /** `mf_format_node` of `include/formatters.hh`: the connector, and the
      extension of the children's prefix, are added when the parent is a
      statement or the prefix is non-empty; `prev` is the parent's kind, `None`
      standing for `ast_type::none`, which `include/parser.hh` does not
      declare. */
  function VariantRows(node: AstNode, prefix: string, isLast: bool, prev: Option<AstType>): seq<string>
    decreases Size(node), 0
  {
    var branch := prev == Some(Statement) || prefix != [];
    [(if branch then prefix + Connector(isLast) else []) + Label(node)]
      + VariantChildRows(node.children, if branch then prefix + Extension(isLast) else prefix, node.kind)
  }

  function VariantChildRows(children: seq<AstNode>, prefix: string, parent: AstType): seq<string>
    decreases SizeList(children), 1
  {
    if children == [] then []
    else VariantRows(children[0], prefix, |children| == 1, Some(parent)) + VariantChildRows(children[1..], prefix, parent)
  }

  /** `formatter<ast_node>::format` of `include/formatters.hh`. */
  function FormatVariant(root: AstNode): string
  {
    Lines(VariantRows(root, [], true, None))
  }

  /** Each row with `q` put in front. */
  function Indent(q: string, rows: seq<string>): (r: seq<string>)
    ensures |r| == |rows| && forall i :: 0 <= i < |rows| ==> r[i] == q + rows[i]
  {
    seq(|rows|, i requires 0 <= i < |rows| => q + rows[i])
  }

  lemma IndentAppend(q: string, a: seq<string>, b: seq<string>)
    ensures Indent(q, a + b) == Indent(q, a) + Indent(q, b)
  {
  }

  /** Both printers print one row per node. */
  lemma {:induction false} PlainRowCount(node: AstNode, prefix: string, isLast: bool)
    ensures |PlainRows(node, prefix, isLast)| == Size(node)
    decreases Size(node), 0
  {
    PlainChildRowCount(node.children, prefix + Extension(isLast));
  }

  lemma {:induction false} PlainChildRowCount(children: seq<AstNode>, prefix: string)
    ensures |PlainChildRows(children, prefix)| == SizeList(children)
    decreases SizeList(children), 1
  {
    if children != [] {
      PlainRowCount(children[0], prefix, |children| == 1);
      PlainChildRowCount(children[1..], prefix);
    }
  }

  /** Below a non-empty prefix, every row starts with that prefix. */
  lemma {:induction false} PlainRowsPrefixed(node: AstNode, prefix: string, isLast: bool)
    requires prefix != []
    ensures forall i :: 0 <= i < |PlainRows(node, prefix, isLast)| ==> StartsWith(PlainRows(node, prefix, isLast)[i], prefix)
    decreases Size(node), 0
  {
    var ext := prefix + Extension(isLast);
    PlainChildRowsPrefixed(node.children, ext);
    var rows := PlainRows(node, prefix, isLast);
    forall i | 0 <= i < |rows|
      ensures StartsWith(rows[i], prefix)
    {
      if i > 0 {
        assert rows[i] == PlainChildRows(node.children, ext)[i - 1];
        assert rows[i][..|ext|] == ext;
        assert ext[..|prefix|] == prefix;
      }
    }
  }

  lemma {:induction false} PlainChildRowsPrefixed(children: seq<AstNode>, prefix: string)
    requires prefix != []
    ensures forall i :: 0 <= i < |PlainChildRows(children, prefix)| ==> StartsWith(PlainChildRows(children, prefix)[i], prefix)
    decreases SizeList(children), 1
  {
    if children != [] {
      PlainRowsPrefixed(children[0], prefix, |children| == 1);
      PlainChildRowsPrefixed(children[1..], prefix);
    }
  }

  /** Under a non-empty prefix the two printers agree. */
  lemma {:induction false} VariantIsPlainBelow(node: AstNode, prefix: string, isLast: bool, prev: Option<AstType>)
    requires prefix != []
    ensures VariantRows(node, prefix, isLast, prev) == PlainRows(node, prefix, isLast)
    decreases Size(node), 0
  {
    VariantChildIsPlainBelow(node.children, prefix + Extension(isLast), node.kind);
  }

  lemma {:induction false} VariantChildIsPlainBelow(children: seq<AstNode>, prefix: string, parent: AstType)
    requires prefix != []
    ensures VariantChildRows(children, prefix, parent) == PlainChildRows(children, prefix)
    decreases SizeList(children), 1
  {
    if children != [] {
      VariantIsPlainBelow(children[0], prefix, |children| == 1, Some(parent));
      VariantChildIsPlainBelow(children[1..], prefix, parent);
    }
  }

  /** Putting more in front of a non-empty prefix indents every row by it. */
  lemma {:induction false} PlainIndent(node: AstNode, q: string, prefix: string, isLast: bool)
    requires prefix != []
    ensures PlainRows(node, q + prefix, isLast) == Indent(q, PlainRows(node, prefix, isLast))
    decreases Size(node), 0
  {
    PlainChildIndent(node.children, q, prefix + Extension(isLast));
    assert q + prefix + Extension(isLast) == q + (prefix + Extension(isLast));
    var head := (q + prefix) + Connector(isLast) + Label(node);
    assert head == q + (prefix + Connector(isLast) + Label(node));
    IndentAppend(q, [prefix + Connector(isLast) + Label(node)],
                 PlainChildRows(node.children, prefix + Extension(isLast)));
  }

  lemma {:induction false} PlainChildIndent(children: seq<AstNode>, q: string, prefix: string)
    requires prefix != []
    ensures PlainChildRows(children, q + prefix) == Indent(q, PlainChildRows(children, prefix))
    decreases SizeList(children), 1
  {
    if children != [] {
      PlainIndent(children[0], q, prefix, |children| == 1);
      PlainChildIndent(children[1..], q, prefix);
      IndentAppend(q, PlainRows(children[0], prefix, |children| == 1), PlainChildRows(children[1..], prefix));
    }
  }

  /** For one child of a statement: the `include/parser.hh` printer, which
      hands the root's children a prefix of four spaces, prints the rows the
      `include/formatters.hh` printer prints at an empty prefix, indented by
      those four spaces. */
  lemma StatementChildRows(node: AstNode, isLast: bool)
    ensures PlainRows(node, LAST_INDENT, isLast) == Indent(LAST_INDENT, VariantRows(node, [], isLast, Some(Statement)))
  {
    var ext := Extension(isLast);
    var head := Connector(isLast) + Label(node);
    var below := PlainChildRows(node.children, ext);
    VariantHead(node, isLast);
    VariantChildIsPlainBelow(node.children, ext, node.kind);
    assert VariantRows(node, [], isLast, Some(Statement)) == [head] + below;
    PlainChildIndent(node.children, LAST_INDENT, ext);
    IndentAppend(LAST_INDENT, [head], below);
    PlainHead(node, isLast);
  }

  lemma VariantHead(node: AstNode, isLast: bool)
    ensures VariantRows(node, [], isLast, Some(Statement))
         == [Connector(isLast) + Label(node)] + VariantChildRows(node.children, Extension(isLast), node.kind)
  {
    assert [] + Connector(isLast) == Connector(isLast);
    assert [] + Extension(isLast) == Extension(isLast);
  }

  lemma PlainHead(node: AstNode, isLast: bool)
    ensures PlainRows(node, LAST_INDENT, isLast)
         == [LAST_INDENT + (Connector(isLast) + Label(node))]
            + Indent(LAST_INDENT, PlainChildRows(node.children, Extension(isLast)))
  {
    PlainChildIndent(node.children, LAST_INDENT, Extension(isLast));
    assert LAST_INDENT + Connector(isLast) + Label(node) == LAST_INDENT + (Connector(isLast) + Label(node));
  }

  lemma {:induction false} StatementChildrenRows(children: seq<AstNode>)
    ensures PlainChildRows(children, LAST_INDENT) == Indent(LAST_INDENT, VariantChildRows(children, [], Statement))
    decreases |children|
  {
    if children != [] {
      StatementChildRows(children[0], |children| == 1);
      StatementChildrenRows(children[1..]);
      IndentAppend(LAST_INDENT, VariantRows(children[0], [], |children| == 1, Some(Statement)),
                   VariantChildRows(children[1..], [], Statement));
    }
  }

  /** The two printers on a statement root: the same first row (the root's
      label), the same number of rows, and every later row of the
      `include/formatters.hh` printer is the `include/parser.hh` row without
      its leading four spaces, so the root's children get connectors at the
      left margin. */
  lemma StatementPrinters(root: AstNode)
    requires root.kind == Statement
    ensures var plain := PlainRows(root, [], true);
            var variant := VariantRows(root, [], true, None);
      && |plain| == |variant| == Size(root)
      && plain[0] == variant[0] == Label(root)
      && plain[1..] == Indent(LAST_INDENT, variant[1..])
  {
    StatementChildrenRows(root.children);
    PlainRowCount(root, [], true);
    assert [] + LAST_INDENT == LAST_INDENT;
    assert PlainRows(root, [], true)[1..] == PlainChildRows(root.children, LAST_INDENT);
    assert VariantRows(root, [], true, None)[1..] == VariantChildRows(root.children, [], Statement);
  }
}
