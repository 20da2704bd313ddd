/** The syntax tree of `include/parser.hh`: node kinds, nodes, and the name
    each kind prints as. */
module Ast {
  import opened Wrappers
  import opened Diagnostics

  /** `ast_type`. */
  datatype AstType = Statement | Command | Option | Parameter | Assignment | Identifier | Literal

  /** `ast_node`. The child list is owned by the node, so a node is a value
      holding its children; the `parent` back pointer is left out (every
      `set_parent` call in the parser points a new node at the node whose
      list receives it, which the nesting of values already records). The
      setters `set_type`, `set_data` and `set_source` are the updates
      `n.(kind := t)`, `n.(data := d)` and `n.(source := s)`, which change
      that field alone. */
  datatype AstNode = AstNode(kind: AstType, data: string, source: SourceLocation, children: seq<AstNode>)

  /** `ast_node {}`: every member value-initialised, so the kind is the first
      enumerator. */
  function NewNode(): (n: AstNode)
    ensures n.kind == Statement && n.data == [] && n.source == SourceLocation(0, 0) && n.children == []
  {
    AstNode(Statement, [], SourceLocation(0, 0), [])
  }

  /** `formatter<ast_type>`: the lower-case enumerator name. */
  function TypeName(t: AstType): string
  {
    match t
    case Statement => "statement"
    case Command => "command"
    case Option => "option"
    case Parameter => "parameter"
    case Assignment => "assignment"
    case Identifier => "identifier"
    case Literal => "literal"
  }

  /** Reads a kind back from its printed name. */
  function KindNamed(name: string): Option<AstType>
  {
    if name == "statement" then Some(Statement)
    else if name == "command" then Some(Command)
    else if name == "option" then Some(Option)
    else if name == "parameter" then Some(Parameter)
    else if name == "assignment" then Some(Assignment)
    else if name == "identifier" then Some(Identifier)
    else if name == "literal" then Some(Literal)
    else None
  }

  /** The printed name identifies the kind: reading it back gives the kind. */
  lemma TypeNameRoundTrip(t: AstType)
    ensures KindNamed(TypeName(t)) == Some(t)
  {
    match t
    case Statement =>
    case Command =>
    case Option =>
    case Parameter =>
    case Assignment =>
    case Identifier =>
    case Literal =>
  }

  /** The number of nodes in a tree. */
  function Size(n: AstNode): (s: nat)
    ensures s >= 1
  {
    1 + SizeList(n.children)
  }

  function SizeList(ns: seq<AstNode>): nat
  {
    if ns == [] then 0 else Size(ns[0]) + SizeList(ns[1..])
  }
}
