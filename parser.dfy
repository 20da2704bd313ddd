/** The parser driver (`src/parser.cc`): the single pass that builds the tree,
    and the tree verifier. */
module Parser {
  import opened Wrappers
  import opened Text
  import opened Diagnostics
  import opened Tokens
  import opened Ast
  import opened Executables
  import opened AssignmentParser
  import opened CommandParser
  import opened OptionParser
  import opened StringParser

  /** The loop state of `parse`: the tree so far, the `found_command` flag, and
      the string classifier's counter. */
  datatype ParseState = ParseState(root: AstNode, foundCommand: bool, inside: nat)

  /** One token: before the command, an assignment or else the command; after
      it, a quoted-string step or else an option; a token no active classifier
      takes is dropped. */
  function ParseStep(st: ParseState, token: Token): (r: ParseState)
    requires st.inside <= 2
    ensures r.inside <= 2
  {
    if !st.foundCommand then
      var (viaAssignment, r1) := ParseAssignment(token, st.root);
      if viaAssignment then st.(root := r1)
      else
        var (viaCommand, r2) := ParseCommand(token, st.root);
        if viaCommand then st.(root := r2, foundCommand := true) else st
    else
      var (viaString, r3, inside) := StringStep(st.inside, token, st.root);
      StringStepStates(st.inside, token, st.root);
      if viaString then st.(root := r3, inside := inside)
      else
        var (viaOption, r4) := ParseOption(token, st.root);
        if viaOption then st.(root := r4) else st
  }

  /** The state after the tokens, starting from an empty statement and the
      counter value `inside` left by earlier calls. */
  function ParseAll(tokens: seq<Token>, inside: nat): (r: ParseState)
    requires inside <= 2
    ensures r.inside <= 2
  {
    if tokens == [] then ParseState(NewNode().(kind := Statement), false, inside)
    else ParseStep(ParseAll(tokens[..|tokens| - 1], inside), tokens[|tokens| - 1])
  }

  /** `parse`. The counter lives in `strings` and carries over between calls. */
  method Parse(tokens: seq<Token>, strings: StringClassifier) returns (root: AstNode)
    requires strings.Valid()
    modifies strings
    ensures strings.Valid()
    ensures ParseAll(tokens, old(strings.insideString)) == ParseState(root, ParseAll(tokens, old(strings.insideString)).foundCommand, strings.insideString)
  {
    root := NewNode().(kind := Statement);
    var foundCommand := false;
    var i := 0;
    while i < |tokens|
      invariant 0 <= i <= |tokens| && strings.Valid()
      invariant ParseAll(tokens[..i], old(strings.insideString)) == ParseState(root, foundCommand, strings.insideString)
    {
      var token := tokens[i];
      assert tokens[..i + 1][..i] == tokens[..i];
      if !foundCommand {
        var (viaAssignment, r1) := ParseAssignment(token, root);
        if viaAssignment {
          root := r1;
        } else {
          var (viaCommand, r2) := ParseCommand(token, root);
          if viaCommand {
            root := r2;
            foundCommand := true;
          }
        }
      } else {
        StringStepStates(strings.insideString, token, root);
        var viaString, r3 := strings.Classify(token, root);
        if viaString {
          root := r3;
        } else {
          var (viaOption, r4) := ParseOption(token, root);
          if viaOption {
            root := r4;
          }
        }
      }
      i := i + 1;
    }
    assert tokens[..i] == tokens;
  }

  /** The order of the root's children: only assignments before the command;
      once it is found, one command, the assignments before it, and only
      options after it. */
  predicate Shaped(children: seq<AstNode>, found: bool)
  {
    if !found then forall k :: 0 <= k < |children| ==> children[k].kind == Assignment
    else
      exists c :: 0 <= c < |children| && children[c].kind == Command
        && (forall k :: 0 <= k < c ==> children[k].kind == Assignment)
        && (forall k :: c < k < |children| ==> children[k].kind == Option)
  }

  /** One step keeps the root a statement, keeps its earlier children, and
      adds at most one child, carrying the token's source; a step that adds
      none changes nothing but the string counter. */
  lemma ParseStepGrows(st: ParseState, token: Token)
    requires st.inside <= 2
    ensures var r := ParseStep(st, token);
      && r.root == st.root.(children := r.root.children)
      && (r.root.children == st.root.children ||
            (|r.root.children| == |st.root.children| + 1
             && r.root.children[..|st.root.children|] == st.root.children
             && r.root.children[|st.root.children|].source == token.source))
      && (r.root.children == st.root.children ==> r.foundCommand == st.foundCommand)
      && (st.foundCommand ==> r.foundCommand)
  {
    if !st.foundCommand {
      if ParseAssignment(token, st.root).0 {
        AssignmentNode(token, st.root);
      }
    } else {
      StringStepStates(st.inside, token, st.root);
      if !StringStep(st.inside, token, st.root).0 && ParseOption(token, st.root).0 {
        OptionNode(token, st.root);
      }
    }
  }

  lemma ShapedBeforeCommand(st: ParseState, token: Token)
    requires st.inside <= 2 && !st.foundCommand && Shaped(st.root.children, false)
    ensures Shaped(ParseStep(st, token).root.children, ParseStep(st, token).foundCommand)
  {
    var before := st.root.children;
    var after := ParseStep(st, token).root.children;
    ParseStepGrows(st, token);
    if ParseAssignment(token, st.root).0 {
      AssignmentNode(token, st.root);
      assert after == before + [after[|before|]];
    } else if ParseCommand(token, st.root).0 {
      assert after[|before|].kind == Command;
      assert forall k :: 0 <= k < |before| ==> after[k] == before[k];
    }
  }

  /** After the command, a step adds nothing or one option node. */
  lemma AfterCommandAddsOption(st: ParseState, token: Token)
    requires st.inside <= 2 && st.foundCommand
    ensures var after := ParseStep(st, token);
      after.foundCommand &&
      (after.root.children == st.root.children ||
         exists x: AstNode :: x.kind == Option && after.root.children == st.root.children + [x])
  {
    StringStepStates(st.inside, token, st.root);
    if !StringStep(st.inside, token, st.root).0 && ParseOption(token, st.root).0 {
      OptionNode(token, st.root);
      var x := ParseStep(st, token).root.children[|st.root.children|];
      assert ParseStep(st, token).root.children == st.root.children + [x];
    }
  }

  lemma ShapedAppendOption(before: seq<AstNode>, x: AstNode)
    requires Shaped(before, true) && x.kind == Option
    ensures Shaped(before + [x], true)
  {
    var after := before + [x];
    var c :| 0 <= c < |before| && before[c].kind == Command
      && (forall k :: 0 <= k < c ==> before[k].kind == Assignment)
      && (forall k :: c < k < |before| ==> before[k].kind == Option);
    assert after[c].kind == Command;
  }

  lemma ShapedAfterCommand(st: ParseState, token: Token)
    requires st.inside <= 2 && st.foundCommand && Shaped(st.root.children, true)
    ensures Shaped(ParseStep(st, token).root.children, ParseStep(st, token).foundCommand)
  {
    var after := ParseStep(st, token).root.children;
    AfterCommandAddsOption(st, token);
    if after != st.root.children {
      var x: AstNode :| x.kind == Option && after == st.root.children + [x];
      ShapedAppendOption(st.root.children, x);
    }
  }

  lemma ParseStepShaped(st: ParseState, token: Token)
    requires st.inside <= 2 && Shaped(st.root.children, st.foundCommand)
    ensures Shaped(ParseStep(st, token).root.children, ParseStep(st, token).foundCommand)
  {
    if st.foundCommand {
      ShapedAfterCommand(st, token);
    } else {
      ShapedBeforeCommand(st, token);
    }
  }

  /** What `parse` builds: a statement root with no text at the default
      location, whose children are assignments, then at most one command, and
      after it only options; a command is found exactly when the root holds a
      command child; and no token adds more than one child. */
  lemma {:induction false} ParseAllShape(tokens: seq<Token>, inside: nat)
    requires inside <= 2
    ensures var st := ParseAll(tokens, inside);
      && st.root.kind == Statement && st.root.data == [] && st.root.source == SourceLocation(0, 0)
      && Shaped(st.root.children, st.foundCommand)
      && |st.root.children| <= |tokens|
    decreases |tokens|
  {
    if tokens != [] {
      var init := tokens[..|tokens| - 1];
      ParseAllShape(init, inside);
      ParseStepGrows(ParseAll(init, inside), tokens[|tokens| - 1]);
      ParseStepShaped(ParseAll(init, inside), tokens[|tokens| - 1]);
    }
  }

  /** A shaped child list holds at most one command. */
  lemma ShapedHasOneCommand(children: seq<AstNode>, found: bool, i: nat, j: nat)
    requires Shaped(children, found)
    requires i < |children| && j < |children| && children[i].kind == Command && children[j].kind == Command
    ensures i == j && found
  {
  }

  /** `after` starts with `before`. */
  predicate Extends(before: seq<AstNode>, after: seq<AstNode>)
  {
    |before| <= |after| && after[..|before|] == before
  }

  lemma ParseAllSnoc(tokens: seq<Token>, inside: nat)
    requires inside <= 2 && tokens != []
    ensures ParseAll(tokens, inside) == ParseStep(ParseAll(tokens[..|tokens| - 1], inside), tokens[|tokens| - 1])
  {
  }

  /** One more token only extends the children. */
  lemma StepExtends(tokens: seq<Token>, m: nat, inside: nat)
    requires inside <= 2 && m < |tokens|
    ensures Extends(ParseAll(tokens[..m], inside).root.children, ParseAll(tokens[..m + 1], inside).root.children)
  {
    assert tokens[..m + 1][..m] == tokens[..m];
    ParseAllSnoc(tokens[..m + 1], inside);
    ParseStepGrows(ParseAll(tokens[..m], inside), tokens[m]);
  }

  lemma {:induction false} ExtendsChain(history: seq<seq<AstNode>>, k: nat)
    requires k < |history|
    requires forall m :: 0 <= m < |history| - 1 ==> Extends(history[m], history[m + 1])
    ensures Extends(history[k], history[|history| - 1])
    decreases |history| - k
  {
    if k < |history| - 1 {
      ExtendsChain(history, k + 1);
      var a, b, c := history[k], history[k + 1], history[|history| - 1];
      assert c[..|b|] == b;
      assert c[..|a|] == b[..|a|];
    }
  }

  /** Every assignment child carries no text of its own: its key and value
      are its two children. */
  predicate BareAssignments(children: seq<AstNode>)
  {
    forall k :: 0 <= k < |children| && children[k].kind == Assignment ==> children[k].data == []
  }

  lemma ParseStepBare(st: ParseState, token: Token)
    requires st.inside <= 2 && BareAssignments(st.root.children)
    ensures BareAssignments(ParseStep(st, token).root.children)
  {
    var before := st.root.children;
    var after := ParseStep(st, token).root.children;
    ParseStepGrows(st, token);
    if !st.foundCommand {
      if ParseAssignment(token, st.root).0 {
        AssignmentNode(token, st.root);
      }
    } else {
      AfterCommandAddsOption(st, token);
      if after != before {
        var x: AstNode :| x.kind == Option && after == before + [x];
      }
    }
  }

  /** The parser never gives an assignment node text: `src/parser/assignment.cc`
      sets only its kind, source and parent. */
  lemma {:induction false} ParseAllBare(tokens: seq<Token>, inside: nat)
    requires inside <= 2
    ensures BareAssignments(ParseAll(tokens, inside).root.children)
    decreases |tokens|
  {
    if tokens != [] {
      var init := tokens[..|tokens| - 1];
      ParseAllBare(init, inside);
      ParseStepBare(ParseAll(init, inside), tokens[|tokens| - 1]);
    }
  }

  /** Children appear in token order: the children built from a prefix of the
      tokens are a prefix of the children built from all of them. */
  lemma ParseAllExtends(tokens: seq<Token>, k: nat, inside: nat)
    requires inside <= 2 && k <= |tokens|
    ensures Extends(ParseAll(tokens[..k], inside).root.children, ParseAll(tokens, inside).root.children)
  {
    var history := seq(|tokens| + 1, m requires 0 <= m <= |tokens| => ParseAll(tokens[..m], inside).root.children);
    forall m | 0 <= m < |history| - 1
      ensures Extends(history[m], history[m + 1])
    {
      StepExtends(tokens, m, inside);
    }
    ExtendsChain(history, k);
    assert tokens[..|tokens|] == tokens;
  }

  // ---------------------------------------------------------------------
  // The tree verifier

  /** What the verifier consults: the executable index in its iteration order,
      the answer the user gives to every suggestion prompt, and the verdict of
      the file-system check for `./` names. */
  datatype Context = Context(paths: map<string, string>, order: seq<string>, answer: char,
                             pathCheck: string -> Option<Diagnostic>)

  predicate ValidContext(ctx: Context)
  {
    IsEnumeration(ctx.order, ctx.paths)
  }

  /** The loop body of `verifier::operator()` for one child: its own children
      first (when it has any), then, for a command, `verify_command`. */
  function VerifyNode(node: AstNode, ctx: Context): (Result<Option<Diagnostic>, string>, AstNode)
    requires ValidContext(ctx)
    decreases Size(node), 0
  {
    var (r1, n1) :=
      if node.children != [] then
        var (r, kids) := VerifyNodes(node.children, ctx);
        (r, node.(children := kids))
      else (Ok(None), node);
    if r1 != Ok(None) then (r1, n1)
    else if n1.kind == Command then CommandDecision(n1, ctx.paths, ctx.order, ctx.answer, ctx.pathCheck)
    else (Ok(None), n1)
  }

  /** `verifier::operator()` over a child list: the first diagnostic (or
      exception) in order, and the list afterwards. */
  function VerifyNodes(nodes: seq<AstNode>, ctx: Context): (Result<Option<Diagnostic>, string>, seq<AstNode>)
    requires ValidContext(ctx)
    decreases SizeList(nodes), 1
  {
    if nodes == [] then (Ok(None), [])
    else
      var (r, first) := VerifyNode(nodes[0], ctx);
      if r != Ok(None) then (r, [first] + nodes[1..])
      else
        var (r2, rest) := VerifyNodes(nodes[1..], ctx);
        (r2, [first] + rest)
  }

  lemma {:induction false} SizeListElement(nodes: seq<AstNode>, i: nat)
    requires i < |nodes|
    ensures Size(nodes[i]) <= SizeList(nodes)
    decreases i
  {
    if i > 0 {
      SizeListElement(nodes[1..], i - 1);
    }
  }

  lemma VerifyNodesSuffix(nodes: seq<AstNode>, i: nat, ctx: Context)
    requires ValidContext(ctx) && i < |nodes|
    ensures var (r, first) := VerifyNode(nodes[i], ctx);
      VerifyNodes(nodes[i..], ctx) ==
        if r != Ok(None) then (r, [first] + nodes[i + 1..])
        else (VerifyNodes(nodes[i + 1..], ctx).0, [first] + VerifyNodes(nodes[i + 1..], ctx).1)
  {
    assert nodes[i..][0] == nodes[i];
    assert nodes[i..][1..] == nodes[i + 1..];
  }

  /** The loop body of `verifier::operator()` as the source runs it. */
  method VerifyChild(node: AstNode, index: ExecutableIndex, order: seq<string>, answer: char,
                     pathCheck: string -> Option<Diagnostic>)
    returns (r: Result<Option<Diagnostic>, string>, out: AstNode)
    requires IsEnumeration(order, index.paths)
    ensures (r, out) == VerifyNode(node, Context(index.paths, order, answer, pathCheck))
    decreases Size(node), 0
  {
    out := node;
    if node.children != [] {
      var r1, kids := VerifyTree(node.children, index, order, answer, pathCheck);
      out := node.(children := kids);
      if r1 != Ok(None) {
        return r1, out;
      }
    }
    if out.kind == Command {
      r, out := VerifyCommand(out, index, order, answer, pathCheck);
      return;
    }
    return Ok(None), out;
  }

  /** `verifier::operator()` as the source runs it, recursing into children
      and calling `verify_command` on commands, with the index as an object. */
  method VerifyTree(nodes: seq<AstNode>, index: ExecutableIndex, order: seq<string>, answer: char,
                    pathCheck: string -> Option<Diagnostic>)
    returns (r: Result<Option<Diagnostic>, string>, out: seq<AstNode>)
    requires IsEnumeration(order, index.paths)
    ensures (r, out) == VerifyNodes(nodes, Context(index.paths, order, answer, pathCheck))
    decreases SizeList(nodes), 1
  {
    ghost var ctx := Context(index.paths, order, answer, pathCheck);
    out := [];
    var i := 0;
    assert nodes[0..] == nodes;
    assert [] + VerifyNodes(nodes, ctx).1 == VerifyNodes(nodes, ctx).1;
    while i < |nodes|
      invariant 0 <= i <= |nodes|
      invariant VerifyNodes(nodes, ctx)
             == (VerifyNodes(nodes[i..], ctx).0, out + VerifyNodes(nodes[i..], ctx).1)
    {
      VerifyNodesSuffix(nodes, i, ctx);
      SizeListElement(nodes, i);
      var r1, node := VerifyChild(nodes[i], index, order, answer, pathCheck);
      if r1 != Ok(None) {
        assert out + ([node] + nodes[i + 1..]) == (out + [node]) + nodes[i + 1..];
        return r1, out + [node] + nodes[i + 1..];
      }
      assert out + ([node] + VerifyNodes(nodes[i + 1..], ctx).1) == (out + [node]) + VerifyNodes(nodes[i + 1..], ctx).1;
      out := out + [node];
      i := i + 1;
    }
    assert nodes[i..] == [];
    assert out + [] == out;
    return Ok(None), out;
  }

  // ---------------------------------------------------------------------
  // What the tree verifier guarantees

  /** A command node passes `verify_command` untouched: a `./` name the
      file-system check accepts, or an indexed name. */
  predicate Resolved(node: AstNode, ctx: Context)
  {
    node.kind == Command ==>
      if StartsWith(node.data, "./") then ctx.pathCheck(node.data).None? else node.data in ctx.paths
  }

  predicate NodeResolved(node: AstNode, ctx: Context)
    decreases Size(node), 0
  {
    Resolved(node, ctx) && AllResolved(node.children, ctx)
  }

  /** Every command in the trees is resolved. */
  predicate AllResolved(nodes: seq<AstNode>, ctx: Context)
    decreases SizeList(nodes), 1
  {
    nodes == [] || (NodeResolved(nodes[0], ctx) && AllResolved(nodes[1..], ctx))
  }

  /** Two trees alike but for the text of command nodes. */
  predicate SameShape(a: AstNode, b: AstNode)
    decreases Size(a), 0
  {
    && a.kind == b.kind && a.source == b.source
    && (a.kind != Command ==> a.data == b.data)
    && SameShapes(a.children, b.children)
  }

  predicate SameShapes(a: seq<AstNode>, b: seq<AstNode>)
    decreases SizeList(a), 1
  {
    |a| == |b| && (a == [] || (SameShape(a[0], b[0]) && SameShapes(a[1..], b[1..])))
  }

  /** No indexed name looks like a local path. */
  predicate NoLocalKeys(paths: map<string, string>)
  {
    forall k :: k in paths ==> !StartsWith(k, "./")
  }

  lemma ClosestIsIndexed(paths: map<string, string>, order: seq<string>, name: string)
    requires IsEnumeration(order, paths)
    ensures var r := ClosestOf(paths, order, name);
      r.Ok? && r.value.Some? ==> r.value.value.0 in paths
  {
  }

  lemma {:induction false} SameShapeRefl(node: AstNode)
    ensures SameShape(node, node)
    decreases Size(node), 0
  {
    SameShapesRefl(node.children);
  }

  lemma {:induction false} SameShapesRefl(nodes: seq<AstNode>)
    ensures SameShapes(nodes, nodes)
    decreases SizeList(nodes), 1
  {
    if nodes != [] {
      SameShapeRefl(nodes[0]);
      SameShapesRefl(nodes[1..]);
    }
  }

  /** One child's check: a pass leaves every command in it resolved, and
      the child keeps its shape. */
  lemma {:induction false} VerifyNodeSound(node: AstNode, ctx: Context)
    requires ValidContext(ctx) && NoLocalKeys(ctx.paths)
    ensures VerifyNode(node, ctx).0 == Ok(None) ==> NodeResolved(VerifyNode(node, ctx).1, ctx)
    ensures SameShape(node, VerifyNode(node, ctx).1)
    decreases Size(node), 0
  {
    var n1 := node;
    var r1: Result<Option<Diagnostic>, string> := Ok(None);
    if node.children != [] {
      VerifyNodesSound(node.children, ctx);
      n1 := node.(children := VerifyNodes(node.children, ctx).1);
      r1 := VerifyNodes(node.children, ctx).0;
    } else {
      SameShapesRefl(node.children);
    }
    assert AllResolved(n1.children, ctx) || r1 != Ok(None);
    assert SameShapes(node.children, n1.children);
    if r1 == Ok(None) && n1.kind == Command {
      ClosestIsIndexed(ctx.paths, ctx.order, n1.data);
      var out := CommandDecision(n1, ctx.paths, ctx.order, ctx.answer, ctx.pathCheck).1;
      assert out.children == n1.children;
    }
  }

  /** A pass over a child list leaves every command in it resolved, and each
      child keeps its shape: only the text of a command can change. */
  lemma {:induction false} VerifyNodesSound(nodes: seq<AstNode>, ctx: Context)
    requires ValidContext(ctx) && NoLocalKeys(ctx.paths)
    ensures VerifyNodes(nodes, ctx).0 == Ok(None) ==> AllResolved(VerifyNodes(nodes, ctx).1, ctx)
    ensures SameShapes(nodes, VerifyNodes(nodes, ctx).1)
    decreases SizeList(nodes), 1
  {
    if nodes != [] {
      VerifyNodeSound(nodes[0], ctx);
      var (r, first) := VerifyNode(nodes[0], ctx);
      var out := VerifyNodes(nodes, ctx).1;
      if r != Ok(None) {
        SameShapesRefl(nodes[1..]);
        assert out[1..] == nodes[1..];
      } else {
        VerifyNodesSound(nodes[1..], ctx);
        assert out[1..] == VerifyNodes(nodes[1..], ctx).1;
      }
    }
  }

  /** On trees whose commands are all resolved the verifier reports nothing
      and changes nothing; so running it again after a pass is a no-op. */
  lemma {:induction false} VerifyNodeResolved(node: AstNode, ctx: Context)
    requires ValidContext(ctx) && NodeResolved(node, ctx)
    ensures VerifyNode(node, ctx) == (Ok(None), node)
    decreases Size(node), 0
  {
    if node.children != [] {
      VerifyNodesResolved(node.children, ctx);
      assert node.(children := node.children) == node;
    }
  }

  lemma {:induction false} VerifyNodesResolved(nodes: seq<AstNode>, ctx: Context)
    requires ValidContext(ctx) && AllResolved(nodes, ctx)
    ensures VerifyNodes(nodes, ctx) == (Ok(None), nodes)
    decreases SizeList(nodes), 1
  {
    if nodes != [] {
      VerifyNodeResolved(nodes[0], ctx);
      VerifyNodesResolved(nodes[1..], ctx);
      assert [nodes[0]] + nodes[1..] == nodes;
    }
  }

  lemma VerifyTwice(nodes: seq<AstNode>, ctx: Context)
    requires ValidContext(ctx) && NoLocalKeys(ctx.paths)
    requires VerifyNodes(nodes, ctx).0 == Ok(None)
    ensures var out := VerifyNodes(nodes, ctx).1; VerifyNodes(out, ctx) == (Ok(None), out)
  {
    VerifyNodesSound(nodes, ctx);
    VerifyNodesResolved(VerifyNodes(nodes, ctx).1, ctx);
  }
}
