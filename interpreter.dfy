/** The hand-off of `src/interpreter.cc`: backslash clean-up of option text and
    the mapping of a statement tree to the `{path, argv, envp}` of the process
    to launch. */
module Interpreter {
  import opened Wrappers
  import opened Text
  import opened Ast
  import opened Executables
  import Parser
  import AssignmentParser
  import opened Tokens

  /** `interpreter::impl::process`. */
  datatype Process = Process(envp: seq<string>, path: string, argv: seq<string>)

  const EMPTY_PROCESS: Process := Process([], [], [])

  const NOT_STATEMENT: string := "the AST's root is not of type \"statement\""

  /** What `clean_escape` produces from `s` when the escape flag is `escape`:
      a backslash after a backslash is kept and clears the flag, a lone
      backslash sets it, a character under the flag is dropped, and a flag
      still set at the end leaves a backslash. */
  function CleanFrom(s: string, escape: bool): string
    decreases |s|
  {
    if s == [] then (if escape then "\\" else [])
    else if s[0] == '\\' then (if escape then "\\" else []) + CleanFrom(s[1..], !escape)
    else if escape then CleanFrom(s[1..], false)
    else [s[0]] + CleanFrom(s[1..], false)
  }

  function Cleaned(s: string): string
  {
    CleanFrom(s, false)
  }

  /** `clean_escape`. */
  method CleanEscape(s: string) returns (clean: string)
    ensures clean == Cleaned(s)
  {
    clean := [];
    var escape := false;
    for i := 0 to |s|
      invariant clean + CleanFrom(s[i..], escape) == Cleaned(s)
    {
      var c := s[i];
      assert s[i..][0] == c && s[i..][1..] == s[i + 1..];
      if c == '\\' {
        if escape {
          clean := clean + [c];
        }
        escape := !escape;
        continue;
      }
      if escape {
        escape := false;
      } else {
        clean := clean + [c];
      }
    }
    assert s[|s|..] == [];
    if escape {
      clean := clean + ['\\'];
    }
  }

  /** The output is never longer than the input, plus the backslash a pending
      flag leaves. */
  lemma {:induction false} CleanFromLength(s: string, escape: bool)
    ensures |CleanFrom(s, escape)| <= |s| + (if escape then 1 else 0)
    decreases |s|
  {
    if s != [] {
      CleanFromLength(s[1..], s[0] == '\\' && !escape);
    }
  }

  lemma CleanedNotLonger(s: string)
    ensures |Cleaned(s)| <= |s|
  {
    CleanFromLength(s, false);
  }

  /** Text without backslashes is left alone. */
  lemma {:induction false} NoBackslashUnchanged(s: string)
    requires '\\' !in s
    ensures Cleaned(s) == s
    decreases |s|
  {
    if s != [] {
      assert '\\' !in s[1..] by {
        forall k | 0 <= k < |s[1..]| ensures s[1..][k] != '\\' {
          assert s[1..][k] == s[k + 1];
        }
      }
      NoBackslashUnchanged(s[1..]);
    }
  }

  /** A doubled backslash is one backslash, and a backslash followed by any
      other character drops both. */
  lemma EscapedPairs(c: char, s: string)
    ensures Cleaned(['\\', '\\'] + s) == ['\\'] + Cleaned(s)
    ensures c != '\\' ==> Cleaned(['\\', c] + s) == Cleaned(s)
  {
    var bs := ['\\'] + s;
    assert (['\\', '\\'] + s)[0] == '\\' && (['\\', '\\'] + s)[1..] == bs;
    assert CleanFrom(['\\', '\\'] + s, false) == [] + CleanFrom(bs, true);
    assert bs[0] == '\\' && bs[1..] == s;
    assert CleanFrom(bs, true) == "\\" + CleanFrom(s, false);
    assert [] + CleanFrom(bs, true) == CleanFrom(bs, true);
    if c != '\\' {
      var cs := [c] + s;
      assert (['\\', c] + s)[0] == '\\' && (['\\', c] + s)[1..] == cs;
      assert CleanFrom(['\\', c] + s, false) == [] + CleanFrom(cs, true);
      assert cs[0] == c && cs[1..] == s;
      assert [] + CleanFrom(cs, true) == CleanFrom(cs, true);
    }
  }

  /** Doubling every backslash: the escaping `clean_escape` undoes. */
  function EscapeBackslashes(s: string): (r: string)
    ensures |r| >= |s|
    decreases |s|
  {
    if s == [] then []
    else (if s[0] == '\\' then "\\\\" else [s[0]]) + EscapeBackslashes(s[1..])
  }

  lemma {:induction false} CleanUndoesEscape(s: string)
    ensures Cleaned(EscapeBackslashes(s)) == s
    decreases |s|
  {
    if s != [] {
      CleanUndoesEscape(s[1..]);
      var rest := EscapeBackslashes(s[1..]);
      if s[0] == '\\' {
        assert EscapeBackslashes(s) == ['\\', '\\'] + rest;
        EscapedPairs('\\', rest);
      } else {
        assert EscapeBackslashes(s) == [s[0]] + rest;
        assert ([s[0]] + rest)[1..] == rest;
      }
    }
  }

  /** Whether the escape flag is set after reading `s`. */
  function EndsEscaped(s: string, escape: bool): bool
    decreases |s|
  {
    if s == [] then escape
    else EndsEscaped(s[1..], if s[0] == '\\' then !escape else false)
  }

  /** One more backslash at the end: it is kept as an unpaired backslash, or
      it pairs with an unpaired one that was already being kept. */
  lemma {:induction false} TrailingBackslash(s: string, escape: bool)
    ensures CleanFrom(s + ['\\'], escape)
         == if EndsEscaped(s, escape) then CleanFrom(s, escape) else CleanFrom(s, escape) + ['\\']
    decreases |s|
  {
    if s == [] {
      assert [] + ['\\'] == ['\\'];
      assert ['\\'][1..] == [];
    } else {
      assert (s + ['\\'])[0] == s[0] && (s + ['\\'])[1..] == s[1..] + ['\\'];
      var next := if s[0] == '\\' then !escape else false;
      TrailingBackslash(s[1..], next);
    }
  }

  /** Hence the output of text ending in a backslash always ends in one. */
  lemma TrailingBackslashKept(s: string)
    ensures var r := Cleaned(s + ['\\']); r != [] && r[|r| - 1] == '\\'
  {
    TrailingBackslash(s, false);
    if EndsEscaped(s, false) {
      EscapedEndsInBackslash(s, false);
    }
  }

  lemma {:induction false} EscapedEndsInBackslash(s: string, escape: bool)
    requires EndsEscaped(s, escape)
    ensures var r := CleanFrom(s, escape); r != [] && r[|r| - 1] == '\\'
    decreases |s|
  {
    if s != [] {
      EscapedEndsInBackslash(s[1..], if s[0] == '\\' then !escape else false);
    }
  }

  /** A command that does not start with `./` must have a nearest executable:
      the source dereferences `closest`'s result without a check. */
  predicate Locatable(child: AstNode, paths: map<string, string>, order: seq<string>)
    requires IsEnumeration(order, paths)
  {
    child.kind == Command && !StartsWith(child.data, "./") ==>
      var found := ClosestOf(paths, order, child.data); found.Ok? && found.value.Some?
  }

  predicate AllLocatable(children: seq<AstNode>, paths: map<string, string>, order: seq<string>)
    requires IsEnumeration(order, paths)
  {
    forall k :: 0 <= k < |children| ==> Locatable(children[k], paths, order)
  }

  /** The program a command names: the text itself for a local script, else
      the full path of the nearest indexed executable (empty when there is
      none, a case the source leaves undefined). */
  function CommandPath(data: string, paths: map<string, string>, order: seq<string>): string
    requires IsEnumeration(order, paths)
  {
    if StartsWith(data, "./") then data
    else
      match ClosestOf(paths, order, data)
      case Ok(Some((_, path))) => path
      case _ => []
  }

  /** The program each child would launch, were it the command. */
  function Programs(children: seq<AstNode>, paths: map<string, string>, order: seq<string>): (r: seq<string>)
    requires IsEnumeration(order, paths)
    ensures |r| == |children| && forall k :: 0 <= k < |children| ==> r[k] == CommandPath(children[k].data, paths, order)
  {
    seq(|children|, k requires 0 <= k < |children| => CommandPath(children[k].data, paths, order))
  }

  /** The loop body of `ast_to_process` for one child, `program` being what a
      command child launches. */
  function AddChild(proc: Process, child: AstNode, program: string): Process
  {
    var p1 := if child.kind == Assignment then proc.(envp := proc.envp + [child.data]) else proc;
    var p2 := if child.kind == Command then p1.(path := program, argv := p1.argv + [program]) else p1;
    if child.kind == Option then p2.(argv := p2.argv + [Cleaned(child.data)]) else p2
  }

  function Build(children: seq<AstNode>, programs: seq<string>): Process
    requires |programs| == |children|
  {
    if children == [] then EMPTY_PROCESS
    else
      var n := |children| - 1;
      AddChild(Build(children[..n], programs[..n]), children[n], programs[n])
  }

  /** What `ast_to_process` returns. */
  function ProcessOf(tree: AstNode, paths: map<string, string>, order: seq<string>): Result<Process, string>
    requires IsEnumeration(order, paths)
  {
    if tree.kind != Statement then Err(NOT_STATEMENT)
    else Ok(Build(tree.children, Programs(tree.children, paths, order)))
  }

  /** `ast_to_process`. */
  method AstToProcess(tree: AstNode, index: ExecutableIndex, order: seq<string>) returns (r: Result<Process, string>)
    requires IsEnumeration(order, index.paths)
    requires tree.kind == Statement ==> AllLocatable(tree.children, index.paths, order)
    ensures r == ProcessOf(tree, index.paths, order)
  {
    if tree.kind != Statement {
      return Err(NOT_STATEMENT);
    }
    var proc := EMPTY_PROCESS;
    var children := tree.children;
    ghost var programs := Programs(children, index.paths, order);
    for i := 0 to |children|
      invariant proc == Build(children[..i], programs[..i])
    {
      var child := children[i];
      assert children[..i + 1][..i] == children[..i] && programs[..i + 1][..i] == programs[..i];
      if child.kind == Assignment {
        proc := proc.(envp := proc.envp + [child.data]);
      }
      if child.kind == Command {
        if StartsWith(child.data, "./") {
          proc := proc.(path := child.data);
        } else {
          assert Locatable(children[i], index.paths, order);
          var found := index.Closest(child.data, order);
          proc := proc.(path := found.value.value.1);
        }
        proc := proc.(argv := proc.argv + [proc.path]);
      }
      if child.kind == Option {
        var cleaned := CleanEscape(child.data);
        proc := proc.(argv := proc.argv + [cleaned]);
      }
    }
    assert children[..|children|] == children && programs[..|children|] == programs;
    return Ok(proc);
  }

  function Datas(nodes: seq<AstNode>): (r: seq<string>)
    ensures |r| == |nodes| && forall k :: 0 <= k < |nodes| ==> r[k] == nodes[k].data
  {
    seq(|nodes|, k requires 0 <= k < |nodes| => nodes[k].data)
  }

  function CleanedDatas(nodes: seq<AstNode>): (r: seq<string>)
    ensures |r| == |nodes| && forall k :: 0 <= k < |nodes| ==> r[k] == Cleaned(nodes[k].data)
  {
    seq(|nodes|, k requires 0 <= k < |nodes| => Cleaned(nodes[k].data))
  }

  lemma BuildLast(children: seq<AstNode>, programs: seq<string>, k: nat)
    requires |programs| == |children| && 0 < k <= |children|
    ensures Build(children[..k], programs[..k])
         == AddChild(Build(children[..k - 1], programs[..k - 1]), children[k - 1], programs[k - 1])
  {
    assert children[..k][..k - 1] == children[..k - 1];
    assert programs[..k][..k - 1] == programs[..k - 1];
  }

  /** Before the command: each assignment's text joins `envp`, in order. */
  lemma {:induction false} BuildAssignments(children: seq<AstNode>, programs: seq<string>, k: nat)
    requires |programs| == |children| && k <= |children|
    requires forall j :: 0 <= j < k ==> children[j].kind == Assignment
    ensures Build(children[..k], programs[..k]) == Process(Datas(children[..k]), [], [])
  {
    if k > 0 {
      BuildLast(children, programs, k);
      BuildAssignments(children, programs, k - 1);
      assert Datas(children[..k]) == Datas(children[..k - 1]) + [children[k - 1].data];
    }
  }

  lemma CleanedDatasSnoc(nodes: seq<AstNode>, lo: nat, hi: nat)
    requires lo <= hi < |nodes|
    ensures CleanedDatas(nodes[lo..hi + 1]) == CleanedDatas(nodes[lo..hi]) + [Cleaned(nodes[hi].data)]
  {
  }

  /** An option child adds its cleaned text to `argv` and nothing else. */
  lemma BuildOption(children: seq<AstNode>, programs: seq<string>, k: nat)
    requires |programs| == |children| && 0 < k <= |children| && children[k - 1].kind == Option
    ensures var prev := Build(children[..k - 1], programs[..k - 1]);
      Build(children[..k], programs[..k]) == prev.(argv := prev.argv + [Cleaned(children[k - 1].data)])
  {
    BuildLast(children, programs, k);
  }

  /** Each option after the command adds its cleaned text to `argv`. */
  lemma {:induction false} BuildOptionsFrom(children: seq<AstNode>, programs: seq<string>, c: nat, k: nat)
    requires |programs| == |children| && c < k <= |children|
    requires forall j :: c < j < |children| ==> children[j].kind == Option
    ensures var base := Build(children[..c + 1], programs[..c + 1]);
      Build(children[..k], programs[..k]) == base.(argv := base.argv + CleanedDatas(children[c + 1..k]))
  {
    var base := Build(children[..c + 1], programs[..c + 1]);
    if k == c + 1 {
      assert CleanedDatas(children[c + 1..k]) == [];
      assert base.argv + [] == base.argv;
      assert base.(argv := base.argv) == base;
    } else {
      BuildOptionsFrom(children, programs, c, k - 1);
      OptionsStep(children, programs, base, c, k);
    }
  }

  lemma OptionsStep(children: seq<AstNode>, programs: seq<string>, base: Process, c: nat, k: nat)
    requires |programs| == |children| && c + 1 < k <= |children| && children[k - 1].kind == Option
    requires Build(children[..k - 1], programs[..k - 1]) == base.(argv := base.argv + CleanedDatas(children[c + 1..k - 1]))
    ensures Build(children[..k], programs[..k]) == base.(argv := base.argv + CleanedDatas(children[c + 1..k]))
  {
    BuildOption(children, programs, k);
    var last := Cleaned(children[k - 1].data);
    var before := CleanedDatas(children[c + 1..k - 1]);
    CleanedDatasSnoc(children, c + 1, k - 1);
    assert (base.argv + before) + [last] == base.argv + (before + [last]);
  }

  /** After the command: the assignments before it make `envp`, its program is
      `path` and the first of `argv`, and each option's cleaned text follows. */
  lemma BuildOptions(children: seq<AstNode>, programs: seq<string>, c: nat)
    requires |programs| == |children| && c < |children| && children[c].kind == Command
    requires forall j :: 0 <= j < c ==> children[j].kind == Assignment
    requires forall j :: c < j < |children| ==> children[j].kind == Option
    ensures Build(children, programs)
         == Process(Datas(children[..c]), programs[c], [programs[c]] + CleanedDatas(children[c + 1..]))
  {
    var n := |children|;
    BuildThroughCommand(children, programs, c);
    BuildOptionsFrom(children, programs, c, n);
    assert children[..n] == children && programs[..n] == programs;
    assert children[c + 1..n] == children[c + 1..];
  }

  /** Up to and including the command: `envp` from the assignments, and the
      command's program as `path` and first argument. */
  lemma BuildThroughCommand(children: seq<AstNode>, programs: seq<string>, c: nat)
    requires |programs| == |children| && c < |children| && children[c].kind == Command
    requires forall j :: 0 <= j < c ==> children[j].kind == Assignment
    ensures Build(children[..c + 1], programs[..c + 1]) == Process(Datas(children[..c]), programs[c], [programs[c]])
  {
    BuildLast(children, programs, c + 1);
    BuildAssignments(children, programs, c);
  }

  /** For a tree the parser built: the assignments before the command make
      `envp`, the command's program is `path` and the first of `argv`, and the
      cleaned options after it follow; without a command nothing is launched
      and `envp` holds every assignment. */
  lemma ParsedProcess(tree: AstNode, found: bool, paths: map<string, string>, order: seq<string>)
    requires IsEnumeration(order, paths)
    requires tree.kind == Statement && Parser.Shaped(tree.children, found)
    ensures !found ==> ProcessOf(tree, paths, order) == Ok(Process(Datas(tree.children), [], []))
    ensures found ==> exists c :: (0 <= c < |tree.children| && tree.children[c].kind == Command
      && var path := CommandPath(tree.children[c].data, paths, order);
         ProcessOf(tree, paths, order)
           == Ok(Process(Datas(tree.children[..c]), path, [path] + CleanedDatas(tree.children[c + 1..]))))
  {
    var children := tree.children;
    var programs := Programs(children, paths, order);
    if !found {
      BuildAssignments(children, programs, |children|);
      assert children[..|children|] == children && programs[..|children|] == programs;
    } else {
      var c :| 0 <= c < |children| && children[c].kind == Command
        && (forall k :: 0 <= k < c ==> children[k].kind == Assignment)
        && (forall k :: c < k < |children| ==> children[k].kind == Option);
      BuildOptions(children, programs, c);
    }
  }

  /** `e` is the text of some assignment child. */
  predicate AssignmentText(children: seq<AstNode>, e: string)
  {
    exists k :: 0 <= k < |children| && children[k].kind == Assignment && children[k].data == e
  }

  /** `envp` holds only the text of assignment children. */
  lemma {:induction false} BuildEnvpFromAssignments(children: seq<AstNode>, programs: seq<string>)
    requires |programs| == |children|
    ensures forall i :: 0 <= i < |Build(children, programs).envp| ==>
              AssignmentText(children, Build(children, programs).envp[i])
    decreases |children|
  {
    if children != [] {
      var n := |children| - 1;
      BuildEnvpFromAssignments(children[..n], programs[..n]);
      var prev := Build(children[..n], programs[..n]).envp;
      var envp := Build(children, programs).envp;
      assert envp == prev + (if children[n].kind == Assignment then [children[n].data] else []);
      forall i | 0 <= i < |envp|
        ensures AssignmentText(children, envp[i])
      {
        if i < |prev| {
          assert AssignmentText(children[..n], prev[i]);
          var k :| 0 <= k < n && children[..n][k].kind == Assignment && children[..n][k].data == prev[i];
          assert children[k] == children[..n][k];
        } else {
          assert children[n].data == envp[i];
        }
      }
    }
  }

  /** As written, the assignment text never reaches `envp`: the parser leaves
      assignment nodes without text, so every entry the interpreter copies is
      empty (`A=1 ls` launches `ls` with an `envp` of one empty string). */
  lemma ParsedEnvpEmpty(tokens: seq<Token>, inside: nat, paths: map<string, string>, order: seq<string>)
    requires inside <= 2 && IsEnumeration(order, paths)
    ensures var root := Parser.ParseAll(tokens, inside).root;
      && ProcessOf(root, paths, order).Ok?
      && forall i :: 0 <= i < |ProcessOf(root, paths, order).value.envp| ==> ProcessOf(root, paths, order).value.envp[i] == []
  {
    Parser.ParseAllShape(tokens, inside);
    Parser.ParseAllBare(tokens, inside);
    BareEnvp(Parser.ParseAll(tokens, inside).root, paths, order);
  }

  lemma BareEnvp(root: AstNode, paths: map<string, string>, order: seq<string>)
    requires IsEnumeration(order, paths)
    requires root.kind == Statement && Parser.BareAssignments(root.children)
    ensures ProcessOf(root, paths, order).Ok?
    ensures forall i :: 0 <= i < |ProcessOf(root, paths, order).value.envp| ==> ProcessOf(root, paths, order).value.envp[i] == []
  {
    var envp := ProcessOf(root, paths, order).value.envp;
    BuildEnvpFromAssignments(root.children, Programs(root.children, paths, order));
    assert envp == Build(root.children, Programs(root.children, paths, order)).envp;
    forall i | 0 <= i < |envp|
      ensures envp[i] == []
    {
      assert AssignmentText(root.children, envp[i]);
    }
  }

  /** The `envp` entry an assignment evidently should give: its key, `=`, and
      its value. */
  function EnvEntry(node: AstNode): string
  {
    if |node.children| == 2 then node.children[0].data + "=" + node.children[1].data else node.data
  }

  /** Corrected, the entry of a parsed assignment is the assignment's own text. */
  lemma AssignmentEntry(token: Token, parent: AstNode)
    requires AssignmentParser.ParseAssignment(token, parent).0
    ensures EnvEntry(AssignmentParser.ParseAssignment(token, parent).1.children[|parent.children|]) == token.data
  {
    AssignmentParser.AssignmentNode(token, parent);
  }

  /** The program of a command is the local script itself or the indexed
      executable of exactly that name. */
  predicate ResolvedPath(data: string, paths: map<string, string>, order: seq<string>)
    requires IsEnumeration(order, paths)
  {
    if StartsWith(data, "./") then CommandPath(data, paths, order) == data
    else
      var found := ClosestOf(paths, order, data);
      && found.Ok? && found.value.Some?
      && data in paths && CommandPath(data, paths, order) == paths[data]
  }

  lemma {:induction false} AllResolvedEach(nodes: seq<AstNode>, ctx: Parser.Context, k: nat)
    requires Parser.AllResolved(nodes, ctx) && k < |nodes|
    ensures Parser.Resolved(nodes[k], ctx)
    decreases k
  {
    if k > 0 {
      assert nodes[1..][k - 1] == nodes[k];
      AllResolvedEach(nodes[1..], ctx, k - 1);
    }
  }

  /** After the tree verifier has passed, every command can be located, and
      the program launched is exactly the indexed executable of that name (or
      the local script itself): the nearest-name search finds the name. */
  lemma ResolvedPaths(tree: AstNode, ctx: Parser.Context)
    requires Parser.ValidContext(ctx) && Parser.AllResolved(tree.children, ctx)
    requires forall k :: 0 <= k < |tree.children| ==> |tree.children[k].data| + 2 < SIZE_MAX
    ensures AllLocatable(tree.children, ctx.paths, ctx.order)
    ensures forall k :: 0 <= k < |tree.children| && tree.children[k].kind == Command ==>
      ResolvedPath(tree.children[k].data, ctx.paths, ctx.order)
  {
    forall k | 0 <= k < |tree.children|
      ensures Locatable(tree.children[k], ctx.paths, ctx.order)
      ensures tree.children[k].kind == Command ==> ResolvedPath(tree.children[k].data, ctx.paths, ctx.order)
    {
      var child := tree.children[k];
      AllResolvedEach(tree.children, ctx, k);
      if child.kind == Command && !StartsWith(child.data, "./") {
        ClosestOfSpec(ctx.paths, ctx.order, child.data, 2);
      }
    }
  }
}
