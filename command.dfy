/** The command classifier and the command check (`src/parser/command.cc`). */
module CommandParser {
  import opened Wrappers
  import opened Text
  import opened Diagnostics
  import opened Tokens
  import opened Ast
  import opened ParserShared
  import opened EditDistance
  import opened Executables

  /** Where `is_command` starts checking: 1 for a `./` name, else 0. */
  function LocalStart(data: string): (k: nat)
    ensures k == 1 <==> StartsWith(data, "./")
    ensures k <= 1
  {
    if StartsWith(data, "./") then 1 else 0
  }

  /** The test `is_command` applies to the character at `i`: an identifier
      character (`-` allowed), a `/` in a local name, or a reserved character
      right after a backslash. */
  predicate CommandCharOk(data: string, i: nat)
    requires i < |data|
  {
    || IsIdentifierChar(data[i])
    || (LocalStart(data) != 0 && data[i] == '/')
    || (i > 0 && IsReserved(data[i]) && data[i - 1] == '\\')
  }

  /** `is_command`. */
  predicate IsCommand(data: string)
  {
    data != [] && forall i :: LocalStart(data) <= i < |data| ==> CommandCharOk(data, i)
  }

  /** A `.` anywhere `is_command` looks rejects the name: `.` is neither an
      identifier character nor reserved. */
  lemma DotRejects(data: string, i: nat)
    requires LocalStart(data) <= i < |data| && data[i] == '.'
    ensures !IsCommand(data)
  {
    assert !CommandCharOk(data, i);
  }

  /** So a local script with an extension is not a command. */
  lemma LocalScriptRejected()
    ensures !IsCommand("./a.sh")
  {
    var s := "./a.sh";
    assert StartsWith(s, "./") && s[3] == '.';
    DotRejects(s, 3);
  }

  /** A reserved character is accepted right after a backslash, and nowhere
      else in a name without the `./` prefix. */
  lemma ReservedNeedsBackslash(data: string, i: nat)
    requires !StartsWith(data, "./") && i < |data| && IsReserved(data[i])
    ensures CommandCharOk(data, i) <==> i > 0 && data[i - 1] == '\\'
  {
  }

  /** `impl::command`: a taken token becomes one command node carrying the
      token's text and source. */
  function ParseCommand(token: Token, parent: AstNode): (r: (bool, AstNode))
    ensures r.0 <==> IsCommand(token.data)
    ensures !r.0 ==> r.1 == parent
    ensures r.0 ==>
              && r.1 == parent.(children := r.1.children)
              && r.1.children == parent.children + [AstNode(Command, token.data, token.source, [])]
  {
    if !IsCommand(token.data) then (false, parent)
    else
      var node := NewNode().(kind := Command).(source := token.source).(data := token.data);
      (true, parent.(children := parent.children + [node]))
  }

  // ---------------------------------------------------------------------
  // find_closest_path

  /** `std::filesystem::path::filename` for a `/`-separated path: the text
      after the last `/`, empty when the path ends in `/`. */
  function FileName(p: string): string
  {
    if p == [] then []
    else if p[|p| - 1] == '/' then []
    else FileName(p[..|p| - 1]) + [p[|p| - 1]]
  }

  /** The file name is the longest suffix of the path without a `/`. */
  lemma {:induction false} FileNameSpec(p: string)
    ensures var f := FileName(p);
      && |f| <= |p| && p[|p| - |f|..] == f
      && '/' !in f
      && (|f| < |p| ==> p[|p| - |f| - 1] == '/')
  {
    if p != [] && p[|p| - 1] != '/' {
      var init := p[..|p| - 1];
      FileNameSpec(init);
      var f := FileName(init);
      assert init[|init| - |f|..] == f;
      assert p[|p| - 1 - |f|..] == f + [p[|p| - 1]];
      if |f| < |init| {
        assert p[|p| - |f| - 2] == init[|init| - |f| - 1];
      }
    }
  }

  /** The file names of the candidates, in order. */
  function FileNames(paths: seq<string>): (names: seq<string>)
    ensures |names| == |paths| && forall j :: 0 <= j < |paths| ==> names[j] == FileName(paths[j])
  {
    seq(|paths|, j requires 0 <= j < |paths| => FileName(paths[j]))
  }

  /** The candidate scan over file names, without the early exit: the first
      name of least distance to `target`, and that distance; an empty name
      and `SIZE_MAX` when no name is nearer than `SIZE_MAX`. */
  function NearestName(names: seq<string>, target: string): (r: (string, nat))
    ensures r.1 <= SIZE_MAX
  {
    if names == [] then ([], SIZE_MAX)
    else
      var n := |names| - 1;
      var (closest, smallest) := NearestName(names[..n], target);
      var dist := Distance(names[n], target);
      if dist < smallest then (names[n], dist) else (closest, smallest)
  }

  /** After a distance of 0 nothing is strictly nearer, so the early exit of
      `find_closest_path` does not change its result. */
  lemma {:induction false} NearestNameStaysAtZero(names: seq<string>, k: nat, target: string)
    requires k <= |names| && NearestName(names[..k], target).1 == 0
    ensures NearestName(names, target) == NearestName(names[..k], target)
    decreases |names| - k
  {
    if k < |names| {
      assert names[..k + 1][..k] == names[..k];
      NearestNameStaysAtZero(names, k + 1, target);
    } else {
      assert names[..k] == names;
    }
  }

  /** `find_closest_path`: compares the candidates' file names with the
      target's, and stops at the first exact match. */
  method FindClosestPath(paths: seq<string>, target: string) returns (closest: string, smallest: nat)
    ensures (closest, smallest) == NearestName(FileNames(paths), FileName(target))
  {
    ghost var names := FileNames(paths);
    var goal := FileName(target);
    smallest := SIZE_MAX;
    closest := [];
    var i := 0;
    while i < |paths|
      invariant 0 <= i <= |paths|
      invariant (closest, smallest) == NearestName(names[..i], goal)
    {
      var filename := FileName(paths[i]);
      assert filename == names[i];
      assert names[..i + 1][..i] == names[..i];
      var dist := DamerauLevenshteinOsa(filename, goal);
      if dist < smallest {
        closest := filename;
        smallest := dist;
      }
      if dist == 0 {
        NearestNameStaysAtZero(names, i + 1, goal);
        return;
      }
      i := i + 1;
    }
    assert names[..i] == names;
  }

  /** What `find_closest_path` finds: `(empty, SIZE_MAX)` for no candidates;
      otherwise, when names are shorter than `SIZE_MAX`, a candidate name whose
      distance is the result, no candidate nearer, and every candidate before
      it strictly farther. */
  lemma {:induction false} NearestNameSpec(names: seq<string>, target: string)
    requires |target| < SIZE_MAX
    requires forall j :: 0 <= j < |names| ==> |names[j]| < SIZE_MAX
    ensures names == [] ==> NearestName(names, target) == ([], SIZE_MAX)
    ensures names != [] ==>
              var (closest, smallest) := NearestName(names, target);
              exists idx :: 0 <= idx < |names| && closest == names[idx]
                && smallest == Distance(names[idx], target)
                && (forall j :: 0 <= j < |names| ==> smallest <= Distance(names[j], target))
                && (forall j :: 0 <= j < idx ==> smallest < Distance(names[j], target))
    decreases |names|
  {
    if names != [] {
      var n := |names| - 1;
      var init := names[..n];
      assert forall j :: 0 <= j < n ==> init[j] == names[j];
      NearestNameSpec(init, target);
      DistanceBounds(names[n], target);
      var (c0, s0) := NearestName(init, target);
      if init != [] {
        var idx :| 0 <= idx < n && c0 == init[idx]
                && s0 == Distance(init[idx], target)
                && (forall j :: 0 <= j < n ==> s0 <= Distance(init[j], target))
                && (forall j :: 0 <= j < idx ==> s0 < Distance(init[j], target));
        if Distance(names[n], target) >= s0 {
          assert names[idx] == init[idx];
        }
      }
    }
  }

  // ---------------------------------------------------------------------
  // verify_command

  const PARSER_DOMAIN: string := "cchell::parser"

  /** The diagnostic for a command that does not exist: an error at the node,
      as long as its text. */
  function NotExist(node: AstNode): Diagnostic
  {
    Diagnostic(Error, "command '" + node.data + "' doesn't exist",
               "consider fixing $PATH or installing the program",
               PARSER_DOMAIN, node.source, |node.data|)
  }

  /** `impl::verify_command`, over the index `paths` in iteration order
      `order`, with the user's answer to the suggestion prompt and the verdict
      of the file-system check for `./` names supplied: the diagnostic (or the
      exception `closest` throws), and the node afterwards. */
  function CommandDecision(node: AstNode, paths: map<string, string>, order: seq<string>, answer: char,
                           pathCheck: string -> Option<Diagnostic>): (Result<Option<Diagnostic>, string>, AstNode)
    requires IsEnumeration(order, paths)
  {
    if StartsWith(node.data, "./") then (Ok(pathCheck(node.data)), node)
    else if node.data in paths then (Ok(None), node)
    else
      match ClosestOf(paths, order, node.data)
      case Err(e) => (Err(e), node)
      case Ok(None) => (Ok(Some(NotExist(node))), node)
      case Ok(Some((name, _))) =>
        if answer == 'y' then (Ok(None), node.(data := name))
        else (Ok(Some(NotExist(node))), node)
  }

  /** `impl::verify_command` as the source runs it: `exists`, then `closest`,
      then the prompt. */
  method VerifyCommand(node: AstNode, index: ExecutableIndex, order: seq<string>, answer: char,
                       pathCheck: string -> Option<Diagnostic>)
    returns (r: Result<Option<Diagnostic>, string>, out: AstNode)
    requires IsEnumeration(order, index.paths)
    ensures (r, out) == CommandDecision(node, index.paths, order, answer, pathCheck)
  {
    out := node;
    if StartsWith(node.data, "./") {
      return Ok(pathCheck(node.data)), out;
    }
    if index.Exists(node.data) {
      return Ok(None), out;
    }
    var closest := index.Closest(node.data, order);
    if closest.Err? {
      return Err(closest.error), out;
    }
    if closest.value.None? {
      return Ok(Some(NotExist(node))), out;
    }
    if answer == 'y' {
      out := node.(data := closest.value.value.0);
      return Ok(None), out;
    }
    return Ok(Some(NotExist(node))), out;
  }

  /** The decision procedure: a `./` name is the file-system check's; an
      indexed name passes untouched; with an empty index `closest` throws;
      otherwise the check passes exactly when the answer is `y` and some
      indexed name within 2 characters of length lies within distance 2, and
      then the node's text becomes the nearest such name (the first nearest in
      `order`); in every other case the result is the "doesn't exist" error
      for the node, which is left as it was. Only the text can change. */
  lemma CommandDecisionSpec(node: AstNode, paths: map<string, string>, order: seq<string>, answer: char,
                            pathCheck: string -> Option<Diagnostic>)
    requires IsEnumeration(order, paths) && |node.data| + 2 < SIZE_MAX
    ensures var (r, out) := CommandDecision(node, paths, order, answer, pathCheck);
      && out == node.(data := out.data)
      && (StartsWith(node.data, "./") ==> r == Ok(pathCheck(node.data)) && out == node)
      && (!StartsWith(node.data, "./") ==>
            && (node.data in paths ==> r == Ok(None) && out == node)
            && (node.data !in paths && paths == map[] ==> r == Err("no executables indexed"))
            && (node.data !in paths && paths != map[] ==>
                  && r.Ok?
                  && (r.value.None? <==>
                        answer == 'y' && exists c :: c in paths && LengthEligible(c, node.data) && Distance(node.data, c) <= 2)
                  && (r.value.None? ==>
                        && out.data in paths && LengthEligible(out.data, node.data) && Distance(node.data, out.data) <= 2
                        && forall c :: c in paths && LengthEligible(c, node.data) ==> Distance(node.data, out.data) <= Distance(node.data, c))
                  && (r.value.Some? ==> r.value.value == NotExist(node) && out == node)))
  {
    ClosestOfSpec(paths, order, node.data, 2);
  }
}
