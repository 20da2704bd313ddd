/** The quoted-string classifier (`src/parser/string.cc`), whose state is a
    counter kept at file level and so shared by every `parse` call. */
module StringParser {
  import opened Tokens
  import opened Ast

  /** `impl::string` on counter value `inside`: whether the token was taken,
      the parent afterwards, and the new counter (an 8-bit value). */
  function StringStep(inside: nat, token: Token, parent: AstNode): (r: (bool, AstNode, nat))
    requires inside < 256
    ensures r.2 < 256
  {
    if inside == 0 && token.kind != Quote then (false, parent, inside)
    else if inside == 0 then (true, parent, inside + 1)
    else if inside == 2 then (true, parent, 0)
    else
      var node := NewNode().(kind := Option).(source := token.source).(data := token.data);
      (true, parent.(children := parent.children + [node]), (inside + 1) % 256)
  }

  /** The three states: outside a string, a quote just seen, the string's
      text just taken. Each call moves 0 to 1 on a quote (and otherwise
      declines, leaving everything as it was), 1 to 2 taking the token as an
      option node, and 2 back to 0 on any token, closing quote or not, with
      no node. */
  lemma StringStepStates(inside: nat, token: Token, parent: AstNode)
    requires inside <= 2
    ensures var (taken, after, next) := StringStep(inside, token, parent);
      && next <= 2
      && (inside == 0 ==> (taken <==> token.kind == Quote) && after == parent && (next == if taken then 1 else 0))
      && (inside == 1 ==>
            && taken && next == 2
            && after == parent.(children := parent.children + [AstNode(Option, token.data, token.source, [])]))
      && (inside == 2 ==> taken && after == parent && next == 0)
  {
  }

  /** From the resting state, a quote, a word and any third token add exactly
      one option node, holding the word, and leave the counter at rest. */
  lemma QuotedArgument(open: Token, word: Token, close: Token, parent: AstNode)
    requires open.kind == Quote
    ensures var (t1, p1, s1) := StringStep(0, open, parent);
            var (t2, p2, s2) := StringStep(s1, word, p1);
            var (t3, p3, s3) := StringStep(s2, close, p2);
            && t1 && t2 && t3 && s3 == 0
            && p3 == parent.(children := parent.children + [AstNode(Option, word.data, word.source, [])])
  {
  }

  /** The file-level counter `inside_string`. */
  class StringClassifier {
    var insideString: nat

    /** The counter only ever holds 0, 1 or 2. */
    predicate Valid()
      reads this
    {
      insideString <= 2
    }

    /** Program start: the counter is zero-initialised. */
    constructor ()
      ensures Valid() && insideString == 0
    {
      insideString := 0;
    }

    /** `impl::string`. */
    method Classify(token: Token, parent: AstNode) returns (taken: bool, after: AstNode)
      requires Valid()
      modifies this
      ensures Valid()
      ensures (taken, after, insideString) == StringStep(old(insideString), token, parent)
    {
      after := parent;
      if insideString == 0 && token.kind != Quote {
        return false, after;
      }
      if insideString == 0 {
        insideString := insideString + 1;
        return true, after;
      }
      if insideString == 2 {
        insideString := 0;
        return true, after;
      }
      after := parent.(children := parent.children + [NewNode().(kind := Option).(source := token.source).(data := token.data)]);
      insideString := insideString + 1;
      return true, after;
    }
  }
}
