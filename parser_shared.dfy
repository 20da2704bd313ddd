/** The helpers every token classifier of the parser shares
    (`src/parser/shared.cc`). */
module ParserShared {
  import opened Text
  import opened Diagnostics
  import opened Ast

  /** `RESERVED_CHAR`: the characters a command name may hold only right after
      a backslash. */
  const RESERVED_CHAR: string := "\"'`(){}[]<>/$|"

  predicate IsReserved(c: char)
  {
    match c
    case '"' | '\'' | '`' | '(' | ')' | '{' | '}' | '[' | ']' | '<' | '>' | '/' | '$' | '|' => true
    case _ => false
  }

  lemma IsReservedIsMembership(c: char)
    ensures IsReserved(c) <==> c in RESERVED_CHAR
  {
    var r := RESERVED_CHAR;
    assert r == ['"', '\'', '`', '(', ')', '{', '}', '[', ']', '<', '>', '/', '$', '|'];
  }

  /** `is_identifier_start`. */
  predicate IsIdentifierStart(c: char, isOption: bool := true)
  {
    IsAlpha(c) || c == '_' || (isOption && c == '-')
  }

  /** `is_identifier_char`. */
  predicate IsIdentifierChar(c: char, isOption: bool := true)
  {
    IsAlnum(c) || c == '_' || c == '=' || c == '\\' || (isOption && c == '-')
  }

  /** How many times `c` occurs in `s` (`std::ranges::count`). */
  function Count(s: string, c: char): (n: nat)
    ensures n <= |s|
    ensures n == 0 <==> c !in s
  {
    if s == [] then 0 else (if s[0] == c then 1 else 0) + Count(s[1..], c)
  }

  /** `data.substr(0, column - 1)` with `column - 1` computed in `size_t`: a
      column of 0 wraps to the largest count, which keeps the whole text. */
  function KeyPart(data: string, column: nat): (key: string)
    requires column <= |data|
    ensures column >= 1 ==> key == data[..column - 1]
    ensures column == 0 ==> key == data
  {
    data[..if column == 0 then |data| else column - 1]
  }

  /** `split_key_value`: appends to `parent`'s children a key node holding the
      text before column `valueSource.column - 1` and a value node holding the
      text from column `valueSource.column` on, with the given kinds and
      sources. `substr` throws when the column lies past the end of the text;
      every caller passes the column just after an `=` of the text. */
  function SplitKeyValue(data: string, parent: AstNode, keyType: AstType, valueType: AstType,
                         keySource: SourceLocation, valueSource: SourceLocation): (r: AstNode)
    requires valueSource.column <= |data|
    ensures r.kind == parent.kind && r.data == parent.data && r.source == parent.source
    ensures |r.children| == |parent.children| + 2
    ensures r.children[..|parent.children|] == parent.children
    ensures var key := r.children[|parent.children|];
            key.kind == keyType && key.source == keySource && key.children == []
    ensures var value := r.children[|parent.children| + 1];
            value.kind == valueType && value.source == valueSource && value.children == []
            && value.data == data[valueSource.column..]
    ensures valueSource.column >= 1 ==>
              r.children[|parent.children|].data + [data[valueSource.column - 1]] + r.children[|parent.children| + 1].data == data
  {
    var key := NewNode().(kind := keyType).(source := keySource).(data := KeyPart(data, valueSource.column));
    var value := NewNode().(kind := valueType).(source := valueSource).(data := data[valueSource.column..]);
    var c := valueSource.column;
    assert c >= 1 ==> data[..c - 1] + [data[c - 1]] + data[c..] == data by {
      if c >= 1 {
        assert data[..c - 1] + [data[c - 1]] == data[..c];
      }
    }
    parent.(children := parent.children + [key, value])
  }
}
