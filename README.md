# cchell front end in Dafny

This project models the front end of cchell, a small interactive command shell
written in C++. A command line goes through these stages:

- The **lexer** cuts the line into `word`, `bracket`, `quote`, `pipe`, `dollar`
  and `none` tokens, each with a line and column.
- The **token verifier** matches brackets and quotes.
- The **parser** builds a flat abstract syntax tree from the tokens. It uses
  four classifiers: assignment, command, quoted string and option.
- The **tree verifier** checks each command against the **executable index**.
  The index maps program names to paths, and a near miss is looked up with an
  optimal-string-alignment edit distance.
- The **interpreter hand-off** turns the tree into a `{path, argv, envp}`
  process record.

Around that pipeline the project also models:

- the **diagnostics** record, its builder and its renderer;
- the **colour and cursor serialisers**, which emit ECMA-48 control sequences;
- the two **AST tree printers**;
- the byte-at-a-time **terminal key decoder**;
- the command-line `--` hand-off and the environment table filled at start-up.

The pure parts are functions on datatypes. The parts the source writes as loops
over mutable state are methods, each proved against a specification function:

- the edit-distance table;
- the ANSI colour formatter;
- the index build;
- the backslash counter;
- the lexer loop;
- the bracket matcher;
- the renderer;
- the nearest-path search;
- the escape cleaner;
- `--` joining;
- environment filling;
- the key decoder.

State that the source keeps in objects is held in classes:

- `DiagnosticBuilder`;
- the renderer's buffer and padding;
- the executable index;
- the quoted-string counter;
- the terminal decoder's hidden statics;
- the global environment.

The order in which `std::unordered_map` iterates is not fixed, so it is a
parameter: `order`, a sequence listing every key of the map once.

## Model

| member | source | states |
|---|---|---|
| EditDistance.DamerauLevenshteinOsa | src/shared.cc:27-65 | the rolling-row table computes exactly the recursive optimal-string-alignment distance `Distance(a, b)` |
| EditDistance.DistanceToEmpty | src/shared.cc:34-35 | the distance to or from the empty string is the other string's length |
| EditDistance.CellBounds | src/shared.cc:50-56 | a cell is at most delete+1, insert+1 and substitute (cost 0 on equal characters), at most transposition+1 when the two characters are swapped, and equal to one of these |
| EditDistance.OsaInner | src/shared.cc:44-63 | every inner table entry is the cell rule applied to its up, left, diagonal and two-back diagonal neighbours |
| EditDistance.OsaUpper | src/shared.cc:44-63 | a table entry never exceeds the longer prefix length |
| EditDistance.OsaLower | src/shared.cc:44-63 | a table entry is at least the difference of the prefix lengths |
| EditDistance.DistanceBounds | src/shared.cc:27-65 | the distance lies between the length difference and the longer length |
| EditDistance.OsaZero | src/shared.cc:44-63 | a table entry is 0 exactly when the two prefixes are equal |
| EditDistance.DistanceZeroIff | src/shared.cc:27-65 | the distance is 0 if and only if the strings are equal |
| EditDistance.CellSymmetric | src/shared.cc:50-56 | swapping the strings swaps the insert and delete terms and leaves the cell unchanged |
| EditDistance.OsaSymmetric | src/shared.cc:44-63 | the table is symmetric under exchanging the two strings |
| EditDistance.DistanceSymmetric | src/shared.cc:27-65 | d(a, b) == d(b, a) |
| EditDistance.AdjacentSwap | src/shared.cc:55-56 | swapping two different adjacent characters costs exactly 1 |
| EditDistance.SwapPrefix | src/shared.cc:55-56 | up to a swapped pair, the table entry is at most 1 |
| EditDistance.OsaTail | src/shared.cc:50-53 | when `a[i..]` equals `b[j..]`, the full distance is at most that of the prefixes `a[..i]` and `b[..j]`, whatever their lengths: matched characters cost nothing |
| Executables.Emplace | src/shared.cc:91 | `emplace` adds a key that is absent and leaves a present key's value alone |
| Executables.FirstWinsKeys | src/shared.cc:84-93 | the keys of an index built by repeated `emplace` are exactly the names inserted |
| Executables.FirstWinsFirst | src/shared.cc:91 | on a filename collision the first inserted path is the one kept |
| Executables.Directories | src/shared.cc:73-79 | no empty `$PATH` component is ever searched |
| Executables.NonEmptyKeeps | src/shared.cc:79 | dropping empty components keeps every non-empty one and adds nothing |
| Executables.PathVariable | src/shared.cc:69-71 | an unset `$PATH` is exactly the "$PATH is not defined." error, and a set one is its text |
| Executables.EmplaceExecutables | src/shared.cc:84-93 | inserting one directory's executables extends the first-wins index by that directory's `(filename, canonical path)` pairs |
| Executables.AddDirectory | src/shared.cc:73-93 | an empty component is skipped; otherwise the directory's executables are emplaced after those of the earlier components |
| Executables.ExecutableIndex.constructor | src/shared.cc:67-95 | the index holds the first-wins map of the executables of every non-empty `$PATH` directory, in order |
| Executables.ExecutableIndex.Exists | src/shared.cc:98-102 | `exists(name)` holds if and only if `name` is a key of the index |
| Executables.ScanClosest | src/shared.cc:112-131 | the candidate returned is one of the listed names, and without one the distance stays at SIZE_MAX |
| Executables.ScanClosestSpec | src/shared.cc:117-131 | no candidate is returned exactly when none is within 2 in length; otherwise the one returned is length-eligible, has minimal distance among the eligible, and is the first in order to reach it |
| Executables.ClosestOfSpec | src/shared.cc:105-136 | an empty index fails with "no executables indexed"; a non-empty one returns either an indexed entry with its own path, distance at most `maxDistance` and no eligible entry strictly closer, or nothing when every eligible entry is farther than `maxDistance`; an exact name returns itself |
| Executables.ExecutableIndex.Closest | src/shared.cc:105-136 | the method computes `ClosestOf` on the index with the iteration order given |
| Tokens.TypeName | include/lexer.hh:113-123 | every token type prints with the `token_type::` prefix |
| Tokens.TypeNameInjective | include/lexer.hh:113-123 | the six token types print as six different names |
| Tokens.Escape | include/lexer.hh:142 | `std::quoted` escaping never shortens the text |
| Tokens.Quoted | include/lexer.hh:142 | the quoted form starts and ends with a double quote |
| Tokens.UnescapeEscape | include/lexer.hh:142 | unescaping the escaped text, up to the closing quote, gives the text back |
| Tokens.QuotedRoundTrip | include/lexer.hh:142 | reading a quoted token text back gives the original data |
| Tokens.FormatTokenFields | include/lexer.hh:137-151 | a token prints as its source `line:column`, then its quoted data, then its type name, one field per line in that order |
| Tokens.EscapeKeepsNewlines | include/lexer.hh:142 | escaping adds no newline, so the printed data stays on its own line |
| Tokens.FormatLocationHasNoNewline | include/diagnostic.hh:200-205 | a printed source location is a single line |
| Tokens.TypeNameHasNoNewline | include/lexer.hh:113-123 | a printed type name is a single line |
| Lexer.MatchingOpen | src/lexer.cc:46-55 | there is an opening bracket exactly for `)`, `}` and `]`, and both are punctuation |
| Lexer.PunctTokenType | src/lexer.cc:103-121 | the type is bracket exactly for `()[]{}`, pipe exactly for a bar, dollar exactly for `$`, and never word or quote |
| Lexer.BackslashRun | src/lexer.cc:91-92 | counts exactly the backslashes right before an index |
| Lexer.NextWhitespace | src/lexer.cc:82-98 | for `pos` up to the length (the range `iota(pos, length)` needs), finds the first whitespace at or after `pos` preceded by an even run of backslashes, or none |
| Lexer.CountBackslashes | src/lexer.cc:89-92 | the loop counts the backslash run modulo 256, as the 8-bit counter does |
| Lexer.ParityModulo256 | src/lexer.cc:89-94 | reducing the count modulo 256 keeps its parity, so the 8-bit counter gives the right answer |
| Lexer.FindNextWhitespace | src/lexer.cc:82-98 | the loop returns exactly `NextWhitespace` |
| Lexer.StringTokens | src/lexer.cc:174 | the string tokenizer declines exactly when the character is not a quote |
| Lexer.ClosedQuote | src/lexer.cc:176-211 | a quote with a later matching closer appends Quote, Word (the raw interior) and Quote, and lexing resumes after the closer |
| Lexer.UnclosedQuote | src/lexer.cc:176-185 | an unterminated quote appends Quote and one Word holding the rest of the input |
| Lexer.GetTokensFromString | src/lexer.cc:165-212 | the method's return code 0, 1 or 2 says not-a-quote, closed (with the new state) or unclosed (with the final tokens) |
| Lexer.ScanChar | src/lexer.cc:136-153 | the run start never passes the character just scanned |
| Lexer.WordScan | src/lexer.cc:136-153 | the run start never passes the scanned length |
| Lexer.FirstQuote | src/lexer.cc:136-138 | finds the first quote of a word, or none |
| Lexer.GetTokensFromWord | src/lexer.cc:125-162 | the method emits exactly the word tokens of `WordTokens` and reports the quote's word-relative offset, if any |
| Lexer.NoQuote | src/lexer.cc:136-138 | a word without quotes reports no offset |
| Lexer.FirstQuoteAt | src/lexer.cc:138 | the offset reported is that of the first quote |
| Lexer.WordEnd | src/lexer.cc:260-262 | a word ends between its start and the end of the input; a word starting at the end is empty (the corrected guard, see Findings) |
| Lexer.WordEndIsNextSpace | src/lexer.cc:260-262 | a word ends at the first unescaped whitespace after its start, or at the end of the input when there is none |
| Lexer.WordStart | src/lexer.cc:254-258 | a word pass starts past an unescaped whitespace it steps over, never past the end |
| Lexer.SearchPastEnd | src/lexer.cc:254-260 | as written, the whitespace search starts past the end exactly when the pass steps over an unescaped whitespace that ends the input |
| Lexer.TrailingSpaceEndsWord | src/lexer.cc:254-276 | corrected, a pass over a trailing unescaped whitespace adds no token and lexing ends with the tokens so far |
| Lexer.LsTrailingSpace | src/lexer.cc:254-260 | example: on `ls ` the second pass reaches the word part and searches from index 4 of a 3-character string |
| Lexer.LsTrailingSpaceFixed | src/lexer.cc:216-280 | corrected, `ls ` lexes to the single word `ls` |
| Lexer.ScanWord | src/lexer.cc:254-276 | one pass of the loop over a word gives the next lexer state, with the word offset used as written and the end-of-input search guarded |
| Lexer.Lex | src/lexer.cc:216-280 | within the step budget the loop's result is `Run` of the initial state; no result means the budget ran out |
| Lexer.NewlineStartsLine | src/lexer.cc:231-238 | an unescaped newline starts a new line at column 0 and becomes the line start |
| Lexer.UnclosedQuoteEndsLex | src/lexer.cc:247-252 | an unterminated quote ends lexing at once with the Quote and rest-of-input Word tokens |
| Lexer.FixedStepAdvances | src/lexer.cc:267-273 | with the word offset made absolute, every pass moves the index forward |
| Lexer.FixedRunTerminates | src/lexer.cc:227-277 | with the offset made absolute, lexing always finishes within one pass per input character |
| Lexer.ScanCharCovers | src/lexer.cc:139-152 | each character keeps the emitted tokens a left-to-right cover of the word read so far |
| Lexer.WordScanCovers | src/lexer.cc:136-153 | after the loop, the tokens cover the word up to the pending run, which holds no punctuation |
| Lexer.WordTokensPartition | src/lexer.cc:125-162 | without quotes, a word's tokens concatenate back to the word; each is non-empty, and each is a single punctuation character or a punctuation-free run; every column is the absolute index minus the line start |
| Lexer.EchoWhitespace | src/lexer.cc:82-98 | in `echo "hi"` the space is found and nothing after the first quote is whitespace |
| Lexer.EchoWord | src/lexer.cc:136-159 | the word `echo` becomes one Word token at its column |
| Lexer.QuotedWord | src/lexer.cc:138 | a word starting with a quote yields no token and offset 0 |
| Lexer.EchoFirstPass | src/lexer.cc:254-276 | the first pass over `echo "hi"` emits `echo` and stops at index 4 |
| Lexer.EchoSecondPass | src/lexer.cc:267-271 | the pass at the space moves the index back to 0 as written, and to 5 with the offset made absolute |
| Lexer.EchoQuotedDiverges | src/lexer.cc:267-271 | as written, lexing `echo "hi"` never finishes, whatever the budget |
| Lexer.EchoThirdPass | src/lexer.cc:176-211 | with the offset made absolute, the quote is lexed as Quote, Word `hi`, Quote |
| Lexer.EchoRunFixed | src/lexer.cc:216-280 | with the offset made absolute, `echo "hi"` lexes to its four tokens |
| Lexer.EchoQuotedFixed | src/lexer.cc:216-280 | the corrected lexer gives `echo`, Quote, `hi`, Quote with their columns |
| TokenVerifier.Empty | src/lexer.cc:287-293 | the verifier starts with one empty stack per bracket family and no open quote |
| TokenVerifier.ScanToken | src/lexer.cc:295-327 | one token keeps the three family stacks in place |
| TokenVerifier.ScanAll | src/lexer.cc:295-327 | the scan over all tokens keeps the three family stacks in place |
| TokenVerifier.Verify | src/lexer.cc:283-347 | the method returns exactly `Verdict`, the scan followed by the end-of-input checks |
| TokenVerifier.CheckEnd | src/lexer.cc:329-346 | the end checks report the first non-empty family in iteration order, then an open quote, else nothing |
| TokenVerifier.ScanAllStops | src/lexer.cc:307-313 | the first extra closing bracket decides the result, whatever tokens follow it |
| TokenVerifier.UnclosedStep | src/lexer.cc:301-315 | the unmatched openers of a family, defined by counts alone, move as its stack does: an opener of the family is added last, a closer drops the last one, any other token keeps them |
| TokenVerifier.DepthStep | src/lexer.cc:301-315 | after any token, from each unmatched opener to the end the family's depth is the number of unmatched openers from that one on |
| TokenVerifier.FamilyScanned | src/lexer.cc:301-315 | a family's stack, pushed, popped or kept as the token dictates, stays the list of that family's unmatched openers |
| TokenVerifier.OpenerCounted | src/lexer.cc:301-302 | an opener is accepted, and afterwards every family's stack is still exactly the locations of its unmatched openers, in order |
| TokenVerifier.CloserCounted | src/lexer.cc:304-315 | a closer passes exactly when its family has more openers than closers so far, and then every family's stack is still exactly the locations of its unmatched openers |
| TokenVerifier.CloserKeepsFamilies | src/lexer.cc:304-315 | a closer whose family has an unmatched opener is accepted, and every family's stack stays exactly the locations of its unmatched openers |
| TokenVerifier.OtherCounted | src/lexer.cc:320-326 | a quote toggles the open quote; any other non-bracket token changes nothing |
| TokenVerifier.ScanTokenCounted | src/lexer.cc:295-327 | one token is accepted exactly when it may follow the tokens before it, and keeps the stacks equal to the count of unmatched openers |
| TokenVerifier.ScanAllCounted | src/lexer.cc:295-327 | the scan succeeds if and only if no closer ever outnumbers its family's openers; then each family's stack lists, in order, the locations of the openers that no later run of tokens closes, and the pending quote is the last quote when their number is odd |
| TokenVerifier.ScanAllError | src/lexer.cc:307-313 | a failure reports "extra closing bracket" at the first closer that outnumbers its family's openers |
| TokenVerifier.EndCheckNone | src/lexer.cc:329-346 | the end checks report nothing if and only if every stack is empty and no quote is open |
| TokenVerifier.LastOpen | src/lexer.cc:329-336 | the last listed location is that of the latest unmatched opener |
| TokenVerifier.EndCheckFirst | src/lexer.cc:329-336 | the end checks report the first family in iteration order with a non-empty stack, at its top |
| TokenVerifier.VerdictLastOpen | src/lexer.cc:283-347 | with no extra closer, the first family in iteration order with more openers than closers is reported at the last of its unmatched openers |
| TokenVerifier.VerdictUnclosed | src/lexer.cc:283-347 | with no extra closer, the "unclosed bracket" diagnostic of the first such family points at its latest unmatched opener |
| TokenVerifier.VerdictNone | src/lexer.cc:283-347 | the verifier reports nothing if and only if brackets are nested per family, every family has equal opener and closer counts, and the number of quotes is even |
| TokenVerifier.CrossedOpen | src/lexer.cc:301-302 | after `([`, one opener sits on the paren stack and one on the square stack |
| TokenVerifier.CrossedParen | src/lexer.cc:304-315 | `)` then pops only the paren family |
| TokenVerifier.CrossedClose | src/lexer.cc:295-327 | after `([)]` every stack is empty |
| TokenVerifier.CrossedFamiliesPass | src/lexer.cc:283-347 | the families are independent, so `([)]` passes the verifier |
| Diagnostics.SameLocationIsEquality | include/diagnostic.hh:18-22 | two locations are equal if and only if both line and column are equal |
| Diagnostics.FormatLocationParts | include/diagnostic.hh:200-205 | a location prints as `line:column`: split at `:` it gives the two decimals |
| Diagnostics.FormatLocationInjective | include/diagnostic.hh:200-205 | different locations print differently |
| Diagnostics.SeverityIndex | include/diagnostic.hh:80-85 | error, warning and note index the three tag colours |
| Diagnostics.SeverityIndexInjective | include/diagnostic.hh:80-85 | each severity has its own tag colour slot |
| Diagnostics.DefaultThemeLayout | include/diagnostic.hh:29-77 | the default theme shows 2 extra lines and pads by 5, and its tag colours are the bold red, yellow and blue of error, warning and note |
| Diagnostics.NewDiagnostic | include/diagnostic.hh:88-98 | a new diagnostic has the given level, length 1, empty texts and location 0:0 |
| Diagnostics.DiagnosticBuilder.constructor | src/diagnostic.cc:106 | the builder starts from a new diagnostic of the given level |
| Diagnostics.DiagnosticBuilder.Domain | src/diagnostic.cc:109-115 | `domain` replaces only the domain |
| Diagnostics.DiagnosticBuilder.Source | src/diagnostic.cc:117-123 | `source` replaces only the location |
| Diagnostics.DiagnosticBuilder.Length | src/diagnostic.cc:125-131 | `length` replaces only the length |
| Diagnostics.DiagnosticBuilder.Message | include/diagnostic.hh:156-163 | `message` replaces only the message with the formatted text |
| Diagnostics.DiagnosticBuilder.Annotation | include/diagnostic.hh:166-173 | `annotation` replaces only the annotation with the formatted text |
| Diagnostics.DiagnosticBuilder.Build | src/diagnostic.cc:134-138 | `build` hands out the record built so far |
| Diagnostics.BuildError | src/diagnostic.cc:106-138 | a full builder chain yields exactly the fields it was given, at error level |
| Render.LinesJoin | src/diagnostic.cc:22-49 | the newline-separated pieces join back to the text and contain no newline |
| Render.WindowSpec | src/diagnostic.cc:22-49 | the visible window lists, in order, the pieces numbered from `max(first, n)` to `min(last, n + count - 1)` |
| Render.WindowIsWindowOf | src/diagnostic.cc:22-49 | the window holds exactly the 1-based lines numbered between first and last, in increasing order |
| Render.VisibleLinesSpec | src/diagnostic.cc:22-49 | `get_visible_lines` returns the lines numbered first to last of the text |
| Render.SplitAt | src/diagnostic.cc:52-58 | the two halves concatenate back to the input, and the cut is the index clamped to the length |
| Render.DigitsAmountIsLength | src/diagnostic.cc:61-77 | the digit count is the length of the decimal text, 1 for 0 |
| Render.DigitsAmountMonotone | src/diagnostic.cc:61-77 | a larger number never has fewer digits |
| Render.SeverityToString | src/diagnostic.cc:80-89 | every severity has a non-empty name |
| Render.SeverityToStringInjective | src/diagnostic.cc:80-89 | different severities have different names |
| Render.ColorlessSourceIsOneBased | src/diagnostic.cc:262-269 | the banner `/* at file:L:C */` shows the line and column plus one |
| Render.ColorlessLines | src/diagnostic.cc:196-210 | colourless output is the header line, the indented message, the indented annotation, then the final newline; positions stay 0-based |
| Render.GutterLayout | src/diagnostic.cc:229-260 | the gutter has exactly the line-number width and ends with the line number |
| Render.Pad | src/diagnostic.cc:253 | each row is padded up to the shared padding, and never below zero |
| Render.ErrorLineSplit | src/diagnostic.cc:282-304 | the error line splits at the clamped column and length into left, error and tail parts that concatenate back to it |
| Render.FirstLine | src/diagnostic.cc:161-166 | the window starts at line 1 or later, no later than the error line, and at most `extra_shown_line` before it |
| Render.MaxLen | src/diagnostic.cc:178-179 | the padding loop yields the length of the longest visible line, 0 for none |
| Render.ColoredNumbersFit | src/diagnostic.cc:161-171 | every shown line number fits the gutter width computed from the last line |
| Render.WindowAroundError | src/diagnostic.cc:161-171 | every shown line is within `extra_shown_line` of the error line, and the error line is shown when it exists |
| Render.RowsAligned | src/diagnostic.cc:178-184 | the banner and every shown line are padded to the same width, which leaves room for the right padding and the gutter |
| Render.CaretUnderColumn | src/diagnostic.cc:307-320 | the caret row's indent, gutter width + 3 + column, equals the width of the gutter, the separator and the text left of the error |
| Render.Renderer.constructor | include/diagnostic.hh:106-109 | the renderer starts with an empty buffer, padding 0 and width 0 |
| Render.Renderer.Render | src/diagnostic.cc:141-155 | on a terminal the output is the coloured rendering; otherwise it is the colourless one; either way the buffer and padding are reset first |
| Render.Renderer.RenderHeader | src/diagnostic.cc:213-227 | the header replaces the buffer |
| Render.Renderer.RenderSource | src/diagnostic.cc:272-279 | the banner row is appended without a line number |
| Render.Renderer.RenderLine | src/diagnostic.cc:282-304 | one numbered row is appended, highlighted when it is the error line |
| Render.Renderer.RenderAnnotation | src/diagnostic.cc:307-320 | the caret and annotation rows are appended |
| Render.Renderer.WidestLine | src/diagnostic.cc:178-179 | the loop sets the padding to the longest visible line |
| Render.Renderer.RenderRows | src/diagnostic.cc:188-189 | the loop appends one row per visible line, in order |
| Render.Renderer.RenderColoredSteps | src/diagnostic.cc:157-193 | the step-by-step rendering produces the coloured layout, with its padding and gutter width |
| Render.RenderTwice | src/diagnostic.cc:141-155 | rendering the same diagnostic twice returns the same text |
| Colors.AttrOr | include/color.hh:29-34 | bitwise or keeps every bit of both operands and adds none |
| Colors.AttrAnd | include/color.hh:36-41 | bitwise and keeps exactly the bits the operands share |
| Colors.NewColor | include/color.hh:45-57 | a new colour has the given channels and no attribute |
| Colors.SetAttribute | include/color.hh:59-64 | `set_attribute` replaces the attribute and keeps r, g and b |
| Colors.AddAttribute | include/color.hh:67-72 | `add_attribute` turns the bits on, keeps the other bits and keeps r, g and b |
| Colors.ClearAttribute | include/color.hh:75-80 | `clear_attribuate` turns the bits off, keeps the other bits and keeps r, g and b |
| Colors.ClearUndoesAdd | include/color.hh:67-80 | clearing bits that were just added gives the colour back |
| Colors.SpecText | include/color.hh:128-171 | the spec text ends at the first `}` or the end |
| Colors.SpecTextIs | include/color.hh:128-171 | the spec text is exactly the longest `}`-free prefix |
| Colors.ParseSpecExact | include/color.hh:128-171 | parsing succeeds if and only if the spec text is empty, `ansi`, `ansi_fg`, `ansi_bg` or `hex`, and then it consumes exactly that text |
| Colors.Hex2 | include/color.hh:178-180 | a channel prints as two hex digits |
| Colors.FormatHex | include/color.hh:178-180 | hex mode prints `#` and six digits |
| Colors.HexPairRoundTrip | include/color.hh:178-180 | two uppercase hex digits read back as the channel value |
| Colors.HexRoundTrip | include/color.hh:178-180 | `#RRGGBB` reads back as the three channels |
| Colors.DecimalTexts | include/color.hh:187-192 | each SGR parameter is printed in decimal, in order |
| Colors.Emit | include/color.hh:187-192 | one `emit` extends the `;`-joined parameter text by one decimal parameter and turns `first` off |
| Colors.EmitAll | include/color.hh:199-209 | the sequence of `emit` calls writes exactly the parameters joined by `;` |
| Colors.FormatAnsiSteps | include/color.hh:182-213 | the step-by-step ansi formatter writes exactly `FormatAnsi`, which `Colors.SgrRoundTrip` reads back |
| Colors.AttrCodesToAttr | include/color.hh:199-203 | the attribute codes emitted (1, 2, 4, 5, 7) read back as the attribute bits |
| Colors.FieldValues | include/color.hh:182-213 | each decimal field reads back as its value |
| Colors.DecimalTextsRoundTrip | include/color.hh:182-213 | the printed parameters read back as the parameter list |
| Colors.DecodeSgrCodes | include/color.hh:182-213 | the parameter list reads back as the attributes, the target (38 or 48) and the three channels |
| Colors.SgrRoundTrip | include/color.hh:182-213 | ANSI mode (attribute codes, 38 or 48, 2, r, g, b between `ESC[` and `m`) reads back as the colour and the target |
| Ansi.CursorUp | include/ansi.hh:31-35 | `cursor_up(n)` stores n in `a` and 0 in `b` |
| Ansi.CursorDown | include/ansi.hh:38-42 | `cursor_down(n)` stores n in `a` and 0 in `b` |
| Ansi.CursorLeft | include/ansi.hh:45-49 | `cursor_left(n)` stores n in `a` and 0 in `b` |
| Ansi.CursorRight | include/ansi.hh:52-56 | `cursor_right(n)` stores n in `a` and 0 in `b` |
| Ansi.MoveCursorTo | include/ansi.hh:59-63 | `move_to` stores the row in `a` and the column in `b` |
| Ansi.Simple | include/ansi.hh:66-105 | the other factories leave both operands 0 |
| Ansi.FormatCommand | include/ansi.hh:118-139 | every command prints as a control sequence starting with `ESC[` |
| Ansi.RelativeRoundTrip | include/ansi.hh:128-131 | up, down, right and left print `ESC[{a}A/B/C/D`, which reads back as the command |
| Ansi.MoveToOperands | include/ansi.hh:132-133 | the operands `row;col` read back as the absolute move |
| Ansi.MoveToRoundTrip | include/ansi.hh:132-133 | `ESC[{a};{b}H` reads back as the absolute move |
| Ansi.SimpleRoundTrip | include/ansi.hh:134-139 | the fixed sequences read back as their commands |
| Ansi.CommandRoundTrip | include/ansi.hh:118-139 | every command built by the factories reads back from its printed form |
| Ast.NewNode | include/parser.hh:28-35 | a fresh root is an empty statement at 0:0 |
| Ast.TypeNameRoundTrip | include/parser.hh:93-118 | each kind's lower-case printed name reads back as that kind |
| ParserShared.IsReservedIsMembership | src/parser/shared.cc:15 | a character is reserved if and only if it occurs in `RESERVED_CHAR`: the quotes, the backtick, the brackets, angle brackets, slash, dollar and bar |
| ParserShared.Count | src/parser/assignment.cc:19 | the count of a character is 0 exactly when it is absent |
| ParserShared.KeyPart | src/parser/shared.cc:45 | the key is the data before the character preceding the value column |
| ParserShared.SplitKeyValue | src/parser/shared.cc:36-60 | exactly two children are appended, key then value, with the given kinds and sources; earlier children are kept; key, separator and value rebuild the data |
| AssignmentParser.ParseAssignment | src/parser/assignment.cc:28-48 | a token is taken if and only if it is an assignment with `=`; a rejected token leaves the parent unchanged |
| AssignmentParser.CountAtLeastTwo | src/parser/assignment.cc:19 | two equal characters at different places count at least 2 |
| AssignmentParser.AssignmentNode | src/parser/assignment.cc:36-46 | a taken token appends one Assignment node at its source with empty data; its children are Identifier (text before `=`) and Literal (text after, at column `=`+1) |
| OptionParser.ParseOption | src/parser/option.cc:28-53 | a token is taken if and only if it is an option; a rejected token leaves the parent unchanged |
| OptionParser.OptionNode | src/parser/option.cc:35-50 | a taken token appends one Option node with its data and source; with `=` the node has Identifier and Parameter children (Parameter at column `=`+1), without it none |
| CommandParser.LocalStart | src/parser/command.cc:25 | checking starts at index 1 exactly for a `./` name |
| CommandParser.DotRejects | src/parser/command.cc:27-42 | a `.` after the start rejects the name |
| CommandParser.LocalScriptRejected | src/parser/command.cc:27-42 | `./a.sh` is not a command |
| CommandParser.ReservedNeedsBackslash | src/parser/command.cc:35-36 | outside `./` names, a reserved character is accepted exactly when a backslash precedes it |
| CommandParser.ParseCommand | src/parser/command.cc:201-213 | one Command node with the token's data and source is appended if and only if the token is a command; otherwise the parent is unchanged |
| CommandParser.FileNameSpec | src/parser/command.cc:68 | a file name is the path's last `/`-free component |
| CommandParser.FileNames | src/parser/command.cc:66-70 | each candidate contributes its file name |
| CommandParser.NearestName | src/parser/command.cc:58-82 | the distance returned never exceeds SIZE_MAX |
| CommandParser.NearestNameStaysAtZero | src/parser/command.cc:78 | once distance 0 is reached, later candidates change nothing |
| CommandParser.FindClosestPath | src/parser/command.cc:58-82 | the loop with its early exit computes `NearestName` over the file names |
| CommandParser.NearestNameSpec | src/parser/command.cc:58-82 | with no candidates the result is (empty, SIZE_MAX); otherwise it is the first candidate of minimal distance |
| CommandParser.VerifyCommand | src/parser/command.cc:216-248 | the method computes `CommandDecision` with the index, the answer and the `./` path check as inputs |
| CommandParser.CommandDecisionSpec | src/parser/command.cc:216-248 | a `./` name goes to the path check; an indexed name passes; otherwise the result is none, with the data replaced by a closest indexed name within distance 2, exactly when such a name exists and the answer is `y`; else "command doesn't exist" at the node; only the data may change |
| StringParser.StringStep | src/parser/string.cc:17-43 | the counter stays a byte |
| StringParser.StringStepStates | src/parser/string.cc:17-43 | state 0 takes only a Quote and moves to 1; state 1 appends an Option node with the token and moves to 2; state 2 takes any token and returns to 0 |
| StringParser.QuotedArgument | src/parser/string.cc:17-43 | Quote, word, Quote from state 0 adds one Option holding the word and returns to state 0 |
| StringParser.StringClassifier.constructor | src/parser/string.cc:14 | the counter starts at 0 |
| StringParser.StringClassifier.Classify | src/parser/string.cc:17-43 | one call performs one step of the counter, which persists between calls |
| Parser.ParseStep | src/parser.cc:48-62 | the string counter stays in 0..2 |
| Parser.ParseAll | src/parser.cc:48-62 | the string counter stays in 0..2 over any token list |
| Parser.Parse | src/parser.cc:39-65 | the method builds exactly `ParseAll`'s root, carrying the string counter across calls |
| Parser.ParseStepGrows | src/parser.cc:48-62 | a token adds at most one child, at the end, with its own source; the flag only turns on, and only when a child is added |
| Parser.ShapedBeforeCommand | src/parser.cc:49-57 | before a command, a token adds an assignment, or the command that sets the flag |
| Parser.AfterCommandAddsOption | src/parser.cc:58-62 | after the command, a token adds an Option or nothing |
| Parser.ShapedAfterCommand | src/parser.cc:58-62 | after the command the root keeps its shape |
| Parser.ParseStepShaped | src/parser.cc:48-62 | every token keeps the shape: assignments, then at most one command, then options |
| Parser.ParseAllShape | src/parser.cc:43-62 | the root is an empty statement whose children are assignments, then at most one command (present exactly when the flag is set), then options, one child at most per token |
| Parser.ShapedHasOneCommand | src/parser.cc:46-62 | the root has at most one Command child |
| Parser.StepExtends | src/parser.cc:48-62 | each token only appends to the children |
| Parser.ParseAllExtends | src/parser.cc:46-62 | children appear in token order: the tree of a prefix is a prefix of the tree |
| Parser.VerifyChild | src/parser.cc:68-82 | the method computes `VerifyNode`: children first, then the node's own command check |
| Parser.VerifyTree | src/parser.cc:68-82 | the loop returns the first diagnostic, else none, with the updated children |
| Parser.ClosestIsIndexed | src/shared.cc:126-135 | a closest match is always an indexed name |
| Parser.VerifyNodeSound | src/parser.cc:68-82 | a node that passes has every command resolved, and verification changes only command data |
| Parser.VerifyNodesSound | src/parser.cc:68-82 | a list that passes has every command resolved, with the shape unchanged |
| Parser.VerifyNodeResolved | src/parser.cc:68-82 | a resolved node passes unchanged |
| Parser.VerifyNodesResolved | src/parser.cc:68-82 | a resolved list passes unchanged |
| Parser.VerifyTwice | src/parser.cc:68-82 | verifying a tree that passed again passes and changes nothing |
| TreeFormat.LabelParts | include/parser.hh:156-160 | a node line names its kind, followed by ` "data"` only when the data is non-empty |
| TreeFormat.PlainRowCount | include/parser.hh:144-173 | the printer prints one line per node |
| TreeFormat.PlainRowsPrefixed | include/parser.hh:153-154 | under a non-empty prefix, every line starts with that prefix then a branch |
| TreeFormat.VariantIsPlainBelow | include/formatters.hh:124-156 | under a non-empty prefix the two printers print the same lines |
| TreeFormat.PlainIndent | include/parser.hh:162-172 | a longer prefix only indents every line of a subtree |
| TreeFormat.StatementPrinters | include/formatters.hh:134-147 | on a statement root both printers print one line per node and the same root line, and the variant gives the root's children connectors at an empty prefix, so its other lines are the plain lines without the leading four spaces |
| Terminal.DecodePlain | src/terminal.cc:21-32 | `\r` and `\n` give Enter, `\t` Tab and 0x7F Backspace, and nothing else gives a key |
| Terminal.Modifiers | src/terminal.cc:35-56 | the parameter m from 2 to 8 gives the bits of m - 1 as shift, alt and ctrl; any other gives none |
| Terminal.FinalByte | src/terminal.cc:59-86 | as written, the flags land as (alt, ctrl, shift) = (shift, alt, ctrl) of the modifier |
| Terminal.ShiftReadAsAlt | src/terminal.cc:67-81 | `ESC[1;2A` (Shift+Up) is decoded as Alt+Up |
| Terminal.FinalByteFixed | src/terminal.cc:59-86 | with named flags, each modifier bit lands on its own flag |
| Terminal.Run | src/terminal.cc:133-166 | the decoder answers once per byte |
| Terminal.StepReachable | src/terminal.cc:133-166 | as written, one byte never touches the CSI parameters and never reports a key other than Enter, Tab, Backspace or Unknown |
| Terminal.AsWrittenOnlyPlainKeys | src/terminal.cc:140-151 | as written, every key ever reported is a plain key, the Alt+key fallback aside: no arrow or function key is decoded |
| Terminal.EscBracketA | src/terminal.cc:140-151 | as written, `ESC [ A` gives pending, pending, none |
| Terminal.RunDigits | src/terminal.cc:106-112 | with CSI routed, digits accumulate decimally, one pending each |
| Terminal.OpenFixed | src/terminal.cc:94-104 | with CSI routed, `ESC [` gives pending twice and activates CSI |
| Terminal.FinalFixed | src/terminal.cc:120-128 | with CSI routed, the final byte gives the key and returns to the ground state |
| Terminal.ModFixed | src/terminal.cc:114-118 | with CSI routed, `;` gives pending and digits go into the modifier |
| Terminal.CsiSequenceFixed | src/terminal.cc:89-166 | with CSI routed, `ESC [ n ; m F` gives pending for each byte and then the key of F with modifier m, and returns to the ground state |
| Terminal.EscKey | src/terminal.cc:154-162 | `ESC x` gives a key with ctrl set as written, and with alt set once the flag is named |
| Terminal.Decoder.constructor | src/terminal.cc:12-18 | the decoder starts with no escape seen and CSI inactive |
| Terminal.Decoder.DecodeCsi | src/terminal.cc:89-129 | one byte updates the CSI state and answers as `CsiChar` |
| Terminal.Decoder.Decode | src/terminal.cc:133-166 | one byte updates the hidden state and answers as `Step` |
| Interpreter.CleanEscape | src/interpreter.cc:23-48 | the loop computes `Cleaned` |
| Interpreter.CleanedNotLonger | src/interpreter.cc:23-48 | cleaning never lengthens the text |
| Interpreter.NoBackslashUnchanged | src/interpreter.cc:39-42 | text without backslashes is unchanged |
| Interpreter.EscapedPairs | src/interpreter.cc:32-40 | `\\` becomes one backslash, and a backslash before another character drops both |
| Interpreter.EscapeBackslashes | src/interpreter.cc:23-48 | doubling backslashes never shortens the text |
| Interpreter.CleanUndoesEscape | src/interpreter.cc:23-48 | cleaning text whose backslashes were doubled gives the text back |
| Interpreter.TrailingBackslash | src/interpreter.cc:45 | a final lone backslash is kept, and a final escaped one adds nothing |
| Interpreter.TrailingBackslashKept | src/interpreter.cc:45 | text ending in a backslash cleans to text ending in a backslash |
| Interpreter.EscapedEndsInBackslash | src/interpreter.cc:45 | a pending escape at the end leaves a backslash at the end |
| Interpreter.Programs | src/interpreter.cc:67-76 | each child gets the path its command data resolves to |
| Interpreter.AstToProcess | src/interpreter.cc:51-83 | the method computes `ProcessOf`: a non-statement root is the error, otherwise the process built child by child |
| Interpreter.Datas | src/interpreter.cc:64-65 | each child contributes its data, in order |
| Interpreter.CleanedDatas | src/interpreter.cc:78-79 | each child contributes its cleaned data, in order |
| Interpreter.BuildAssignments | src/interpreter.cc:64-65 | each assignment node's own data goes to `envp` in order, and path and arguments stay empty |
| Interpreter.BuildEnvpFromAssignments | src/interpreter.cc:64-65 | every `envp` entry is the data of some assignment child |
| Interpreter.ParsedEnvpEmpty | src/interpreter.cc:64-65 | on a tree the parser built, every `envp` entry is empty, because assignment nodes carry no data |
| Interpreter.BareEnvp | src/interpreter.cc:64-65 | a statement whose assignment nodes carry no data gives a process whose `envp` entries are all empty |
| Interpreter.AssignmentEntry | src/parser/assignment.cc:36-46 | corrected: an assignment's key, `=` and value rebuild the token's own text |
| Parser.ParseStepBare | src/parser/assignment.cc:36-39 | a parser step adds no assignment node with data |
| Parser.ParseAllBare | src/parser/assignment.cc:36-39 | no assignment node the parser builds carries data |
| Interpreter.BuildOptionsFrom | src/interpreter.cc:78-79 | options after the command append their cleaned data to `argv` |
| Interpreter.BuildOptions | src/interpreter.cc:62-80 | assignments, a command, then options give `envp` = the assignments, `path` = the resolved command and `argv` = the path then the cleaned options |
| Interpreter.ParsedProcess | src/interpreter.cc:51-83 | a parsed tree becomes, with no command, a process of only `envp`; with one, `envp` = the data of the assignment nodes before it (empty strings on parsed trees, see Findings), `path` = its resolved path, `argv` = that path then the cleaned options |
| Interpreter.ResolvedPaths | src/interpreter.cc:67-76 | after the tree verifier passes, every command resolves: a `./` name is its own path, any other name is an indexed one |
| Cli.Separator | src/main.cc:44-48 | finds the first `--` among `argv[1..argc)`, or none |
| Cli.GetCommands | src/main.cc:39-61 | without `--` the text is empty and argc unchanged; otherwise the text is the later arguments joined by single spaces and argc becomes the separator's index |
| Cli.CommandsWords | src/main.cc:50-54 | splitting the joined text at spaces gives back the arguments, when they hold no space |
| Cli.EnvEntry | src/main.cc:71-73 | an entry without `=` is skipped; otherwise it splits at the first `=` into a key without `=` and the rest |
| Cli.FilledIsFirstWins | src/main.cc:64-75 | filling is a first-wins insertion of the entries' pairs |
| Cli.EnvPairsFromEntries | src/main.cc:67-74 | every pair comes from an entry, and every entry with `=` gives a pair |
| Cli.FilledKeys | src/main.cc:64-75 | a name is in the table if and only if some entry names it |
| Cli.FilledKeyNamed | src/main.cc:72-73 | every key of the table is named by an entry |
| Cli.NamedKeyFilled | src/main.cc:72-73 | every entry with `=` puts its key in the table |
| Cli.FilledFirst | src/main.cc:72-73 | a key holds the value of its first entry |
| Cli.FirstPairOfEntry | src/main.cc:72-73 | an entry whose key no earlier entry names gives the value in the table |
| Cli.EnvPairsPrefix | src/main.cc:67-74 | entries give their pairs in order |
| Cli.GlobalEnv.constructor | include/shared.hh:98 | the table starts empty |
| Cli.GlobalEnv.Fill | src/main.cc:64-75 | the loop computes `Filled` of the table and the entries |

## Left out

- Input, output and processes are not modelled: the terminal and raw input
  (`src/input.cc`), `fork`/`execve`, and `main`'s argument parsing and printing.
  The `std::println` inside `is_command` is also left out.
- The filesystem is a parameter. A `Listing` function gives each directory's
  entries with their canonical path and executable bit. `$PATH` is an
  `Option<string>`.
- The user's y/n answer is a `char` parameter. The `./` path check
  (`handle_path_verification`) is a function parameter returning an optional
  diagnostic.
- Whether stderr is a terminal is the `tty` parameter of `Render.Renderer.Render`.
- The iteration order of `std::unordered_map` is the `order` parameter. It
  decides which unclosed family `TokenVerifier.CheckEnd` reports first and which
  tied candidate `Executables.ExecutableIndex.Closest` returns.
- Colours and `std::format` are modelled only as far as the strings used here.
  `decode_escape` is not modelled because nothing calls it.
- Tree nodes are values. Parent pointers, `operator->`, and in-place updates
  through `std::list` are left out. The `set_*` setters of `include/parser.hh`
  and `src/parser.cc` become record updates (`n.(data := d)`), which change only
  their field.
- Token accessors are datatype fields, so they return the constructor arguments
  by construction.
- The source is mid-refactor in places, and the model follows the evident intent:
  - `src/parser/command.cc` builds its diagnostic with a `set_*` API and
    `message_level`;
  - `src/parser/assignment.cc:42` writes the Literal's location as a call, which
    the model reads as the token's line with column `=`+1;
  - `include/formatters.hh` uses `ast_type::none`, which becomes `None`.
- Lexer.Lex: takes a step budget (`fuel`). As written, `lex` need not terminate
  (see Findings), so running out of budget is reported as no result. It does not
  claim termination.
- Lexer.WordEnd: where a word pass starts at the end of the input (after a
  trailing unescaped whitespace), src/lexer.cc:260 calls `find_next_whitespace`
  with `length + 1`, outside the range `iota` is defined on, and the word view
  that follows can read past the string. `NextWhitespace` and
  `FindNextWhitespace` require a start within the string instead, and
  `WordEnd`, `ScanWord` and so `Lex` take the guarded search, which gives an
  empty word there (see Findings).
- Lexer.BackslashRun: stops at index 0. The source's `size_t` counter `j >= 0`
  never fails, and reads before the string when only backslashes precede the
  whitespace. `lex` always calls it with `pos >= 1`.
- TokenVerifier.Verify: requires bracket tokens to carry text, as every bracket
  the lexer makes does. The source reads `data()[0]` unchecked.
- Executables.LengthEligible: uses the true length difference. The source casts a
  wrapped `size_t` difference to `int`, which is the same for lengths below 2^31.
- Executables.ScanClosestSpec: requires `|name| + 2 < SIZE_MAX`. This is the
  bound at which a distance could equal the SIZE_MAX start value.
  `Executables.ClosestOfSpec`, `CommandParser.NearestNameSpec`,
  `CommandParser.CommandDecisionSpec` and `Interpreter.ResolvedPaths` carry the
  same bound.
- Interpreter.AstToProcess: requires every command to be resolvable, as after
  the tree verifier. `Interpreter.ResolvedPaths` proves that this holds then.
  The source dereferences a null `closest` otherwise, or throws on an empty index.
- Interpreter.CommandPath: gives an empty path where the source's behaviour is
  undefined.
- Render.DigitsAmountIsLength: requires `n <= UINT32_MAX`. `get_digits_amount`
  takes a `uint32_t`, and the `uint32_t` truncation of line numbers in
  `render_colored` is not modelled.
- Terminal.Decoder.DecodeCsi: accumulates `p1` and `p2` as unbounded integers.
  `int` overflow on very long parameters, and the signedness of `char` above
  0x7F, are not modelled.
- `substr` throwing past the end of its string is not modelled. Every slice in
  the model is in range.

## Findings

| source | as written | input that shows it | evidently intended | confidence | as-written member | corrected member |
|---|---|---|---|---|---|---|
| src/lexer.cc:138 | `get_tokens_from_word` returns a word-relative offset, and `lex` assigns it to the absolute index (lines 267-271) | `echo "hi"`: the index goes 0, 4, 0, 4, … and lexing never ends | the offset added to the word's start index | not executed | Lexer.EchoQuotedDiverges | Lexer.EchoQuotedFixed |
| src/lexer.cc:254-260 | after stepping over a trailing unescaped whitespace, `lex` searches for the next whitespace from `length + 1`, an `iota` range whose start is past its bound | `ls ` (from `-- ls ""`): the second pass searches from index 4 of a 3-character string | search only while the index is inside the string, giving an empty last word | not executed | Lexer.LsTrailingSpace | Lexer.TrailingSpaceEndsWord |
| src/terminal.cc:140-151 | after `ESC [`, later bytes go back through the ground path instead of to `decode_csi_char` | `ESC [ A` answers pending, pending, none, and no arrow key is ever reported | route bytes to the CSI decoder while it is active | not executed | Terminal.AsWrittenOnlyPlainKeys | Terminal.CsiSequenceFixed |
| src/terminal.cc:67-81 | `(shift, alt, ctrl)` are passed positionally to the `(code, alt, ctrl, shift)` constructor | `ESC [ 1 ; 2 A` (Shift+Up) decodes as Alt+Up | each modifier on its own flag | not executed | Terminal.ShiftReadAsAlt | Terminal.FinalByteFixed |
| src/parser/assignment.cc:36-39 | the assignment node gets a kind, source and parent but no data, and `ast_to_process` copies `child.data` into `envp` (src/interpreter.cc:64-65) | `A=1 ls`: `ls` is launched with an `envp` of one empty string | the assignment text `A=1` in `envp` | not executed | Interpreter.ParsedEnvpEmpty | Interpreter.AssignmentEntry |
| src/terminal.cc:157-162 | `key_event{unknown, false, true}` sets ctrl | `ESC x` (Alt+x) reports ctrl | alt set for an ESC-prefixed key | not executed | Terminal.EscKey | Terminal.EscKey |
