# ZZscript parser front end, modelled in Dafny

ZZscript is an editor for a small scripting language. This project is a model of its parsing front end, with proofs about that model. The model covers:

- **Token-kind table** (`tokens.dfy`). There are 48 kinds, and each has a number, a bit in a 64-bit mask and a fixed text. Masks become sets of kinds. The table is sorted by text length, longest first, to match fixed tokens.
- **Tokenizer** (`lexer.dfy`, specified in `lexer_spec.dfy`, with properties in `lexer_props.dfy`). It is a class with a position field. Its readers, tried in order, cover whitespace, identifiers, numbers, strings/names/comments and fixed tokens. Each reader is a loop proved against a recursive specification function. `readAllTokens` is also part of this model.
- **Token cursor** (`token_stream.dfy`). `TokenStream` holds a position over a token list and offers `peek`, `read` and `expect(mask)`.
- **Stream helpers** (`stream_ops.dfy`). `skipWhitespace`, and the bracket-balancing `consumeTokens` specified by a recursive `Consume` over a stack of open brackets.
- **Expression parser** (`expression_syntax.dfy`, `expression.dfy`). It collects the flat leaf list: operands with calls, subscripts and member chains, and raw operator tokens.
- **Reduction passes** (`merge.dfy`, `merge_props.dfy`). The fixed run of `mergeBinaryExpressions` and `mergeTernaryExpression` passes. Each in-place loop is proved equal to a recursive definition.
- **Constant folder** (`evaluate.dfy`, `evaluate_props.dfy`). `evaluate`, `evaluateLeaf`, `evaluateCast` and `typeFromLeaf` fold with 32-bit C arithmetic. Signed overflow, shifts outside 0..31 and `%` by zero are written out as an `Undefined` outcome.
- **Top-level pass** (`declarations.dfy`). `version`, `#include`, `class`/`extend class`, `struct` and `enum`.
- **Field pass** (`fields.dfy`). Flags, annotations, compound types, fields, method signatures, `property` and the skipped `default`/`states` sections.
- **Method pass** (`statements.dfy`). Blocks, `let`, typed locals, `return`, `break`/`continue`, `if`/`else` and `for`, each gated by a set of allowed statement kinds.
- **Entry point** (`parser.dfy`). Comment stripping and the pass driver.
- **Path normaliser** (`project.dfy`). `Project::fixPath` and the project name.

The tree is made of datatypes (`ast.dfy`). A C++ path with undefined behaviour becomes the outcome `Undefined` of the `Exec` datatype, for example a null dereference, `last()` of an empty list or an int overflow. The name resolvers `resolveType`, `resolveSystemType` and `getFullType` are a parameter of type `TypeEnv`. The constant reader `parseConstant` is a parameter of type `ConstantReader`, which is required to move forward.

The header files are stale against the `.cpp` files, so the kinds and flags follow how the code uses them:
- The kinds `OpIncrement`, `OpDecrement` and `OpRightShiftUnsigned` are added; the tokenizer never produces them.
- The operators missing from `Operator` are added.
- The undeclared `Stmt_*` masks become the `Allow` sets in `statements.dfy`. Function code allows everything but `break`/`continue`, and a cycle initialiser allows declarations and expressions.

Behaviour of the code that looks unintended but is modelled as written (no corrected variant exists beside it):

- Fixed tokens are compared after lower-casing both sides, but no fixed text holds a letter, so that changes nothing (`Tokens.NamedMatchIsLongest`).
- One token variable is reused across `readAllTokens`, and no reader resets the validity flag, so every token after an invalid one is invalid too (`LexerProps.InvalidIsSticky`).
- The text of a `version(...)` or `deprecated(...)` annotation fills the version only when the text is literally `"version"`, and fills the deprecation note otherwise, whatever keyword came before it (parser_root.cpp:208, parser_root.cpp:319, parser_fields.cpp:207).
- After a `...` in an argument list the `)` is left unread, so the next expectation fails (parser_fields.cpp:385-389, parser_fields.cpp:479).
- After a method body one more token is skipped (parser_fields.cpp:529).
- A `for` without a condition dereferences a null condition, which is `Undefined` (parser_methods.cpp:106-107).
- `while` and `do` are recognised but yield nothing (parser_methods.cpp:306-313).
- For a `const` local the type is read from the token right after `const`. In ordinary text that token is the blank before the type, so reading the type fails and the declaration yields nothing (parser_methods.cpp:316-343).
- A statement whose first token is not an identifier swallows that token and yields nothing.
- The first statement that yields nothing ends the block.
- `parseEnumExpressions` looks for constants among an enum's children, but the top-level pass gives an enum only its value expressions (`Statements.EnumHasNoConstants`).
- Integer `%` by zero is not guarded, so it is `Undefined` (parser_expression.cpp:280).

Where the code looks wrong, both behaviours are modelled; see "## Findings". The parser itself always runs the behaviour as written: `ExpressionParser.ParseExpression` reduces with `Merging.ReduceAsWritten` and finishes with `ExpressionSyntax.SettleAsWritten`, `ExpressionParser.ParseOneSubscript` peeks at the next `[`, `Folding.FoldBinary` uses `Folding.FoldDoublesAsWritten`, `Projects.Project.constructor` uses the skipping path walk, `Statements.ParseStatement` uses `Statements.ReadControlAsWritten` and `Statements.ParseCodeBlockOrLine` uses `Statements.BodyChainAsWritten`. Each corrected definition stands beside its as-written twin, with the intended property proved about it, and no parsing operation uses it. The one exception is `Parsing.Parse`, the entry point returning true, since the program's `parse` has no defined result on success.

## Model

| member | source | states |
|---|---|---|
| Tokens.Number | tokens.h:3-64 | every kind the table declares has a number below 48, and reading the table back at that number gives the kind again |
| Tokens.KindOfNumber | tokens.h:3-64 | a kind exists for exactly the numbers 0 to 47, and each is a declared kind |
| Tokens.FixedText | tokens.h:3-64 | a kind's text is empty exactly for Identifier … Invalid (numbers 0 to 8) and for the undeclared parser kinds; no text is longer than three characters |
| Tokens.CodeIdentifiesKind | tokens.h:15-64 | the fixed text of a kind identifies that kind |
| Tokens.DistinctTexts | tokens.h:15-64 | no two kinds share a fixed text |
| Tokens.NumberInjective | tokens.h:3-64 | distinct declared kinds have distinct numbers |
| Tokens.DistinctBits | tokens.h:3-64 | kind numbers are below 64 and pairwise distinct, so `1 << number` gives every kind a bit of its own and a mask is a set of kinds |
| Tokens.KindsOfLength | tokenizer.cpp:24-25 | the kinds collected for a text length are declared kinds whose text has that length |
| Tokens.KindsOfLengthComplete | tokenizer.cpp:24-25 | every declared kind with a text of the given length, at or after the starting number, is collected |
| Tokens.SortedTableProperties | tokenizer.cpp:6-9 | the sorted table is ordered by text length, longest first, and holds exactly the declared kinds |
| Tokens.FirstMatch | tokenizer.cpp:443-460 | a match is a table kind with a non-empty text that starts the look-ahead |
| Tokens.FirstMatchIsLongest | tokenizer.cpp:443-460 | on a length-descending table the first match has the longest matching text, and no match means that no text with content starts the look-ahead |
| Tokens.NamedMatchIsLongest | tokenizer.cpp:438-464 | fixed tokens match longest text first: other matching kinds have strictly shorter texts, and a miss means that no fixed text starts the look-ahead |
| Tokens.SpaceshipText | tokens.h:62 | input starting with `<>=` is read as the three-way comparison token, not as `<`, `<>` or `<=` |
| Tokens.NoClassicSpaceship | tokens.h:62 | no kind is spelled `<=>` |
| Tokens.OnlyNewlineStartsWithNewline | tokens.h:16 | Newline is the only kind whose text starts with a newline |
| TokenStreams.EndOfStream | tokenizer.cpp:585-586 | a read off the list hands back the caller's token re-kinded Invalid with text "EOS" and its other fields kept |
| TokenStreams.TokenStream.constructor | tokenizer.cpp:563-566 | a new cursor is at position 0 over the given list |
| TokenStreams.TokenStream.Rest | tokenizer.cpp:625-628 | tokens remain exactly when the position is valid, and then they number the list length minus the position |
| TokenStreams.TokenStream.SetPosition | tokenizer.cpp:573-576 | the cursor is moved to the given position |
| TokenStreams.TokenStream.ExpectToken | tokenizer.cpp:583-599 | the token under the cursor is handed back, and the cursor steps over it exactly when the position is valid and the token's kind is in the mask; otherwise the cursor stays put |
| TokenStreams.TokenStream.ReadToken | tokenizer.cpp:601-612 | the cursor advances by one exactly when the position is valid, handing back that token; otherwise it hands back the end-of-stream token |
| TokenStreams.TokenStream.PeekToken | tokenizer.cpp:614-623 | the token under the cursor, or the end-of-stream token; the cursor never moves |
| LexerSpec.Advance | tokenizer.cpp:100 | reading a character moves one on, except at the end of the text |
| LexerSpec.WhitespaceLoop | tokenizer.cpp:111-124 | the whitespace loop ends within the text, at or after where it starts |
| LexerSpec.ReadWhitespace | tokenizer.cpp:96-136 | a miss leaves the position where it was; a hit moves it forward within the text |
| LexerSpec.IdentifierLoop | tokenizer.cpp:154-172 | the identifier loop ends within the text, at or after where it starts |
| LexerSpec.ReadIdentifier | tokenizer.cpp:138-184 | a miss restores the position, except the early return on a NUL character, which leaves it one on; a hit moves forward |
| LexerSpec.NumberLoop | tokenizer.cpp:251-289 | the digit loop ends within the text, at or after where it starts |
| LexerSpec.HexPeek | tokenizer.cpp:234-246 | the hexadecimal peek ends within the text |
| LexerSpec.ReadNumber | tokenizer.cpp:186-322 | a hit moves forward; a miss restores the position except on a NUL, and for a lone `.` at the end of the text, which returns without restoring |
| LexerSpec.LineCommentLoop | tokenizer.cpp:343-355 | the line-comment loop ends within the text |
| LexerSpec.BlockCommentLoop | tokenizer.cpp:368-385 | the block-comment loop ends within the text |
| LexerSpec.QuotedLoop | tokenizer.cpp:402-427 | the literal loop ends within the text |
| LexerSpec.ReadStringOrComment | tokenizer.cpp:324-436 | a miss restores the position; a hit moves forward |
| LexerSpec.ReadNamed | tokenizer.cpp:438-464 | a miss restores the position; a hit moves forward by the length of the matched text |
| LexerSpec.InvalidChar | tokenizer.cpp:545-551 | the fallback token is an Invalid, invalid-marked, one-character token that spans exactly the character it takes |
| LexerSpec.ReadToken | tokenizer.cpp:520-552 | there is no token exactly at the end of the text; otherwise exactly one token is read and the position moves forward |
| LexerSpec.Lex | tokenizer.cpp:554-561 | the token list of a text: read tokens one after another from the start, each from the one before, until no token is read (its properties are `LexerProps.LexAbuts` and `LexerProps.InvalidIsSticky`, and `Lexer.Tokenizer.ReadAllTokens` computes it) |
| Lexer.Tokenizer.constructor | tokenizer.cpp:11-13 | the lexer starts at position 0 of its input |
| Lexer.Tokenizer.ReadChar | tokenizer.cpp:100 | reading a character yields the character under the position and moves on, or yields NUL at the end and stays put |
| Lexer.Tokenizer.SetPosition | tokenizer.cpp:74-76 | the position is set |
| Lexer.Tokenizer.TryReadWhitespace | tokenizer.cpp:96-136 | the character loop computes exactly the token and end position of ReadWhitespace, or restores the position on a miss |
| Lexer.Tokenizer.TryReadIdentifier | tokenizer.cpp:138-184 | the character loop computes exactly what ReadIdentifier says |
| Lexer.Tokenizer.TryReadNumber | tokenizer.cpp:186-322 | the reader computes exactly what ReadNumber says |
| Lexer.Tokenizer.NumberMainLoop | tokenizer.cpp:251-289 | the loop computes exactly NumberLoop's end position, flags and text |
| Lexer.Tokenizer.TryReadStringOrComment | tokenizer.cpp:324-436 | the reader computes exactly what ReadStringOrComment says |
| Lexer.Tokenizer.TryReadNamedToken | tokenizer.cpp:438-464 | the reader computes exactly what ReadNamed says |
| Lexer.FindNamed | tokenizer.cpp:443-460 | the walk over the table returns the first kind whose text starts the look-ahead, stopping at the first kind without text, which is FirstMatch |
| Lexer.Tokenizer.ReadToken | tokenizer.cpp:520-552 | the readers are tried in order and the first that matches wins, exactly as LexerSpec.ReadToken says; false only at the end, with the position unchanged |
| Lexer.Tokenizer.ReadAllTokens | tokenizer.cpp:554-561 | the repeated reads consume the whole text and produce exactly Lex of it, from a default token |
| LexerProps.WhitespaceLoopText | tokenizer.cpp:111-124 | the whitespace loop's text is exactly the run of whitespace characters it passes over, and it stops at the first other character |
| LexerProps.IdentifierLoopText | tokenizer.cpp:154-172 | the identifier loop's text is exactly the identifier characters it passes over |
| LexerProps.LineCommentLoopText | tokenizer.cpp:343-355 | the line-comment loop's text is the rest of the line, stopping before the newline |
| LexerProps.BlockCommentLoopText | tokenizer.cpp:368-385 | the block-comment loop's text is what lies before `*/`, or the rest of the text when it is unclosed |
| LexerProps.QuotedLoopText | tokenizer.cpp:402-427 | a literal's text runs up to its closing quote, with an escaped character kept, or to the end of the text when it is unclosed |
| LexerProps.WhitespaceToken | tokenizer.cpp:96-136 | whitespace is read exactly when the first character is in the whitespace class, and its value is the maximal run of that class |
| LexerProps.NewlineToken | tokenizer.cpp:102 | a newline is not whitespace: it always becomes the fixed Newline token of one character |
| LexerProps.IdentifierToken | tokenizer.cpp:149-179 | an identifier is read exactly when the first character is a letter or `_`; its value is the maximal `[A-Za-z_][A-Za-z0-9_]*` run, and a miss restores the position |
| LexerProps.LineCommentToken | tokenizer.cpp:339-362 | a line comment's value is the text after `//` up to, but not including, the newline |
| LexerProps.BlockCommentToken | tokenizer.cpp:364-393 | a block comment's value is the text between `/*` and `*/`; an unclosed one runs to the end of the text |
| LexerProps.QuotedToken | tokenizer.cpp:397-427 | a string or name literal ends at its matching quote and its value excludes the quotes; without the quote it runs to the end and is marked invalid |
| LexerProps.NumberTokenKind | tokenizer.cpp:291-315 | when the flags agree with the text, the number token's kind is the one its text selects |
| LexerProps.PreludeAgrees | tokenizer.cpp:213-248 | the flags the main loop starts with agree with the text read before it |
| LexerProps.NumberLoopAgrees | tokenizer.cpp:251-289 | the main loop keeps the flags in agreement with the text it builds, and that text is exactly the characters passed over |
| LexerProps.ReadNumberUnfold | tokenizer.cpp:186-322 | the number reader is its prelude followed by its main loop |
| LexerProps.NumberKindsFromText | tokenizer.cpp:225-315 | a number token's value is the text passed over, and its kind follows from it: `0x`/`0X` is hexadecimal, a leading 0 without a later 8 or 9 is octal, a dot or exponent mark is Double, and a failed conversion is Invalid |
| LexerProps.ReadTokenSpan | tokenizer.cpp:127-128 | every token starts where the read starts and ends where it stops |
| LexerProps.LexAbuts | tokenizer.cpp:554-561 | the tokens of a text without NUL cover it without gaps: the first starts at the start, each ends where the next begins, and the last ends at the end |
| LexerProps.ReadTokenKeepsInvalid | tokenizer.cpp:421 | no reader sets the validity flag back, so an invalid token variable stays invalid |
| LexerProps.InvalidIsSticky | tokenizer.cpp:545-559 | once a token of `readAllTokens` is invalid, every later token is invalid too, because one token variable is reused |
| StreamOps.SkipWhitespace | parser.cpp:83-100 | it fails exactly when the cursor is beyond the list, and then restores it; otherwise it only advances, over Whitespace tokens and over Newlines when asked, and stops at the first other token or at the end |
| StreamOps.SkipBlanks | parser.cpp:83-100 | from inside the list, skipping ends where SkipFrom says |
| StreamOps.SkipAndExpect | parser.cpp:83-100 | after the blanks, a success consumes one token of the wanted kinds; the cursor never moves back |
| StreamOps.SkipAndExpectAt | parser.cpp:83-100 | the same, stating where: the read succeeds exactly when the first token after the blanks is of a wanted kind, and the cursor ends after the blanks, one token further on a success |
| StreamOps.SkipFrom | parser.cpp:89-90 | skipping stops at the first token that is not a blank, or at the end |
| StreamOps.SkipFromIsFirstSolid | parser.cpp:89-90 | any run of blanks ending at a solid token or the end is where skipping ends |
| StreamOps.SkipFromAfterBlanks | parser.cpp:89-90 | blank tokens put in front of a list are skipped with it: skipping ends as many tokens later as were put in front |
| StreamOps.CloserOf | parser.cpp:132-146 | every opener waits for a closer, and anything else for Invalid |
| StreamOps.Consume | parser.cpp:107-163 | the balanced run ends within the list, at or after where it starts |
| StreamOps.ConsumeTokens | parser.cpp:102-166 | it always returns true; `out` is exactly the tokens between the old and the new position, and the stopping token is left unconsumed |
| StreamOps.ReadBody | parser.cpp:102-166 | the body is the balanced run up to the stop set; after the blanks, the token that ended it is read if there is one |
| StreamOps.ConsumeStopsAtDepthZero | parser.cpp:109-130 | a run ends before the end of the list only on a stop-set token or a closer, and only with no bracket open |
| StreamOps.ConsumeWithoutOpeners | parser.cpp:109-130 | without openers ahead, a run ends at the first stop-set token or closer |
| StreamOps.MismatchedCloserKept | parser.cpp:120-152 | a closer that does not fit the innermost open bracket is kept in the run and closes nothing |
| StreamOps.ConsumeInsideBrackets | parser.cpp:109-114 | with a bracket open, stop-set tokens do not end the run |
| Parsing.CodeTokens | parser.cpp:26-36 | comment stripping keeps no comment and never grows the list |
| Parsing.CommentTokens | parser.cpp:26-36 | every collected token is a comment |
| Parsing.CodeAndCommentsPartition | parser.cpp:26-36 | every token is either kept or handed back as a comment: the lengths add up and the multisets add up to the input |
| Parsing.CodeWithoutComments | parser.cpp:26-36 | a list without comments is left alone and yields no comments |
| Parsing.CodeIdempotent | parser.cpp:26-36 | stripping comments twice is stripping them once |
| Parsing.StripComments | parser.cpp:26-36 | the in-place removal loop leaves exactly the non-comment tokens in order, and hands back the comments in order |
| Parsing.RunPasses | parser.cpp:38-80 | on success every top-level node has been through the field pass (enums hold their values as children, classes and structs only finished members), and every class or struct has then had its method bodies parsed |
| Parsing.ParseAsWritten | parser.cpp:23-81 | as written, success falls off the end of the function without a return, so a run never reports true |
| Parsing.Parse | parser.cpp:23-80 | the corrected entry point hands back the removed comments in order and, on success, a tree with the guarantees of RunPasses |
| Projects.Slashed | project.cpp:46 | every backslash becomes a slash, and nothing else changes |
| Projects.FixPathAsWritten | project.cpp:44-63 | the in-place loop as written computes CollapseAsWritten of the slashed path, and leaves no backslash |
| Projects.FixPath | project.cpp:44-63 | the corrected loop computes the collapse of every run of slashes into one, and leaves no backslash |
| Projects.CollapseAsWritten | project.cpp:47-61 | the program's slash walk on a path as a recursive definition: after a removal the next character is taken without being examined (its properties are `Projects.AsWrittenRemovesOnlySlashes` and `Projects.AsWrittenMisses`) |
| Projects.Collapse | project.cpp:47-61 | the walk as intended: every slash after a slash is dropped (its properties are `Projects.CollapseRemovesOnlySlashes`, `Projects.CollapseIsClean` and `Projects.CollapseKeepsClean`) |
| Projects.FixedPathAsWritten | project.cpp:44-63 | what the program's `fixPath` makes of a path: backslashes become slashes, then the as-written walk (`Projects.FixPathAsWritten` computes it) |
| Projects.AsWrittenRemovesOnlySlashes | project.cpp:48-61 | as written, only slashes are deleted: the other characters keep their order, and the length never grows |
| Projects.CollapseRemovesOnlySlashes | project.cpp:48-61 | the corrected collapse also deletes only slashes and never grows the path |
| Projects.CollapseKeepsClean | project.cpp:48-61 | a path with no two adjacent slashes comes back unchanged, from both the as-written and the corrected loop |
| Projects.CollapseIsClean | project.cpp:47-61 | the corrected collapse leaves no two adjacent slashes |
| Projects.CollapseKeepsNoBackslash | project.cpp:46-61 | collapsing keeps a path free of backslashes |
| Projects.SlashedKeepsNoBackslash | project.cpp:46 | replacing backslashes changes nothing on a path without them |
| Projects.FixedPathIdempotent | project.cpp:44-63 | the corrected `FixedPath` is idempotent: fixing a fixed path again changes nothing (the program's own walk is not: `a///b` becomes `a//b`) |
| Projects.AsWrittenMisses | project.cpp:55-56 | as written, `a//b` becomes `a/b`, but `a///b` becomes `a//b` and `a//b/c` becomes `a/bc` |
| Projects.CollapseExamples | project.cpp:47 | corrected, `a///b` becomes `a/b` and `a//b/c` becomes `a/b/c` |
| Projects.LastSlash | project.cpp:10 | the index of the last slash, or -1 when there is none |
| Projects.NameAfterLastSlash | project.cpp:10-11 | the name has no slash, is a suffix of the path preceded by a slash when shorter, and is the whole path when the path has no slash |
| Projects.ProjectNames | project.cpp:8-12 | `a//b/c` names its project "bc" as the program fixes the path, and "c" with the corrected walk |
| Projects.CleanPathNamesAgree | project.cpp:44-63 | a path without doubled slashes is fixed the same way by both walks, to the path with slashes for backslashes |
| Projects.Project.constructor | project.cpp:8-12 | the project's name is the text after the last slash of its path as the program fixes it, with the skipping loop, so `a//b/c` is named "bc" (`Projects.ProjectNames`) |
| ExpressionSyntax.SplitFrom | parser_expression.cpp:811-830 | cutting a bracket body at its commas always yields at least one piece |
| ExpressionSyntax.Pieces | parser_expression.cpp:811-830 | a whole bracket body has at least one piece, even when it is empty |
| ExpressionSyntax.Commas | parser_expression.cpp:815 | the separators are exactly comma tokens, no more of them than the body has tokens |
| ExpressionSyntax.SplitFromRejoins | parser_expression.cpp:813-830 | from any cut point there is one piece more than there are commas, the pieces glued back with those commas give the rest of the body, and no piece holds a comma |
| ExpressionSyntax.PiecesRejoin | parser_expression.cpp:811-830 | a body is its pieces joined by its commas: one piece per comma plus one, and the pieces are comma-free |
| ExpressionSyntax.CommaAtLevelFindsComma | parser_expression.cpp:858-871 | the depth-counting scan reports a comma only when the list holds one |
| ExpressionSyntax.CommaAtLevelFlat | parser_expression.cpp:858-871 | without parentheses the scan reports a comma exactly when the list holds one |
| ExpressionSyntax.TopLevelCommaIsComma | parser_expression.cpp:857-873 | a vector needs a comma; a parenthesis-free body is a vector exactly when it has one |
| ExpressionSyntax.CommaInsideParensIsNested | parser_expression.cpp:858-871 | a comma inside an inner `( .. )` does not make a vector, while the same comma outside does |
| ExpressionSyntax.Closing | parser_expression.cpp:1163-1177 | a subscript body that is closed ends at its `]`, and the blanks after it end further on, inside the list |
| ExpressionSyntax.ScanSubscriptsWith | parser_expression.cpp:1159-1197 | a run of subscripts that reads has at least one body and ends after where it started |
| ExpressionSyntax.LastSubscript | parser_expression.cpp:1159-1197 | the last subscript of `a[1][2]` is the body `2` and the run ends at the end of the list |
| ExpressionSyntax.FirstSubscript | parser_expression.cpp:1159-1197 | in `a[1][2]` the first body is `1`; the corrected scan goes on after the second `[`, the program's scan goes on at it |
| ExpressionSyntax.SecondBodyAsWritten | parser_expression.cpp:1164-1195 | as the program reads it, the second body of `a[1][2]` starts at the `[` left unread by the peek and stays open to the end, so it fails |
| ExpressionSyntax.NestedSubscripts | parser_expression.cpp:1149-1211 | `a[1][2]` has the two bodies `1` and `2` when the `[` is stepped over, and no subscripts at all as written |
| ExpressionSyntax.LaterBodiesStartWithBracketAsWritten | parser_expression.cpp:1192-1197 | as written, every body after the first of a run begins with the `[` that the peek left unread |
| ExpressionSyntax.SettleAsWritten | parser_expression.cpp:1376-1426 | the program's finish yields a tree only when reading did not fail and exactly one leaf is left |
| ExpressionSyntax.Settle | parser_expression.cpp:1376-1387 | the corrected finish yields a tree only from one leaf of a run that did not fail, and rewinds the cursor exactly when it yields none |
| ExpressionSyntax.SettleAgreesOnSuccess | parser_expression.cpp:1376-1426 | both finishes give the same tree on every input; a success as written never rewinds |
| ExpressionSyntax.SettledTreeHoldsLeaf | parser_expression.cpp:1388-1423 | a successful tree is the lone leaf's own sub-expression or an identifier or literal node holding that leaf; operator tokens and invalid leaves never make a tree |
| ExpressionSyntax.LoneTokenKeepsCursorAsWritten | parser_expression.cpp:1388-1425 | for a lone operator token the program yields nothing and leaves the cursor after the token; the corrected finish rewinds it |
| ExpressionParser.OperatorTokensAreKnown | parser_expression.cpp:1111-1148 | every token the operator phase keeps is one the merging passes classify, as an operator other than `dot`/`cross` or as a part of `?:` |
| ExpressionParser.HasCommas | parser_expression.cpp:857-871 | the depth-counting loop finds a comma exactly when the body has a comma at the top level |
| ExpressionParser.HasContent | parser_expression.cpp:1236-1245 | an argument has content exactly when some token is neither a blank nor a newline |
| ExpressionParser.ParsePieces | parser_expression.cpp:811-830 | a body that reads gives one expression per piece, that is one more than it has commas |
| ExpressionParser.ParseArrayInitialization | parser_expression.cpp:796-842 | a success consumed the body to its `}` at depth zero and the `}`, and gives an array initialisation with one element per piece |
| ExpressionParser.ParseParenthesized | parser_expression.cpp:843-926 | a success consumed the body and its `)`; a top-level comma gives a vector initialisation with one element per piece |
| ExpressionParser.ParseCast | parser_expression.cpp:961-1002 | a success is a cast node whose first leaf is the type name and whose second leaf is the parenthesised expression, ended by `)` |
| ExpressionParser.ReadMembers | parser_expression.cpp:1024-1044 | the members read are identifiers, the separators are dots, and there are no more dots than members |
| ExpressionParser.ParseIdentifier | parser_expression.cpp:948-1057 | `true`/`false` in any case become a boolean leaf worth 1 or 0 without moving the cursor; `bool`/`int`/`double`/`float` start a cast named in lower case with `float` read as `double`; any other name always succeeds as an identifier or as a member chain rooted at it |
| ExpressionParser.ParseAtom | parser_expression.cpp:796-1067 | integers, doubles, strings and names become their literal leaves; a token no operand starts with gives nothing; no operand leaf is an operator token |
| ExpressionParser.ParseOperand | parser_expression.cpp:765-1079 | the operand phase adds at most one leaf, keeps the earlier ones, moves the cursor when it adds one, and stops only at the end or at a stop token |
| ExpressionParser.ParseSubscriptBody | parser_expression.cpp:1163-1187 | a body that reads is the tokens up to its closing `]`, and the cursor ends after that `]` |
| ExpressionParser.ParseOneSubscript | parser_expression.cpp:1159-1197 | each subscript read is one step of the program's scan: the body up to its `]`, then either the end of the run or, when the next solid token is a `[` that is only peeked at, the next subscript read from that `[` |
| ExpressionParser.ParseSubscripts | parser_expression.cpp:1149-1211 | a success is a subscript node over the previous leaf with one leaf per body of the program's peeking scan, and the cursor ends where that scan ends |
| ExpressionParser.ParseArgument | parser_expression.cpp:1226-1272 | an argument that reads has moved the cursor past the `,` or `)` that ends it; an argument with content is an expression leaf |
| ExpressionParser.ParseCall | parser_expression.cpp:1212-1287 | a success is a call node whose first leaf is the callee, ended by the `)` just read |
| ExpressionParser.ParseOperator | parser_expression.cpp:1081-1328 | the operator phase always moves the cursor when it goes on, stops only at the end or a stop token, and when the next round reads an operand it has added exactly one operator token |
| ExpressionParser.ParseExpression | parser_expression.cpp:751-1427 | the result is the tree that the program's reduction (one pass per binary operator) and finish make of the leaves collected; the cursor goes back exactly when that finish says so, otherwise it has moved and rests at the end or at a stop token; blanks alone before the stop give no tree and leave the cursor where it was |
| ExpressionParser.Finish | parser_expression.cpp:1332-1426 | what the program makes of the leaves collected: the reduction with one pass per binary operator, then its finish; only a run that did not fail can give a tree |
| ExpressionParser.FinishNothing | parser_expression.cpp:1376-1387 | nothing collected gives no tree, and the cursor goes back |
| ExpressionParser.FinishAdditiveChain | parser_expression.cpp:1345-1426 | `a - b + c` gives the tree `a - (b + c)` and leaves the cursor after it |
| Folding.WrapInt | parser_expression.cpp:201-202 | `int(v)` of a 64-bit value is the value read back into 32 signed bits: in range, congruent modulo 2^32, and unchanged when it already fits |
| Folding.WrapOpt | parser_expression.cpp:201-202 | the same conversion on a value that may be unknown |
| Folding.FromBits | parser_expression.cpp:221-234 | a 32-bit pattern read as a signed int is in range and congruent to the pattern modulo 2^32, which is the two's-complement reading |
| Folding.FoldInt | parser_expression.cpp:204-284 | an integer fold that is defined lies in the int range; comparisons and logic always give 0 or 1, and `<>=` gives -1, 0 or 1 |
| Folding.FoldArith | parser_expression.cpp:208-220 | `* / + - %` give a result only within the int range (division and `%` by zero in `FoldingProps.ArithmeticByZero`) |
| Folding.FoldBitwise | parser_expression.cpp:221-235 | `& \| ^ << >>` give a result only within the int range (their laws in `FoldingProps.BitwiseZeroes`, `FoldingProps.BitwiseCommutes` and `FoldingProps.ShiftsFold`) |
| FoldingProps.ArithmeticByZero | parser_expression.cpp:211-218 | integer division by zero gives 0, while `%` by zero and the overflowing `IntMin / -1` and `IntMin % -1` do not fold |
| FoldingProps.BitwiseZeroes | parser_expression.cpp:222-224 | `x & 0`, `0 & x` and `x ^ x` fold to 0 |
| FoldingProps.BitwiseCommutes | parser_expression.cpp:222-226 | `&`, `\|` and `^` fold the same whichever operand comes first |
| FoldingProps.ShiftsFold | parser_expression.cpp:227-232 | a shift count outside 0 to 31 does not fold, nor does a left shift of a negative value; a right shift by a count inside it divides by that power of two, rounding toward minus infinity |
| FoldingProps.ShiftLeftMultiplies | parser_expression.cpp:227-229 | a left shift of a non-negative value multiplies it by the power of two while the product fits in the int range |
| FoldingProps.ShiftRightDivides | parser_expression.cpp:230-232 | the arithmetic right shift by `n` is floor division by 2 to the `n` |
| Folding.FoldRelation | parser_expression.cpp:236-278 | comparisons and `&& \|\|` give 0 or 1, and `<>=` gives -1, 0 or 1 |
| Folding.ShiftLeft | parser_expression.cpp:227-229 | a left shift, when defined, stays in the int range |
| Folding.ShiftRight | parser_expression.cpp:230-232 | an arithmetic right shift stays in the int range |
| Folding.TruncDivInRange | parser_expression.cpp:211-213 | C's truncating quotient stays in range, except for the one overflowing case |
| Folding.TruncModInRange | parser_expression.cpp:279-281 | C's remainder stays in range |
| Folding.TruncDivIsQuotient | parser_expression.cpp:211-213 | the truncating quotient and remainder recombine to the dividend, the remainder is smaller than the divisor, and it takes the dividend's sign |
| Folding.TruncDiv | parser_expression.cpp:211-213 | C's `/` on ints, rounding toward zero (its properties are `Folding.TruncDivIsQuotient` and `Folding.TruncDivInRange`) |
| Folding.TruncMod | parser_expression.cpp:279-281 | C's `%` on ints, the remainder that goes with the truncating quotient (its properties are `Folding.TruncDivIsQuotient` and `Folding.TruncModInRange`) |
| Folding.ToBits | parser_expression.cpp:221-234 | the 32-bit pattern of an int, on which `& \| ^` work (read back by `Folding.FromBits`) |
| Folding.FoldOpt | parser_expression.cpp:204-284 | an unknown operand gives an unknown value; with both known the fold is undefined exactly where the integer fold is, and a known result is in the int range |
| Folding.TypeFromLeaf | parser_expression.cpp:19-42 | a leaf's type name is `int`, `double` or `bool` exactly for the number-like leaves, and `expr` exactly for expression, identifier and token leaves |
| Folding.EvaluateCast | parser_expression.cpp:44-99 | a cast succeeds only when both names, lower-cased, are system integer or floating types |
| Folding.IntResult | parser_expression.cpp:286-288 | an integer fold produces a Boolean leaf for `bool` results and an Integer leaf otherwise, carrying the value |
| Folding.FoldDoubles | parser_expression.cpp:290-383 | corrected, and used by no parsing operation: floating folding applies to every listed operator but the bitwise ones; arithmetic (including `%`) gives a double, comparisons and logic a Boolean and `<>=` an int, with values not computed |
| Folding.FoldDoublesAsWritten | parser_expression.cpp:290-383 | the program's floating fold of the result's kind, used by `Folding.FoldBinary`: like the corrected fold except that `%` is typed `bool` and holds 0 (`Folding.DoubleModuloAsWritten`) |
| Folding.FoldBinary | parser_expression.cpp:161-385 | only the integer path can be undefined; an integer-path result is typed `bool` for comparisons and logic and `int` otherwise; with a double operand the result is unknown or the program's floating fold |
| Folding.FoldUnary | parser_expression.cpp:387-456 | on an int, only `-` of the smallest int is undefined and a result is typed `int`; on a double the fold is defined, and gives nothing exactly for `~` |
| Folding.EvaluateLeaf | parser_expression.cpp:101-139 | an int or double leaf is handed back with its own type name, a Boolean leaf folds to a `bool`, and any leaf that is neither a literal nor an expression gives nothing |
| Folding.Evaluate | parser_expression.cpp:141-458 | an operator the folder does not list gives nothing, and a literal is its first leaf with that leaf's type name |
| Folding.DoubleModuloAsWritten | parser_expression.cpp:363-366 | as written, `%` on doubles is typed `bool` and its leaf carries 0, where the corrected fold gives a double |
| FoldingProps.StandardNames | parser_expression.cpp:46-47 | the standard type names are already lower case |
| FoldingProps.LowerKeepsLowercase | parser_expression.cpp:46-47 | lower-casing text without capitals changes nothing |
| FoldingProps.FoldsIntegerOperands | parser_expression.cpp:186-289 | two integer literals fold to the C result of the operator on their 32-bit values, typed `bool` for comparisons and logic and `int` otherwise, and are undefined exactly where C is |
| FoldingProps.IntegerPath | parser_expression.cpp:191-202 | integer operands take the integer path through two implicit casts to `int` |
| FoldingProps.CastToIntKeeps | parser_expression.cpp:64-68 | an implicit cast from `int` to `int` keeps the leaf |
| FoldingProps.DivisionByZeroFoldsToZero | parser_expression.cpp:211-213 | dividing by a zero literal folds to the int 0 rather than failing |
| FoldingProps.ComparisonsFoldToTruth | parser_expression.cpp:236-263 | a comparison of integer literals folds to a bool leaf that holds 1 exactly when the relation holds and 0 otherwise |
| FoldingProps.SpaceshipFoldsToSign | parser_expression.cpp:264-270 | `<>=` folds to an int holding the sign of the difference |
| FoldingProps.DivisionTruncates | parser_expression.cpp:211-213 | integer division and remainder by a non-zero literal are C's truncating quotient and remainder |
| FoldingProps.OverflowIsUndefined | parser_expression.cpp:208-220 | signed overflow and `%` by zero are undefined rather than wrapped |
| FoldingProps.BoolOperandsActAsInts | parser_expression.cpp:128-136 | a bool operand folds exactly as an int operand with the same value, whatever the other operand |
| FoldingProps.BinaryUnfolds | parser_expression.cpp:186-191 | a binary fold evaluates the left leaf, then the right, then folds the pair |
| FoldingProps.BoolCastsLikeInt | parser_expression.cpp:70-78 | a bool value is cast to `int` like an int value |
| FoldingProps.BoolCastToInt | parser_expression.cpp:70-78 | the cast from `bool` to `int` keeps the value |
| FoldingProps.BoolCastToDouble | parser_expression.cpp:80-86 | bool and int values widen to `double` implicitly |
| FoldingProps.CastToBoolNormalises | parser_expression.cpp:70-78 | a cast of an int literal to `bool` folds to 1 for a non-zero value and to 0 for zero |
| FoldingProps.FloatingNarrowsOnlyExplicitly | parser_expression.cpp:80-96 | int widens to double implicitly, and a double narrows to an integer type only through an explicit cast |
| FoldingProps.MixedArithmeticIsFloating | parser_expression.cpp:191 | arithmetic with one double operand is floating: `+ - * /` yield a double, while `%` yields the `bool` 0 the program types it as |
| FoldingProps.NotOfIntIsTypedInt | parser_expression.cpp:397-418 | `!` of an int folds to 1 for zero and 0 otherwise, and is typed `int` |
| FoldingProps.NegationOverflowsOnlyAtMinimum | parser_expression.cpp:403-405 | negating the smallest int overflows, and every other int negates exactly |
| FoldingProps.UnaryUnfolds | parser_expression.cpp:387-419 | a unary fold of an int literal is the unary operation on its value |
| FoldingProps.UnlistedOperatorsDoNotFold | parser_expression.cpp:143-146 | operators outside the folder's list do not fold (assignment, calls, subscripts, the ternary, the unsigned right shift) |
| FoldingProps.NestedExpressionsFoldThrough | parser_expression.cpp:105-115 | a nested expression leaf folds to what its expression folds to |
| Merging.Classify | parser_expression.cpp:509-603 | `?` and `:` are left to the ternary pass, and only the `=` token reads as assignment |
| Merging.ValidForAssignOperators | parser_expression.cpp:732-749 | the kinds that may precede `=` in a compound assignment are `+ - * / \| & << >> >>>`, all read as operators, and never `=`, `^` or `%` |
| Merging.MergeStep | parser_expression.cpp:503-726 | every step that goes on keeps the index inside the pass, never grows the list, and strictly shrinks what is left to visit |
| Merging.Apply | parser_expression.cpp:624-726 | once the operator is read, the step never grows the list and strictly shrinks what is left to visit |
| Merging.Pass | parser_expression.cpp:500-729 | a pass that succeeds never grows the list, and leaves a non-empty list non-empty |
| Merging.Start | parser_expression.cpp:503 | a pass starts at the first leaf, or at the last for a right-to-left pass |
| Merging.MergeBinaryExpressions | parser_expression.cpp:500-729 | the in-place loop over the leaf list computes exactly what Pass says |
| Merging.TernaryPass | parser_expression.cpp:459-498 | a ternary pass that succeeds never grows the list |
| Merging.FoldTernary | parser_expression.cpp:477-492 | folding `c ? a : b` replaces five leaves by one ternary expression over the three operands with both operator tokens, keeping everything around them |
| Merging.MergeTernaryExpression | parser_expression.cpp:459-498 | the in-place loop computes exactly what TernaryPass says |
| Merging.RunPasses | parser_expression.cpp:1332-1368 | running passes one after another never grows the list |
| Merging.ReduceWith | parser_expression.cpp:1332-1368 | the unary passes, then the binary passes, the ternary and assignment last; the list never grows |
| Merging.ReduceAsWritten | parser_expression.cpp:1332-1368 | the program's reduction: one pass per binary operator, `+` before `-`, `*` before `/` before `%` (its consequence in `MergingProps.AdditiveChainAsWritten`) |
| Merging.Reduce | parser_expression.cpp:1332-1368 | the corrected reduction, used by no parsing operation: the operators of one precedence level merged in one pass (`MergingProps.AdditiveChainGroupsFromLeft`) |
| Merging.ReduceLeaves | parser_expression.cpp:1332-1368 | the pass loop computes exactly `ReduceAsWritten`: the unary passes, then one pass per binary operator in the program's order (so `+` before `-`), then the ternary and assignment passes |
| MergingProps.LeftStepShape | parser_expression.cpp:624-726 | a left-to-right binary step either stops, moves past a position that is not mergeable, or merges the operator at `i` with both operands into one leaf at `i - 1` |
| MergingProps.Merged | parser_expression.cpp:712-723 | the merged list is one leaf shorter by two, with the new binary node in place of the left operand |
| MergingProps.ApplyShape | parser_expression.cpp:624-726 | once the operator of the pass is read, a binary step merges exactly when both neighbours are operands |
| MergingProps.StepKeepsPrefixMerged | parser_expression.cpp:503-726 | a left-to-right step keeps every position before the next index free of mergeable operators |
| MergingProps.LeftPassMergesAll | parser_expression.cpp:500-729 | after a left-to-right binary pass, no operator of the pass stands between two operands |
| MergingProps.BinaryPassIsComplete | parser_expression.cpp:500-729 | the same, for a whole pass from the start of the list |
| MergingProps.OnePassGroupsFromLeft | parser_expression.cpp:712-725 | two operators merged in one pass group from the left: `a op1 b op2 c` becomes `(a op1 b) op2 c` |
| MergingProps.TernaryPassRemovesQuestionmarks | parser_expression.cpp:459-498 | a ternary pass that succeeds leaves no `?` token |
| MergingProps.TernaryFolds | parser_expression.cpp:468-493 | `c ? a : b` folds to one Ternary node over the three operands |
| MergingProps.MalformedTernaryFails | parser_expression.cpp:470-475 | a `?` without `operand : operand` after it fails the whole pass |
| MergingProps.StepUntouched | parser_expression.cpp:630-631 | a step over leaves with nothing to merge moves on without change |
| MergingProps.PassUntouched | parser_expression.cpp:630-631 | a pass over leaves with nothing to merge hands them back unchanged |
| MergingProps.RunPassesSkips | parser_expression.cpp:1332-1368 | passes whose operators do not occur are skipped over |
| MergingProps.RunPassesStep | parser_expression.cpp:1332-1368 | running a list of passes is running the first and then the rest |
| MergingProps.FinalPassesKeepOperand | parser_expression.cpp:1367-1368 | a single operand survives the ternary and assignment passes |
| MergingProps.AdditiveChainAsWritten | parser_expression.cpp:1348-1349 | as written, `+` has a pass of its own before `-`, so `a - b + c` reduces to `a - (b + c)` |
| MergingProps.ReduceToOperand | parser_expression.cpp:1366-1368 | when the unary and binary passes leave one operand, the reduction ends with it |
| MergingProps.NothingToReduce | parser_expression.cpp:1332-1368 | an empty leaf list reduces to the empty list, both as written and corrected |
| MergingProps.AdditiveChainGroupsFromLeft | parser_expression.cpp:1345-1349 | corrected, with the operators of one level merged in one pass, `a - b + c` reduces to `(a - b) + c` |
| MergingProps.ProductBindsTighter | parser_expression.cpp:1345-1348 | corrected (`Reduce`, one pass per precedence level): the multiplicative level runs before the additive one, so `a + b * c` reduces to `a + (b * c)` |
| MergingProps.ProductBindsTighterAsWritten | parser_expression.cpp:1345-1348 | as written (`ReduceAsWritten`, one pass per operator): the pass for `*` runs before those for `/`, `%` and `+`, so `a + b * c` reduces to `a + (b * c)` too |
| Declarations.ReadEnclosedBody | parser_root.cpp:236-250 | a body that reads is the balanced run from after the `{` to the `}` that closes it, and that `}` has been read |
| Declarations.ReadAnnotation | parser_root.cpp:192-217 | `( "text" )` reads to its `)`; the text fills the version when it is literally "version" and the deprecation note otherwise, whichever keyword came before it |
| Declarations.ReadHeaderFlags | parser_root.cpp:187-234 | a header that reads ends at the `{` just read; its flags are the identifiers from the first flag up to that `{` other than `version` and `deprecated`, in order; its version is "version" exactly when some annotation string is literally "version", and its deprecation note is the last annotation string that is not |
| Declarations.FlagWordsSplit | parser_root.cpp:187-234 | the flags of a stretch of tokens are the flags of its first part followed by those of the rest |
| Declarations.FlagWordsOverNonIdentifiers | parser_root.cpp:192-217 | tokens that are not identifiers, as inside an annotation, add no flags |
| Declarations.StringsSplit | parser_root.cpp:192-217 | the annotation strings of a stretch are those of its first part followed by those of the rest |
| Declarations.AnnotationAppends | parser_root.cpp:208-210 | one more annotation string sets the version when it is "version" and the deprecation note otherwise |
| Declarations.ReadObjectDecl | parser_root.cpp:187-263 | a declaration built carries the given name and relations, the flags, version and deprecation note of its header from the given token up to its `{`, no fields, methods or children yet, and as its body the balanced run between the `{` and the `}` just read |
| Declarations.ReadClassRelations | parser_root.cpp:144-185 | reads exactly when the optional `: Parent` and then the optional `replaces Other` are well formed; the parent and the replaced class are the names written after `:` and `replaces` ("" for a part that is absent), and the token handed back, a name or `{`, is the one read after them |
| Declarations.ReadRelation | parser_root.cpp:151-183 | reads exactly when the first solid token is a name and the next one a name or `{`; the class named is that first token, and the token handed back is the one after it |
| Declarations.ReadParent | parser_root.cpp:151-166 | a `:` after the name is followed by the parent name, and reads exactly when that relation is well formed; any other token is handed back as it is, with no parent |
| Declarations.ReadReplaced | parser_root.cpp:169-183 | the word `replaces` is followed by the replaced class name, and reads exactly when that relation is well formed; any other token is handed back as it is, with nothing replaced |
| Declarations.RelationAt | parser_root.cpp:151-183 | a relation, when well formed, hands back a token after the one it starts at |
| Declarations.ReadClassHeader | parser_root.cpp:141-185 | reads exactly when the first solid token after the class name is `:`, `{` or a name and the relations from it are well formed; the parent and replaced names are those the text gives, and the token handed back is the first flag or the `{` |
| Declarations.ReadClassAfterName | parser_root.cpp:141-269 | a class built after its name is a fresh class of that name; its parent and replaced class are those the header text gives, its flags, version and deprecation note those of the stretch after the relations up to the `{`, and its body the balanced run between the `{` and the `}` just read; it extends the named class exactly when it is an extension |
| Declarations.ParseClass | parser_root.cpp:117-269 | a class built is a fresh class named by the first solid word; its parent and replaced class are the names written after `:` and `replaces`, its flags, version and deprecation note those the header gives between the relations and the `{`, and its body is the balanced run between its `{` and the `}` just read; an extension names the class it extends, any other class extends nothing |
| Declarations.ParseStruct | parser_root.cpp:271-377 | a struct built is a fresh declaration named by the first solid word, with no parent, extension or replacement; its flags, version and deprecation note are those the header gives from the first solid token after the name up to the `{`, and its body is the balanced run between its `{` and the `}` just read |
| Declarations.ReadEnumItem | parser_root.cpp:410-461 | an item that reads moves the cursor, and a closed enum has just read its `}` |
| Declarations.ReadEnumValue | parser_root.cpp:436-460 | `= expr` reads to a `,` or `}` just read and records the item's name with its expression |
| Declarations.ReadEnumItems | parser_root.cpp:410-461 | an enum body that reads ends at the `}` just read, and each value recorded is named by an identifier of the body followed by `=`, in the order of the text |
| Declarations.ParseEnum | parser_root.cpp:379-475 | an enum built is named by the first solid word and ends at its `}`; each value recorded is named by an identifier of the body followed by `=`, the names in the order of the text, and the children are the value expressions, one per value, in order |
| Declarations.ParseRootItem | parser_root.cpp:32-113 | an item added to the root is an include, a class, a struct or an enum; after `#` the item succeeds exactly when `include "path"` follows (no newline between) and then adds the include of that path; a token that starts no item is passed over with success and nothing added |
| Declarations.ParseClassItem | parser_root.cpp:68-92 | `class` or `extend class` adds a class exactly when it succeeds, and what it adds is a top-level class |
| Declarations.ParseRoot | parser_root.cpp:4-115 | the root holds only includes and declarations; success means the whole input was read, and empty input succeeds with no children; the version is the string after a leading `version` word, and a leading `version` without a string fails |
| Declarations.ParseRootItems | parser_root.cpp:8-114 | the items after the version are top-level nodes only; success means the whole input was read, and nothing left to read succeeds with no children |
| Declarations.IncludeAfterBlanks | parser_root.cpp:36-50 | blanks before `include` or between it and its path do not change the path read |
| Declarations.VersionAfterBlanks | parser_root.cpp:10-27 | blanks and newlines before `version` do not change the version read |
| Declarations.IncludeExamples | parser_root.cpp:36-58 | `include "a.zs"` reads the path `a.zs`; a newline between the words, or another directive, reads none |
| Fields.Dotted | parser_fields.cpp:616-649 | the position after a dotted name never lies before where its last component ended, nor past the list |
| Fields.DottedSkip | parser_fields.cpp:619-623 | blanks and newlines in front of a `.` do not change what the dotted name comes to |
| Fields.ReadComponent | parser_fields.cpp:619-648 | one `.name` step joins the name on and moves past it, or finds the name ended with the cursor put back, or finds it broken by a `.` without a name after it, each as the dotted-name function says |
| Fields.ReadComponentAt | parser_fields.cpp:623-647 | the step after the blanks agrees with the dotted-name function in each of its three outcomes |
| Fields.ReadDottedName | parser_fields.cpp:616-649 | the loop succeeds exactly when the dotted name is well formed, and then yields its name and ends where it ends |
| Fields.ReadTypeName | parser_fields.cpp:569-661 | a type name starts at an identifier with no blanks before it, is recorded as the resolved (or lower-cased system) name and ends where the name ends; from an identifier it reads exactly when the name is a system type or a well-formed dotted name |
| Fields.ParseCompoundType | parser_fields.cpp:567-695 | reads exactly when the type function finds a type at the cursor (an identifier, a well-formed dotted rest unless it names a system type, and an optional well-formed `<…>` list) and yields that type, under its resolved name with no dimensions; without arguments the cursor is back right after the name and no `<` follows it, with arguments a `<` followed the name and the `>` was the last token read |
| Fields.ReadOptionalArguments | parser_fields.cpp:663-693 | reads exactly when the optional argument list is well formed and yields its types and end: no `<` after the blanks leaves the cursor where it was with no arguments, and otherwise the arguments are those of the list, read to its `>` |
| Fields.ReadTypeArguments | parser_fields.cpp:668-690 | reads exactly when the argument list after the `<` is well formed and yields its types, one at least, ending with the `>` just read |
| Fields.ParseBareType | parser_fields.cpp:567-695 | reads exactly when the type function finds a type at the cursor, and yields that type, ending where it ends, past the cursor and with no dimensions |
| Fields.ReadTypeArgument | parser_fields.cpp:670-689 | reads exactly when one argument (blanks, a type, then `,` or `>` right after it) is well formed, and yields that type; the list is closed exactly by a `>` just read |
| Fields.TypeAt | parser_fields.cpp:567-695 | a type written at a position starts at an identifier, ends past it and carries no dimensions |
| Fields.ArgumentAt | parser_fields.cpp:670-689 | a generic argument ends right after the `>` that closes the list or the `,` that continues it |
| Fields.ArgumentsFrom | parser_fields.cpp:668-690 | an argument list holds one type more than those read before, and ends at a `>` |
| Fields.OptionalArgumentsAt | parser_fields.cpp:663-693 | no arguments means no `<` follows and nothing is read; arguments mean a `<` follows and the list ends at a `>` |
| Fields.TypeAtNamed | parser_fields.cpp:569-693 | a well-formed name and the argument list after it make the type, typed by the resolved name |
| Fields.ArgumentsFromNext | parser_fields.cpp:670-689 | one argument read either closes the list with it or leaves the rest of the list to read after it |
| Fields.OptionalArgumentsCases | parser_fields.cpp:663-693 | the optional list is the argument list after the `<` when one follows, and no arguments otherwise |
| Fields.ArgumentSkip | parser_fields.cpp:670-672 | blanks and newlines in front of an argument do not change it |
| Fields.ArgumentAtType | parser_fields.cpp:672-689 | a type followed right away by `>` or `,` is an argument, closed exactly by the `>` |
| Fields.ReadFlags | parser_fields.cpp:170-236 | the flags are exactly the allowed keywords read, in order, other than the two annotations; reading stops on an identifier that is no keyword; the version is "version" exactly when some annotation string read is literally "version", and the deprecation note is the last annotation string read that is not; a body with nothing left to read yields nothing at its end |
| Fields.ReadFlag | parser_fields.cpp:174-235 | one round of the flag loop: unless it fails, the stretch read so far says one flag, version or deprecation note more, as an allowed keyword or an annotation string gives it; stopping at a word that is no keyword puts it back, and the end of input with nothing read is the nothing-read exit |
| Fields.ReadKeyword | parser_fields.cpp:185-222 | an allowed keyword at the cursor: any word but the annotations is one flag more; `version` or `deprecated` with `( "text" )` sets the version when the text is literally "version" and the deprecation note otherwise; a malformed annotation fails and changes neither |
| Fields.ReadTypes | parser_fields.cpp:238-265 | reads exactly when the type list is well formed: types, each followed after blanks by `,` or a name, up to the first one followed by a name; yields those types, one at least and none with dimensions, and that name, the identifier just read |
| Fields.ReadListedType | parser_fields.cpp:240-259 | reads exactly when one listed type (blanks, a type, blanks, then `,` or a name) is well formed; yields that type without dimensions and the `,` or name just read after it, which says whether the list goes on |
| Fields.ListedTypeAt | parser_fields.cpp:240-259 | a listed type ends at a `,` or a name, the `,` exactly when the list goes on, and carries no dimensions |
| Fields.ListedTypeSkip | parser_fields.cpp:240-242 | blanks and newlines in front of a listed type do not change it |
| Fields.TypesFrom | parser_fields.cpp:238-265 | a type list ends at the identifier naming the member, with one type more than those read before |
| Fields.TypesFromNext | parser_fields.cpp:240-259 | one listed type either names the member next or leaves the rest of the list to read after its `,` |
| Fields.ReadTypeList | parser_fields.cpp:238-265 | the type loop reads exactly when the type list is well formed, and yields its types, none with dimensions, and the name |
| Fields.ReadNextType | parser_fields.cpp:240-259 | one round of the type loop: after a `,` the rest of the list is what is left to read, and at the name the list is complete |
| Fields.ReadDimension | parser_fields.cpp:280-315 | a dimension that reads is `None` exactly for an empty `[]` and is followed by the `;`, `[` or `=` just read |
| Fields.CloseDimension | parser_fields.cpp:298-311 | the `]` is followed by the `;`, `[` or `=` just read |
| Fields.ReadDimensions | parser_fields.cpp:276-316 | one dimension is recorded per `[..]`, the first starting where the list starts and each later one after a `[`, `None` exactly for an empty pair; the list ends at the `;` or `=` after the last `]` |
| Fields.ReadFieldTail | parser_fields.cpp:319-341 | a `;` ends the field on the spot; after `=` the value is read and the field ends at the `;` just read |
| Fields.ReadArgument | parser_fields.cpp:391-473 | an argument that reads is typed, passed as `out` or `ref` at most, holds its default value as its only child, and is followed by the `,` or `)` just read |
| Fields.ReadPassing | parser_fields.cpp:391-404 | `out` or `ref` in any case is the one flag, and only then are the blanks after it skipped; any other identifier is put back |
| Fields.ReadArgumentEnd | parser_fields.cpp:424-453 | after the name comes `,` or `)`, or a default value and then `,` or `)`; the value, if any, is the only child |
| Fields.ReadDefaultValue | parser_fields.cpp:433-453 | a default value is one expression child, followed by the `,` or `)` just read |
| Fields.ReadArguments | parser_fields.cpp:374-475 | an argument list that reads holds only arguments and ends at its `)`, or at a `...` when it had one |
| Fields.ReadMethodTail | parser_fields.cpp:477-530 | the tail adds `const` to the flags exactly when the first solid token after the list is a name (which must be `const`), that token is a name, `{` or `;`; a `{` body is the balanced run up to its `}`, with one more token stepped over, and a `;` gives a signature without a body |
| Fields.ReadMethodOpener | parser_fields.cpp:477-504 | after `const` or nothing, the token read is `{` or `;`; `const` is added exactly when a name came first, and any other name fails |
| Fields.ReadMethodBody | parser_fields.cpp:506-530 | a `;` gives no body and leaves the cursor after it; a `{` gives the balanced run up to its `}`, and one more token is stepped over |
| Fields.ReadField | parser_fields.cpp:276-363 | a field added carries its name, flags, version and deprecation note, and its type is the single type read with the dimensions read after the name, one per `[..]` and none without a `[`; a field with several types is refused |
| Fields.ReadMethod | parser_fields.cpp:364-548 | a method added is a signature carrying its name, return types, version and deprecation note; its arguments are those read one per head, in order, from the first solid token after the `(`, the list ending at the `)` or, exactly when it has an ellipsis, at the `...`; its flags gain `const` exactly when a name is the first solid token after that end |
| Fields.ReadMethodParts | parser_fields.cpp:374-530 | the arguments read are those of the argument list, each an argument read at its head, and the flags have `const` added exactly when a name comes first after the list |
| Fields.ReadMethodEnd | parser_fields.cpp:477-530 | the tail adds `const` to the flags at most, and exactly when a name comes first |
| Fields.ParseMember | parser_fields.cpp:170-548 | a member added is a field or a method signature; the flags of a field, and the version and deprecation note of either, are those the stretch of flags and annotations before its type gives; a body with nothing left ends the pass |
| Fields.ReadPropertyFields | parser_fields.cpp:91-113 | reads exactly when the field list is well formed (names, with a `,` allowed after each, up to a `;`) and yields its names, ending at the `;` just read; those names are exactly the identifiers before that `;`, in order (`Fields.PropertyFieldsAreIdentifiers`) |
| Fields.ReadProperty | parser_fields.cpp:70-124 | a property is added exactly when `property name : fields ;` is well formed from the keyword, and it is the property node of that name and field list, ending at the `;` just read |
| Fields.ReadPropertyHead | parser_fields.cpp:75-89 | the keyword, the name and the `:` read exactly when the name is the first solid token and the `:` the one after it, and yield that name |
| Fields.PropertyHeadAt | parser_fields.cpp:75-89 | the `:` of a property comes after its keyword |
| Fields.PropertyAt | parser_fields.cpp:70-124 | a property read is a property node and ends at a `;` after its keyword |
| Fields.ReadPropertyEntry | parser_fields.cpp:91-113 | one round of the field loop: a name is added, a `,` after a name is passed over, and a `;` ends the list, each as the field-list function says |
| Fields.PropertyFieldsFrom | parser_fields.cpp:91-113 | a field list ends at a `;` and keeps the names read before |
| Fields.PropertyFieldsSkip | parser_fields.cpp:92-106 | blanks and newlines in front of an entry change nothing |
| Fields.IdentifierTexts | parser_fields.cpp:91-113 | the identifier texts of a stretch are at most as many as its tokens |
| Fields.PropertyFieldsAreIdentifiers | parser_fields.cpp:91-113 | the fields of a property are exactly the identifiers before its `;`, in the order written |
| Fields.PropertyFieldsExamples | parser_fields.cpp:91-113 | `a, b;` lists two fields, `;` none and `a,;` one, while `a b;` is refused |
| Fields.SkipSection | parser_fields.cpp:125-168 | a `default` or `states` section is stepped over up to the `}` that closes it, adding nothing |
| Fields.SkipBlockBody | parser_fields.cpp:136-145 | the inside of a skipped section ends at the `}` just read |
| Fields.ParseItem | parser_fields.cpp:28-168 | an item that is added or skipped moves the cursor, and what it adds is a signature or a struct with a shorter body |
| Fields.ReadItems | parser_fields.cpp:15-549 | a body that reads yields only item nodes and is read to its end, a body with nothing left to read succeeds with no items, and the loop never ends through the nothing-read exit |
| Fields.ParseObjectFields | parser_fields.cpp:4-565 | only the object's children change, on success every child is a finished member, nested structs included, and a body with nothing to read succeeds and leaves the object as it is |
| Fields.ParseNested | parser_fields.cpp:554-564 | the nested pass keeps every item that is not a struct as it is, and on success every child is a finished member |
| Statements.LoopBeforeObjectIff | parser_methods.cpp:55-66 | the walk up the parent chain finds a cycle exactly when some cycle stands in the chain before any class or struct |
| Statements.BlockFlags | parser_methods.cpp:53-66 | a block accepts `break` and `continue` exactly when a cycle comes before any class or struct up its chain, and otherwise everything a function body accepts |
| Statements.BodyChainAsWritten | parser_methods.cpp:542 | the chain a braced body is parsed under, as the program passes it: the caller's (`Statements.AsWrittenForBodyRejectsCycleControl`) |
| Statements.BodyChain | parser_methods.cpp:542 | the chain as intended, used by no parsing operation: the receiving cycle's (`Statements.ForBodyAcceptsCycleControl`) |
| Statements.AsWrittenForBodyRejectsCycleControl | parser_methods.cpp:142 | as written every chain a block is parsed under is made of code blocks only, so a braced `for` body never accepts `break` or `continue` |
| Statements.ForBodyAcceptsCycleControl | parser_methods.cpp:142 | parsed under the chain of the cycle that receives it, a braced `for` body accepts `break` and `continue` |
| Statements.BreakRecordedAsContinue | parser_methods.cpp:230-243 | read from the `;` that the program has just expected, a `break` is recorded as a `continue`; read from the keyword it is a `break` |
| Statements.LocalsOfAreSame | parser_methods.cpp:348-442 | the locals of one declaration share the type name and arguments of the first |
| Statements.Widen | parser_methods.cpp:163-168 | the flags gate only the top of a statement, so a statement accepted under some flags is accepted under more |
| Statements.Listed | parser_methods.cpp:158-161 | a statement reader's single node becomes a one-element list, and nothing an empty list |
| Statements.ReadValue | parser_methods.cpp:199-221 | a value that reads is the expression the expression reader makes of the leaves it collected, followed by the separator just read, one of those allowed; when that reader makes no expression, there is no value |
| Statements.ReadLet | parser_methods.cpp:180-226 | each `name = value` of a `let` is an untyped local named by the first solid token, an identifier; its only child is the expression the expression reader makes of the leaves it read after the `=`, and it ends at the `,` or `;` just read, the `;` exactly for the last |
| Statements.ReadLets | parser_methods.cpp:177-229 | a `let` yields untyped locals only; the first is named by the first solid token and each later one by the first solid token after the `,` that ended the one before, and one that yields any ends at the `;` just read |
| Statements.NamesGrow | parser_methods.cpp:180-226 | a local read right after the `,` that ended the last one extends the locals read so far |
| Statements.ReadControl | parser_methods.cpp:230-243 | corrected, and used by no parsing operation: `break;` or `continue;` yields one control node of the keyword's kind ending at the `;`, or nothing when the `;` is missing |
| Statements.ReadControlAsWritten | parser_methods.cpp:230-243 | as written, and used by `ParseStatement`: the control node's kind is read from the `;` just read, so both keywords give the same node |
| Statements.ReadReturn | parser_methods.cpp:244-282 | a return yields one return node, ending at its `;`, with at most one child, an expression |
| Statements.ReadLocalDimensions | parser_methods.cpp:376-415 | there is one dimension expression per `[..]` that the subscripts function finds from the first `[`, in order, none empty, and reading them ends where the subscripts end, at the first solid token after the last `]` that is not a `[`; none are read when a `[` is left without its `]` |
| Statements.SubscriptsAt | parser_methods.cpp:376-415 | the subscripts from a `[` start there and end past it, at the end of input or on a token that is neither blank nor `[` |
| Statements.SubscriptsAreBrackets | parser_methods.cpp:378-414 | each subscript runs from a `[` to a later `]`, and each starts after the one before ends |
| Statements.SubscriptClose | parser_methods.cpp:380-392 | the `]` of a subscript is searched for after its `[` |
| Statements.ReadLocalInit | parser_methods.cpp:361-415 | after the name the first solid token decides: `=` gives the one value the expression reader makes of what follows and no dimensions, `[` gives the dimensions the subscripts function finds, ending where they end, and anything else gives neither, with the cursor on that token |
| Statements.ReadLocal | parser_methods.cpp:348-442 | each local of a declaration is named by the first solid token, has the declared type with its own dimensions, one per subscript after the name, is `const` when the declaration is, after `=` holds its value as the only child, and ends at the `,` or `;` just read, the `;` exactly for the last |
| Statements.ReadLocals | parser_methods.cpp:332-443 | a declaration yields typed locals of its type only; the first is named by the first solid token and each later one by the first solid token after the `,` that ended the one before, and one that yields any ends at its `;` |
| Statements.ReadLocalEnd | parser_methods.cpp:416-441 | a local ends at the first solid token after it, a `,` or a `;`, the `;` exactly for the last |
| Statements.ReadPlain | parser_methods.cpp:314-444 | a statement with no accepted keyword is nothing, one expression, or locals of one type, `const` exactly when the statement's first word is `const` |
| Statements.ParseStatement | parser_methods.cpp:154-448 | every node yielded is a statement the flags accept and is what the first solid token calls for, with `break;` and `continue;` read as the program reads them; at the end nothing is yielded, and a first token that is not a word is swallowed with nothing yielded |
| Statements.ParseCodeBlock | parser_methods.cpp:48-80 | a block holds statements that the flags of its chain accept, and ends at the first statement that yields nothing |
| Statements.ParseCodeBlockOrLine | parser_methods.cpp:518-567 | a body that reads is a code block of statements and moves the cursor; a braced body is parsed under the caller's chain, as the program does |
| Statements.ParseCondition | parser_methods.cpp:455-514 | a condition holds one body and, when there is an `else`, an else body; without one the next solid token is not the word `else` |
| Statements.ReadStep | parser_methods.cpp:115-138 | a step that reads moves the cursor, and the last one ends at the `)` just read |
| Statements.ReadSteps | parser_methods.cpp:113-138 | a `for` cycle has one step at least, and its step list ends at the `)` just read |
| Statements.ParseForCycle | parser_methods.cpp:87-152 | a cycle holds initialisers that a cycle initialiser accepts, one step at least and one body |
| Statements.ConstantValues | parser_methods.cpp:571-580 | the values highlighted are no more than the enum's children |
| Statements.ParseEnumExpressions | parser_methods.cpp:569-583 | the loop is defined exactly when the first child of every constant that has children is an expression, and then succeeds and hands back those values, in order |
| Statements.NoConstantsNoValues | parser_methods.cpp:571-580 | a list without constants highlights nothing |
| Statements.EnumHasNoConstants | parser_methods.cpp:569-583 | an enum as the root pass builds it (its children its bare value expressions) holds no constants, so the enum pass highlights nothing |
| Statements.ParseMethodMember | parser_methods.cpp:17-33 | a method gains its parsed body as its last child and nothing else changes |
| Statements.ParseObjectMethods | parser_methods.cpp:4-46 | the method pass reports success whenever it is defined, and leaves every node processed: methods with bodies, objects recursively, everything else untouched |

## Left out

- UI and document handling: the Qt widgets, text formatting and tabs. `Document::parse` only wraps the parser.
- `Project::readDir`: it walks the file system with QDir and QFileInfo.
- Floating point:
  - `toDouble` for decimal and floating literals. Integer literals are modelled by their digits.
  - The double branch of `evaluate`, including `fmod` and the 1e-6 epsilon. `Folding.FoldDoubles` gives only the result's kind and type, never its value.
- Semantic highlighting: `highlightExpression` and the `parsedTokens` appends. They depend on resolvers that are not part of this model. The one exception is the Comment tokens that `parse` records.
- Debug and string output: `dumpExpression`, `operatorToString`, `tokenToString`, `Token::toCString` and the `qDebug` diagnostics.
- Memory management: `delete`, the `goto fail` clean-up, destructors and shared-pointer ownership. Values are immutable datatypes.
- Line numbers: `curLine`, the rescan in `Tokenizer::setPosition`, and `line()`, which is not part of this model. Every `line` field keeps its default value.
- `Tokenizer::expectToken`: nothing in the parser calls it.
- The resolvers `resolveType`, `resolveSystemType`, `getFullType` and `parseConstant` are not part of this model. They are parameters: `Fields.TypeEnv` and `Fields.ConstantReader`.
- The reduction passes rewrite the leaf list in place. `Merging.MergeBinaryExpressions` and `Merging.MergeTernaryExpression` are loops over a local `seq`; aliasing of the C++ list is not modelled.
- Parsing.RunPasses: only success is described. The postcondition does not state that a failing root, field or method pass ends the run with that failure.
- Parsing.Parse: the same. Failure is not described beyond the comments it hands back.
- Character units: the program reads its text as UTF-16 code units, and the model reads a `string` of Unicode scalar values. A character outside the Basic Multilingual Plane that is not inside a string or comment makes two one-unit Invalid tokens in the program and one Invalid token in the model, and every later start position and length is shifted by one for each such character.
- ExpressionParser.ParseExpression: the result is tied to `Finish` of the leaves collected, but the leaves themselves are not stated in terms of the tokens read; what each operand reader adds is stated only by its own contract.
- Declarations.ParseEnum: each value recorded is named by an identifier followed by `=` in the text, in order, but not every `name = expr` of the text is stated to be recorded, and the recorded expressions are not tied to the tokens they were read from. The other direction would need a function of the text saying where each value expression ends, and the expression reader's stopping point is not stated in terms of the tokens (see `ExpressionParser.ParseExpression`).
- Declarations.ReadEnumItems: the same one direction as `ParseEnum`, for the same reason: where a value expression ends, and so where the next item starts, is not a function of the text in this model.
- Fields.ParseObjectFields: each member's flags, types, name, dimensions, arguments and property fields are tied to the text by the contracts of the readers it calls (`Fields.TypeAt`, `Fields.TypesFrom`, `Fields.ArgumentListAt`, `Fields.PropertyAt`), but there is no specification of the whole body saying which member each stretch of text becomes.
- ReadMethod: the method body kept for the method pass is stated only as a balanced run up to its `}`, by `Fields.ReadMethodBody`; the argument default values are not tied to their tokens, only to the expression reader's result.
- Statements.ParseStatement: for `let`, `return`, `if`, `for` and plain statements it allows an empty result whatever the text, so it does not state when those readers succeed.
- Folding.ToBits: its round trip through `Folding.FromBits` is not proved, since the solver cannot relate an integer converted to `bv32` back to its value.
- FoldBitwise: `x | 0 == x`, `x ^ 0 == x` and the bound on `&` of non-negative operands are not proved, because they need the round trip between an int and its `bv32` bits, which the solver does not close.
- ReadLocalDimensions: each dimension expression is what the expression reader makes of the tokens between its brackets, but the leaves that reader collects are not stated in terms of those tokens (as for `ExpressionParser.ParseExpression`).
- ReadLocalInit: the same for the value after `=`; it is tied to the expression reader's result, not to the tokens it was read from.
- ReadLet: the same for the value of a `let` local.
- Folding.TruncDiv and Folding.TruncMod: they carry no contract of their own; their meaning is stated by `Folding.TruncDivIsQuotient`, because a magnitude contract on the quotient needs non-linear arithmetic the solver does not close.

## Findings

In each row below but the last-but-one (the missing return of `parse`), the parser chain uses the as-written behaviour; the corrected member states what was evidently intended and is proved on its own.

| source | as written | input that shows it | evidently intended | confidence | as-written member | corrected member |
|---|---|---|---|---|---|---|
| parser_expression.cpp:1376-1426 | when exactly one leaf is left and it is a raw operator token or an invalid leaf, `parseExpression` returns null without putting the cursor back | an expression consisting of the single token `!` | every failure puts the cursor back where the expression began | not executed | ExpressionSyntax.LoneTokenKeepsCursorAsWritten | ExpressionSyntax.Settle |
| parser_expression.cpp:1192-1197 | after a subscript, the next `[` is only peeked at, so the next body starts at that `[` and its bracket never closes | `a[1][2]` | the `[` is stepped over, giving the two subscripts `1` and `2` | not executed | ExpressionSyntax.SecondBodyAsWritten | ExpressionSyntax.NestedSubscripts |
| parser_methods.cpp:542 | a braced body is parsed under the caller's `parent` rather than under the cycle that receives it, so the parent chain never holds a cycle | `for (i = 0; i < 1; i++) { break; }` | a braced `for` body accepts `break` and `continue` | not executed | Statements.AsWrittenForBodyRejectsCycleControl | Statements.ForBodyAcceptsCycleControl |
| parser_methods.cpp:234-240 | the control kind is read from `token` after it has been overwritten by the `;` | `break;` inside a cycle | `break` gives a break node | not executed | Statements.BreakRecordedAsContinue | Statements.ReadControl |
| parser_expression.cpp:363-366 | `%` on doubles sets the result type to `bool` | `1.5 % 2.0` | the result is a double, like the other arithmetic operators | not executed | Folding.DoubleModuloAsWritten | Folding.FoldDoubles |
| parser_expression.cpp:1345-1349 | `*`, `/`, `%` and then `+`, `-` each get a pass of their own, so within one level the later operator binds tighter | `a - b + c` reduces to `a - (b + c)` | operators of one level group from the left: `(a - b) + c` | not executed | MergingProps.AdditiveChainAsWritten | MergingProps.AdditiveChainGroupsFromLeft |
| parser.cpp:23-81 | when every pass succeeds, control reaches the end of `parse` with no `return`, which is undefined for a function returning `bool` | any input that parses | `parse` returns true | not executed | Parsing.ParseAsWritten | Parsing.Parse |
| project.cpp:55-56 | after removing a slash, `continue` also steps past the character that moved into place, and `wasslash` stays set | `a///b` becomes `a//b`; `a//b/c` becomes `a/bc` | every run of slashes collapses to one (the intent stated at project.cpp:47) | not executed | Projects.AsWrittenMisses | Projects.CollapseIsClean |
