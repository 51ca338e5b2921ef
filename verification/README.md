# pg-orm schema front end, modelled in Dafny

This project models the front end of the pg-orm schema language:

- the **tokenizer** that turns schema text into tokens with line, column and offset positions;
- the recursive-descent **parser** that builds an abstract syntax tree (AST) of models, fields, attributes and values, and recovers from errors;
- the **AST builders**;
- the **validator** that reports duplicate and colliding definition names.

Each part takes the form the source gives it:

- `Tokens` (`tokens.dfy`) and `Ast` (`ast.dfy`) are datatypes and pure builder functions.
- `Lexical` (`lexical.dfy`) is the pure lexical specification:
  - `LexemeAt` says which token the main loop reads at an offset.
  - `PositionAt` says where the cursor stands after a prefix.
  - `IsTokenization` says what a complete token list of an input is.

  Its lemmas show that the token list is unique, ordered and positioned, and that it drops nothing but whitespace.
- `Tokenizer` (`tokenizer.dfy`) is imperative, like `tokenize`. The class `Scanner` holds the cursor that the closures of `tokenize` share, and one method per reader. `Tokenize` runs the main loop and is proved to produce the tokenization of its input.
- `Grammar` (`grammar.dfy`) is the pure specification of each parsing rule as a function of the token list and a cursor.
  - It returns `Success(value, next)` or `Failure(reason, at)`, where `at` is the cursor at the point the source throws.
  - Its lemmas state what the rules guarantee: error messages, positions, the shape of fields and attributes, where models come from, and recovery.
- `SchemaParser` (`parser.dfy`) is the class `Parser` with its `tokens` and `current` fields. Every method is proved to agree with the grammar function of the same rule: the same result or error, and the same cursor afterwards.
- `GrammarExamples` (`grammar_examples.dfy`) works through two token shapes for any names and positions:
  - a model with one annotated field;
  - a broken model followed by a good one.
- `Validator` (`validator.dfy`) has two parts:
  - a specification `Validation` with lemmas that count each error kind and characterise validity;
  - the imperative `ValidateSchema` with its loops, proved equal to that specification, and `AssertValidSchema`.

Three behaviours of the code worth noting:

- **Cross-kind collisions.** The collision check runs over the three name *sets*, not the raw name lists. A name repeated inside one list therefore adds no extra collision report. A name used by k of the three kinds is reported k − 1 times (`Validator.CollisionRule`).
- **Unterminated block comments.** A block comment that never closes runs to the end of the input, and its token's text gets a closing `*/` appended (`Lexical.LexemeAt`).
- **Error positions.** A parsing error carries its line and column only inside its message text. The error object's own `line` and `column` fields are left unset.

## Model

Source paths are relative to the repository root.

| member | source | states |
|---|---|---|
| Tokens.CreateToken | packages/schema/src/parser/tokens.ts:74-84 | the token carries exactly the given kind, raw value and position |
| Tokens.KeywordTable | packages/schema/src/parser/tokens.ts:52-60 | the keyword set has seven entries, and `true`/`false` are not keywords (so they become BOOLEAN tokens) |
| Ast.CreateSchemaNode | packages/schema/src/parser/ast/builder.ts:32-43 | a SCHEMA-tagged node at the location, with all six definition lists empty |
| Ast.CreateDatasourceNode | packages/schema/src/parser/ast/builder.ts:48-59 | a DATASOURCE node holding the name, properties and location |
| Ast.CreateGeneratorNode | packages/schema/src/parser/ast/builder.ts:64-75 | a GENERATOR node holding the name, properties and location |
| Ast.CreatePropertyNode | packages/schema/src/parser/ast/builder.ts:80-90 | an untagged property holding name, value and location |
| Ast.CreateModelNode | packages/schema/src/parser/ast/builder.ts:95-108 | a MODEL node holding the name, fields, attributes and location |
| Ast.CreateFieldNode | packages/schema/src/parser/ast/builder.ts:113-130 | a FIELD node holding the name, type reference, flags, attributes and location |
| Ast.CreateTypeReferenceNode | packages/schema/src/parser/ast/builder.ts:135-147 | an untagged type reference holding name, array and required flags and location |
| Ast.CreateAttributeNode | packages/schema/src/parser/ast/builder.ts:152-165 | an ATTRIBUTE node holding name, field flag, arguments and location |
| Ast.CreateArgumentNode | packages/schema/src/parser/ast/builder.ts:170-180 | an untagged argument holding the value, the optional name and location |
| Ast.CreateEnumNode | packages/schema/src/parser/ast/builder.ts:185-198 | an ENUM node holding name, values, attributes and location |
| Ast.CreateTypeNode | packages/schema/src/parser/ast/builder.ts:203-218 | a TYPE node holding name, optional base type, optional fields, attributes and location |
| Ast.CreateViewNode | packages/schema/src/parser/ast/builder.ts:223-238 | a VIEW node holding name, fields, attributes, materialized flag and location |
| Ast.CreateIdentifierNode | packages/schema/src/parser/ast/builder.ts:243-252 | an IDENTIFIER value with the name and location |
| Ast.CreateStringNode | packages/schema/src/parser/ast/builder.ts:257-266 | a STRING value with the text and location |
| Ast.CreateNumberNode | packages/schema/src/parser/ast/builder.ts:271-280 | a NUMBER value with the literal and location |
| Ast.CreateBooleanNode | packages/schema/src/parser/ast/builder.ts:285-294 | a BOOLEAN value with the flag and location |
| Ast.CreateNullNode | packages/schema/src/parser/ast/builder.ts:299-304 | a NULL value at the location |
| Ast.CreateArrayNode | packages/schema/src/parser/ast/builder.ts:309-318 | an ARRAY value with the elements and location |
| Ast.CreateFunctionCallNode | packages/schema/src/parser/ast/builder.ts:323-334 | a CALL-tagged value with the name, arguments and location |
| Ast.ValueTagsDistinct | packages/schema/src/parser/ast/nodes.ts:172-179 | the value union is discriminated: two values with the same tag are the same variant |
| Lexical.IsWhitespace | packages/schema/src/parser/tokenizer.ts:59-61 | space, tab, newline and carriage return are whitespace, and no whitespace character is a digit or an underscore |
| Lexical.IsIdentifierChar | packages/schema/src/parser/tokenizer.ts:66-68 | only ASCII characters qualify, the digits and the underscore among them |
| Lexical.IsDigit | packages/schema/src/parser/tokenizer.ts:73-75 | exactly the ten ASCII digits |
| Lexical.CharacterClasses | packages/schema/src/parser/tokenizer.ts:59-75 | every digit is an identifier character; a whitespace character is neither an identifier character nor one that starts a comment, string or punctuation token |
| Lexical.PositionOffset | packages/schema/src/parser/tokenizer.ts:22-30 | after consuming i characters the offset is i |
| Lexical.PositionAtMeaning | packages/schema/src/parser/tokenizer.ts:22-30 | the position after a prefix: offset = its length, line = 1 + its newlines, column − 1 = the characters since the last newline, which is a newline |
| Lexical.SpanWhile | packages/schema/src/parser/tokenizer.ts:42-54 | the end of the longest run satisfying the predicate: all inside satisfy it, and the next character (if any) does not |
| Lexical.FindClose | packages/schema/src/parser/tokenizer.ts:106-116 | the first `*/` at or after the cursor, or the input's end when there is none |
| Lexical.StringEnd | packages/schema/src/parser/tokenizer.ts:133-155 | the scan of a string body stays inside the input and ends just after a quote character, or at the input's end |
| Lexical.StringEndScan | packages/schema/src/parser/tokenizer.ts:133-155 | resumed at an unescaped point with no closing quote behind it, the scan stops just after the first quote not escaped by an odd run of backslashes, or at the input's end when there is none |
| Lexical.StringEndFirstQuote | packages/schema/src/parser/tokenizer.ts:133-155 | a string ends just after the first quote of its body that is not escaped; when the input ends first, the body holds no such quote |
| Lexical.StringEndEscapedQuote | packages/schema/src/parser/tokenizer.ts:136-150 | in `'a\'b'` the backslash escapes the middle quote, so the string ends after the last quote, at offset 6 |
| Lexical.NumberEnd | packages/schema/src/parser/tokenizer.ts:163-176 | a number is digits with at most one `.`, stops at the first character that is not a digit, and stops on a `.` only when it already holds one |
| Lexical.ClassifyWord | packages/schema/src/parser/tokenizer.ts:181-197 | a word is BOOLEAN exactly when it is `true`/`false`, KEYWORD exactly when it is in the keyword set, otherwise IDENTIFIER |
| Lexical.PunctuationOneToOne | packages/schema/src/parser/tokenizer.ts:242-288 | exactly the twelve punctuation characters get a dedicated kind, and that kind maps back to the character; everything else is UNKNOWN |
| Lexical.LexemeAt | packages/schema/src/parser/tokenizer.ts:200-291 | the token read at a non-whitespace offset consumes at least one character, is never EOF or whitespace, and its value is the text consumed (plus `*/` for an unterminated block comment) |
| Lexical.LexemeKinds | packages/schema/src/parser/tokenizer.ts:200-291 | which token starts on which character: COMMENT exactly on `//` or `/*`; STRING exactly on a quote, ending where `StringEnd` says; NUMBER exactly on a digit, tested before words, so `123abc` starts with a number; a word exactly on any other identifier character; AT_AT exactly on `@@`, tried before `@`; AT on a lone `@`; any other character alone, as its punctuation kind or UNKNOWN |
| Lexical.TokenAt | packages/schema/src/parser/tokenizer.ts:200-291 | the token read at an offset is positioned at that offset, has nonempty text, and is never EOF or whitespace |
| Lexical.ScannedSkip | packages/schema/src/parser/tokenizer.ts:204-208 | skipping whitespace keeps the tokens read so far a valid scan |
| Lexical.ScannedPush | packages/schema/src/parser/tokenizer.ts:200-291 | pushing the token read at the cursor extends the scan to where that token ends |
| Lexical.ScansAgree | packages/schema/src/parser/tokenizer.ts:200-291 | two scans of the same input agree token by token |
| Lexical.ScanIsLongest | packages/schema/src/parser/tokenizer.ts:200-291 | no scan has more tokens than a scan of the whole input |
| Lexical.TokenizationUnique | packages/schema/src/parser/tokenizer.ts:9-296 | an input has exactly one tokenization |
| Lexical.OffsetsIncreaseFrom | packages/schema/src/parser/tokenizer.ts:200-291 | tokens of a scan start at strictly increasing offsets |
| Lexical.ScannedToken | packages/schema/src/parser/tokenizer.ts:200-291 | each scanned token is neither EOF nor whitespace, starts inside the input and is positioned at its offset |
| Lexical.TokenizationKinds | packages/schema/src/parser/tokenizer.ts:200-294 | the last token is EOF with empty text, and no token before it is EOF or whitespace |
| Lexical.TokenizationPositions | packages/schema/src/parser/tokenizer.ts:200-294 | every token is positioned at its offset, and EOF at the end of the input |
| Lexical.TokenizationOrdered | packages/schema/src/parser/tokenizer.ts:200-294 | token offsets strictly increase, and EOF's offset is the input length |
| Lexical.BlankInput | packages/schema/src/parser/tokenizer.ts:200-294 | empty or whitespace-only input gives the EOF token alone |
| Lexical.CoveredBefore | packages/schema/src/parser/tokenizer.ts:200-291 | a non-whitespace character before a scan's cursor lies inside an earlier token |
| Lexical.NothingElseDiscarded | packages/schema/src/parser/tokenizer.ts:200-291 | every non-whitespace character of the input lies inside some token: only whitespace is dropped |
| Tokenizer.Scanner.CurrentPosition | packages/schema/src/parser/tokenizer.ts:35-37 | a snapshot of the cursor's line, column and offset |
| Tokenizer.Scanner.constructor | packages/schema/src/parser/tokenizer.ts:9-17 | the cursor starts at offset 0 of the input (line 1, column 1) |
| Tokenizer.Scanner.UpdatePosition | packages/schema/src/parser/tokenizer.ts:22-30 | a newline moves to column 1 of the next line, any other character one column on; the offset always advances by one |
| Tokenizer.Scanner.Step | packages/schema/src/parser/tokenizer.ts:22-30 | consuming the character under the cursor advances the offset by one and keeps the line and column where the consumed prefix puts them |
| Tokenizer.Scanner.ReadWhile | packages/schema/src/parser/tokenizer.ts:42-54 | stops at the end of the longest run satisfying the predicate, and returns exactly the text consumed |
| Tokenizer.Scanner.ReadLineComment | packages/schema/src/parser/tokenizer.ts:80-91 | a COMMENT token from `//` up to (not including) the next newline, at the start position |
| Tokenizer.Scanner.ReadBlockComment | packages/schema/src/parser/tokenizer.ts:96-119 | a COMMENT token from `/*` through the first `*/`, or to the end of the input with `*/` appended |
| Tokenizer.Scanner.ReadCommentBody | packages/schema/src/parser/tokenizer.ts:104-116 | collects the text up to the first `*/` and stops after it, or at the end of the input |
| Tokenizer.Scanner.ReadString | packages/schema/src/parser/tokenizer.ts:124-158 | a STRING token at the start position whose raw value runs from the opening quote to where `StringEnd` stops; unless the input ended, its last character is the first unescaped matching quote |
| Tokenizer.Scanner.ReadStringBody | packages/schema/src/parser/tokenizer.ts:133-155 | the loop stops where `StringEnd` says and returns exactly the text it consumed |
| Tokenizer.Scanner.ReadNumber | packages/schema/src/parser/tokenizer.ts:163-176 | a NUMBER token of the digits, then optionally `.` and digits |
| Tokenizer.Scanner.ReadIdentifier | packages/schema/src/parser/tokenizer.ts:181-197 | a word of identifier characters classified as BOOLEAN, KEYWORD or IDENTIFIER |
| Tokenizer.Scanner.ReadToken | packages/schema/src/parser/tokenizer.ts:200-291 | one iteration of the main loop reads the token the lexical specification gives at the cursor and stops where it ends |
| Tokenizer.Tokenize | packages/schema/src/parser/tokenizer.ts:9-296 | the returned list is the (unique) tokenization of the input |
| LexicalExamples.PunctuationRow | packages/schema/tests/parser/tokenizer.test.ts:69-85 | `{}[]()=.,?@@@` has exactly the thirteen tokens: the ten punctuation kinds at columns 1 to 10, then AT_AT at column 11, AT at column 13 and EOF at column 14 |
| LexicalExamples.ThreeAtSigns | packages/schema/src/parser/tokenizer.ts:276-284 | after ten scanned characters on one line, three at-signs read as AT_AT at column 11, then AT at column 13 |
| LexicalExamples.DigitsThenWord | packages/schema/src/parser/tokenizer.ts:227-237 | three digits then three letters tokenize to a NUMBER of the digits, a word classified from the letters at column 4, and EOF |
| LexicalExamples.DigitsThenLetters | packages/schema/src/parser/tokenizer.ts:227-237 | `123abc` tokenizes to NUMBER `123`, IDENTIFIER `abc` and EOF |
| Grammar.Advanced | packages/schema/src/parser/parser.ts:314-317 | advancing stays on the list and does not move past EOF |
| Grammar.NatToString | packages/schema/src/parser/parser.ts:253 | the decimal rendering of a line or column: nonempty digits, a leading 0 only for zero |
| Grammar.NatToStringRoundTrip | packages/schema/src/parser/parser.ts:253 | reading the rendered digits back gives the number |
| Grammar.IntToString | packages/schema/src/parser/parser.ts:253 | a number that is not negative renders as digits, with no leading zero, whose value is the number; a negative one as `-` and digits, not starting with 0, whose value is its magnitude |
| Grammar.SchemaParsingError.Message | packages/schema/src/parser/parser.ts:250-255 | the message is the reason followed by ` at line L, column C` |
| Grammar.ErrorAt | packages/schema/src/parser/parser.ts:250-255 | an error carries the message and the position of the token at the cursor |
| Grammar.Consume | packages/schema/src/parser/parser.ts:340-343 | succeeds exactly when the current token has the kind, returning it and moving one on; otherwise fails with the message at the cursor |
| Grammar.JsSubstring | packages/schema/src/parser/parser.ts:213 | JavaScript's `substring` is never longer than the string, and bounds in order inside the string take exactly that slice |
| Grammar.JsSubstringSymmetric | packages/schema/src/parser/parser.ts:213 | swapping the bounds changes nothing, and bounds beyond both ends take the whole string |
| Grammar.StripQuotes | packages/schema/src/parser/parser.ts:212-213 | JavaScript's `substring(1, length − 1)`: drops first and last character, keeps a one-character value whole, empty stays empty |
| Grammar.StripQuotesInverse | packages/schema/src/parser/parser.ts:210-215 | stripping a quoted text gives the text back |
| Grammar.ParseValueAt | packages/schema/src/parser/parser.ts:207-245 | STRING, NUMBER, BOOLEAN and IDENTIFIER each give a value of that kind located at the token and move one on: the string without its first and last character, the number and identifier with their raw text, the boolean true exactly when the text is `true`; `[` gives an array; every other token fails with `Expected value, got KIND` |
| Grammar.ArrayAt | packages/schema/src/parser/parser.ts:225-238 | an array value located at its `[`, whose last token is `]` |
| Grammar.ElementsAt | packages/schema/src/parser/parser.ts:229-233 | the element loop consumes input, keeps the elements so far as a proper prefix, and stops where no comma follows |
| GrammarLists.ElementsRead | packages/schema/src/parser/parser.ts:229-233 | the elements it adds are a comma-separated run of values: each is what the value rule gives at its position, the next starts just after the comma that follows it, and the last ends where the loop stops |
| GrammarLists.ElementsOfTrace | packages/schema/src/parser/parser.ts:229-233 | conversely, the loop run over such a run of values adds exactly those values and stops after the last one |
| GrammarLists.ArrayContents | packages/schema/src/parser/parser.ts:225-238 | the value at `[` is an array located there whose last token is `]`; `[]` has no elements, otherwise the elements are the comma-separated run of values between the brackets |
| Grammar.ParseArgumentAt | packages/schema/src/parser/parser.ts:188-202 | an argument is named exactly when IDENTIFIER `:` starts it; a named argument's value starts after the colon, a positional one at the argument |
| Grammar.ArgumentsAt | packages/schema/src/parser/parser.ts:174-176 | the argument loop consumes input, keeps the arguments so far as a proper prefix, and stops where no comma follows |
| GrammarLists.ArgumentsRead | packages/schema/src/parser/parser.ts:174-176 | the arguments it adds are a comma-separated run: each is what the argument rule gives at its position, the next starts just after the comma that follows it, and the last ends where the loop stops |
| GrammarLists.ArgumentsOfTrace | packages/schema/src/parser/parser.ts:174-176 | conversely, the loop run over such a run of arguments adds exactly those arguments and stops after the last one |
| Grammar.ArgumentListAt | packages/schema/src/parser/parser.ts:173-179 | an argument list that succeeds ends with its `)` |
| GrammarLists.ArgumentListContents | packages/schema/src/parser/parser.ts:173-179 | `()` gives no arguments; otherwise the arguments are the comma-separated run of arguments before the `)`, which ends the list |
| Grammar.ParseAttributeAt | packages/schema/src/parser/parser.ts:162-183 | an attribute has the IDENTIFIER's name and the given field flag, is located at its `@`/`@@`, has arguments only after `(`, and fails with `Expected attribute name` otherwise |
| Grammar.AttributeArgumentsAt | packages/schema/src/parser/parser.ts:171-180 | no `(` means no arguments and no tokens consumed |
| Grammar.FieldAttributesAt | packages/schema/src/parser/parser.ts:151-154 | the `@` loop keeps earlier attributes, stops where no `@` follows, and adds only field attributes |
| Grammar.TypeModifiersAt | packages/schema/src/parser/parser.ts:129-140 | array exactly when `[` follows the type, required exactly when no `?` follows that |
| Grammar.ParseFieldAt | packages/schema/src/parser/parser.ts:120-157 | a field has the name token's name and position, array and required flags decided by `[`/`?`, a type reference that agrees with them, only `@` attributes, and fails with `Expected field name` when no IDENTIFIER starts it |
| Grammar.ModelBodyAt | packages/schema/src/parser/parser.ts:95-110 | the body loop keeps the fields and model attributes collected so far as prefixes, and stops on `}` or EOF |
| GrammarModels.ModelBodyItems | packages/schema/src/parser/parser.ts:95-110 | the fields the body adds were read by the field rule, and the model attributes by the attribute rule just after `@@`, at strictly increasing positions between where the body starts and where it stops: source order is kept, and comments add nothing |
| Grammar.ParseModelAt | packages/schema/src/parser/parser.ts:81-115 | a model has its name, is located at the `model` keyword, spans `{` to `}`, and fails with `Expected model name` when no IDENTIFIER follows |
| GrammarModels.ModelItems | packages/schema/src/parser/parser.ts:81-115 | a parsed model's fields and attributes were read in source order between its `{` and its `}` |
| Grammar.SyncLoop | packages/schema/src/parser/parser.ts:263-276 | stops at the first EOF, token after `}`, or definition keyword, skipping only tokens that are none of these |
| Grammar.Synchronize | packages/schema/src/parser/parser.ts:260-277 | recovery always moves forward (unless at EOF) and stops at EOF, after `}` or before a definition keyword |
| Grammar.ParseSchema | packages/schema/src/parser/parser.ts:37-76 | a SCHEMA node at the first token whose only filled list is the models |
| Grammar.TokenizationWellFormed | packages/schema/src/parser/parser.ts:39 | a tokenizer result ends in EOF, as every parsing rule requires |
| Grammar.ValuePlain | packages/schema/src/parser/parser.ts:207-245 | parsed values never contain NULL or CALL nodes, at any depth |
| Grammar.ArrayPlain | packages/schema/src/parser/parser.ts:225-238 | parsed arrays contain no NULL or CALL nodes |
| Grammar.ElementsPlain | packages/schema/src/parser/parser.ts:229-233 | the element loop adds no NULL or CALL nodes |
| Grammar.ArgumentPlain | packages/schema/src/parser/parser.ts:188-202 | an argument's value contains no NULL or CALL nodes |
| Grammar.ArgumentsPlain | packages/schema/src/parser/parser.ts:174-176 | the argument loop adds no NULL or CALL values |
| Grammar.AttributePlain | packages/schema/src/parser/parser.ts:162-183 | an attribute's arguments contain no NULL or CALL values |
| Grammar.ModelBodyRouted | packages/schema/src/parser/parser.ts:95-110 | the body loop puts `@@` attributes on the model and `@` attributes on fields |
| Grammar.ModelRouted | packages/schema/src/parser/parser.ts:81-115 | a parsed model's attributes are all model-level, and its fields' attributes all field-level |
| Grammar.SchemaLoop | packages/schema/src/parser/parser.ts:46-73 | the loop only adds to the models found so far |
| Grammar.SchemaLoopSound | packages/schema/src/parser/parser.ts:46-73 | the top-level loop keeps earlier models in front and adds only models that the model rule parsed at a `model` keyword |
| GrammarModels.LoopNext | packages/schema/src/parser/parser.ts:47-72 | every turn of the loop moves the cursor forward, and never past the list |
| GrammarModels.LoopFound | packages/schema/src/parser/parser.ts:47-72 | a turn finds at most one model, and finds one exactly at a `model` keyword whose model parses |
| GrammarModels.LoopUnfold | packages/schema/src/parser/parser.ts:46-73 | one turn adds what it finds at the cursor and carries on from the next cursor |
| GrammarModels.SchemaLoopFrom | packages/schema/src/parser/parser.ts:46-73 | the models found so far stay in front, unchanged, of everything the loop goes on to find |
| GrammarModels.LoopStep | packages/schema/src/parser/parser.ts:46-73 | from no models, the loop finds what one turn finds, then what it finds from the next cursor |
| GrammarModels.ReachedSuffix | packages/schema/src/parser/parser.ts:46-73 | what the loop finds from a cursor it reaches is a tail of what it finds from the start |
| GrammarModels.ReachedModelKept | packages/schema/src/parser/parser.ts:37-76 | a `model` keyword the loop reaches whose model parses puts that model in the schema, followed by exactly the models found after it, whatever failed before it |
| Grammar.SchemaModels | packages/schema/src/parser/parser.ts:37-76 | every model in the schema comes from a `model` keyword, with `@@` attributes on the model and `@` on fields |
| Grammar.FlatDefinitionSkipped | packages/schema/src/parser/parser.ts:63-71 | a non-model definition whose body holds no `}` or definition keyword is dropped whole, and parsing resumes after its `}` |
| Grammar.BlankSchema | packages/schema/src/parser/parser.ts:37-76 | blank input parses to an empty schema located at the end of the input |
| GrammarExamples.SingleFieldParses | packages/schema/src/parser/parser.ts:120-157 | a field written name, type, `@`, attribute name (`id Int @id`) parses to a required, non-array field with one argument-less field attribute |
| GrammarExamples.SingleFieldBody | packages/schema/src/parser/parser.ts:95-110 | the body of such a model (`model User { id Int @id }`) is that one field and no model attributes |
| GrammarExamples.SingleFieldModel | packages/schema/src/parser/parser.ts:81-115 | the model rule returns that model located at `model` and stops after `}` |
| GrammarExamples.SingleFieldSchema | packages/schema/tests/parser/parser.test.ts:20-62 | the schema holds exactly that model |
| GrammarExamples.RecoveryFirstFails | packages/schema/src/parser/parser.ts:124-127 | in `model A { x } model B { }` the first model fails with `Expected field type` at the `}` |
| GrammarExamples.RecoverySchema | packages/schema/src/parser/parser.ts:69-72 | recovery drops the broken model and keeps `B` |
| SchemaParser.Parser.constructor | packages/schema/src/parser/parser.ts:30-32 | a parser starts with no tokens and cursor 0 |
| SchemaParser.Parser.Peek | packages/schema/src/parser/parser.ts:297-299 | the token at the cursor |
| SchemaParser.Parser.IsAtEnd | packages/schema/src/parser/parser.ts:290-292 | true exactly when the current token is EOF |
| SchemaParser.Parser.Check | packages/schema/src/parser/parser.ts:282-285 | the current token has the kind and is not EOF |
| SchemaParser.Parser.PeekNext | packages/schema/src/parser/parser.ts:304-309 | the token after the cursor, or the last token when there is none |
| SchemaParser.Parser.Previous | packages/schema/src/parser/parser.ts:322-324 | the token before the cursor |
| SchemaParser.Parser.Error | packages/schema/src/parser/parser.ts:250-255 | the error for the message at the current token's position |
| SchemaParser.Parser.Advance | packages/schema/src/parser/parser.ts:314-317 | moves one on unless at EOF, and returns the token before the new cursor |
| SchemaParser.Parser.Match | packages/schema/src/parser/parser.ts:329-335 | consumes the current token exactly when it has the kind |
| SchemaParser.Parser.Consume | packages/schema/src/parser/parser.ts:340-343 | agrees with `Grammar.Consume`: the token and new cursor, or the error at the cursor |
| SchemaParser.Parser.ParseValue | packages/schema/src/parser/parser.ts:207-245 | agrees with `Grammar.ParseValueAt` on result, error and cursor |
| SchemaParser.Parser.ParseArray | packages/schema/src/parser/parser.ts:225-238 | agrees with `Grammar.ArrayAt` |
| SchemaParser.Parser.ParseElements | packages/schema/src/parser/parser.ts:229-233 | the do-while loop agrees with `Grammar.ElementsAt` |
| SchemaParser.Parser.ParseArgument | packages/schema/src/parser/parser.ts:188-202 | agrees with `Grammar.ParseArgumentAt` |
| SchemaParser.Parser.ParseAttribute | packages/schema/src/parser/parser.ts:162-183 | agrees with `Grammar.ParseAttributeAt` |
| SchemaParser.Parser.ParseAttributeArguments | packages/schema/src/parser/parser.ts:171-180 | agrees with `Grammar.AttributeArgumentsAt` |
| SchemaParser.Parser.ParseArgumentList | packages/schema/src/parser/parser.ts:173-179 | agrees with `Grammar.ArgumentListAt` |
| SchemaParser.Parser.ParseArguments | packages/schema/src/parser/parser.ts:174-176 | the do-while loop agrees with `Grammar.ArgumentsAt` |
| SchemaParser.Parser.ParseField | packages/schema/src/parser/parser.ts:120-157 | agrees with `Grammar.ParseFieldAt` |
| SchemaParser.Parser.ParseTypeModifiers | packages/schema/src/parser/parser.ts:129-140 | agrees with `Grammar.TypeModifiersAt` |
| SchemaParser.Parser.ParseFieldAttributes | packages/schema/src/parser/parser.ts:151-154 | the `@` loop agrees with `Grammar.FieldAttributesAt` |
| SchemaParser.Parser.ParseModel | packages/schema/src/parser/parser.ts:81-115 | agrees with `Grammar.ParseModelAt` |
| SchemaParser.Parser.ParseModelBody | packages/schema/src/parser/parser.ts:95-110 | the body loop agrees with `Grammar.ModelBodyAt` |
| SchemaParser.Parser.Synchronize | packages/schema/src/parser/parser.ts:260-277 | the cursor ends where `Grammar.Synchronize` says |
| SchemaParser.Parser.Parse | packages/schema/src/parser/parser.ts:37-76 | tokens are the tokenization of the input, and the schema is `Grammar.ParseSchema` of them |
| SchemaParser.Parser.ParseDefinition | packages/schema/src/parser/parser.ts:47-72 | one iteration of the top-level loop moves forward and leaves the loop's outcome unchanged |
| Validator.Validation | packages/schema/src/validator.ts:29-82 | the result is valid exactly when it holds no errors |
| Validator.IndexOf | packages/schema/src/validator.ts:70 | `indexOf`: −1 exactly when absent, otherwise the first index holding the name |
| Validator.RepeatsCount | packages/schema/src/validator.ts:69-70 | the filter keeps a name once for each of its occurrences after the first |
| Validator.RepeatsEmpty | packages/schema/src/validator.ts:69-70 | the filter keeps nothing exactly when no name occurs twice |
| Validator.DistinctMembers | packages/schema/src/validator.ts:33-42 | the name set holds exactly the names of the list |
| Validator.DistinctCount | packages/schema/src/validator.ts:33-42 | the name set holds each name once |
| Validator.MessageLetter | packages/schema/src/validator.ts:37 | duplicate messages of different kinds, and collision messages, differ at index 10 |
| Validator.DuplicateRule | packages/schema/src/validator.ts:33-66 | a name occurring k ≥ 1 times in one kind's list gets exactly k − 1 duplicate errors of that kind |
| Validator.CollisionRule | packages/schema/src/validator.ts:69-76 | a name used by c ≥ 1 of the three kinds gets exactly c − 1 collision errors |
| Validator.NameCounts | packages/schema/src/validator.ts:29-81 | a name occurs at most once overall exactly when it is unique in each list and used by at most one kind |
| Validator.ValidIffUnique | packages/schema/src/validator.ts:29-81 | the schema is valid exactly when no name repeats across models, enums and types together |
| Validator.JoinSplit | packages/schema/src/validator.ts:90 | splitting joined lines gives the lines back when none holds the separator |
| Validator.FailureMessageLines | packages/schema/src/validator.ts:87-93 | the thrown message's lines are the header, then one `- message` line per error, in order |
| Validator.ExampleValidation | packages/schema/src/validator.ts:29-81 | models u, p, u and enums r, u give exactly a model duplicate for u, then a collision for u |
| Validator.CollectNames | packages/schema/src/validator.ts:33-42 | the set built is the list's names once each in first order, and the errors pushed are one duplicate error per repeated occurrence |
| Validator.CollidingNames | packages/schema/src/validator.ts:69-70 | the filter keeps each occurrence after the first, in order |
| Validator.ReportCollisions | packages/schema/src/validator.ts:71-76 | one collision error per kept name, in order |
| Validator.ValidateSchema | packages/schema/src/validator.ts:29-82 | the result is the specification `Validation`, and it is valid exactly when it has no errors |
| Validator.AssertValidSchema | packages/schema/src/validator.ts:87-93 | throws exactly when validation fails, with the header and one `- message` line per error |

## Left out

- `parseFloat`: floating point is not modelled. A NUMBER value keeps the raw literal of its token.
- Character counting: Dafny characters are Unicode scalar values, while JavaScript strings are sequences of UTF-16 code units. A character outside the Basic Multilingual Plane is one character here but two code units in JavaScript:
  - outside strings and comments, JavaScript reads it as two UNKNOWN tokens, one per surrogate, where the model reads one;
  - every such character makes all later columns and offsets one smaller here than in JavaScript, so the difference grows with each one.
- Whitespace: `isWhitespace` is modelled as the fixed set of characters of JavaScript's `\s` class.
- Exceptions: thrown errors are modelled as `Result`/`Parsed` values.
  - `SchemaParsingError` keeps the reason and the token position. `Message()` renders the source's message text from them.
  - Errors caught by the top-level loop are discarded, as in the source.
- `SchemaParsingError`'s own `line`/`column` fields are never set by the parser. They are left out.
- Grammar functions and helper methods: the source's nested loops and branches are split into one function or method each:
  - array elements (`ParseElements`, `ElementsAt`);
  - argument lists (`ParseArguments`, `ParseArgumentList`, `ParseAttributeArguments`, `ArgumentListAt`, `AttributeArgumentsAt`);
  - type modifiers (`ParseTypeModifiers`, `TypeModifiersAt`);
  - field attributes (`ParseFieldAttributes`);
  - the model body (`ParseModelBody`);
  - one iteration of `parse` (`ParseDefinition`).

  Each is called exactly where the source runs that code.
- Token-reading loops: the loops of `readString` and `readBlockComment` are the methods `ReadStringBody` and `ReadCommentBody`, each called exactly where its loop runs.
- `match`: inside loops and `parseValue`, the source's `match` is written as a `Check` followed by `Advance`, which is what `match` does.
- `Grammar.ParseArgumentAt`: the `consume(COLON)` after an argument name cannot fail, because it runs only when the next token is a colon. The grammar function does not carry its unreachable error path.
- Function-call values: the builder exists, but `parseValue` never produces one. `Grammar.ValuePlain` proves this.
- The converter from the AST to the schema model is not part of this model.
- The `parseSchema` wrapper in `packages/schema/src/parser.ts` is not part of this model.
- Datasource, generator, enum, type and view parsing is not implemented by the source. Their AST builders are modelled; the grammar skips such definitions by recovery.
- Validator input: validation reads only definition names. `Validator.Definition` holds just the name; the other fields of model, enum and type definitions are left out.
- JavaScript `Set`: modelled as an insertion-ordered sequence without repeats, since spread iterates in insertion order.
- `Validator.CollectNames` returns the duplicate errors of one list instead of pushing them onto the shared array. `ValidateSchema` appends them in the source's order, so the final list is the same.
- `Validator.ValidationError`: the `path` field is optional in the source's type, but the validator always sets it. It is `Some` in every error built here.
- `SchemaValidationError` is modelled as a datatype holding its message. Its class hierarchy is left out.
