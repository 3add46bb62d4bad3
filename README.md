# pdfminify object-syntax parser, modelled in Dafny

pdfminify reads the textual object syntax found inside PDF files. Examples are
`<< /Type /Page /Parent 3 0 R >>`, `[1 2.5 true (a(b)c)]` and `/Name`. Its
parser `PDFParser` (llpdf/repr/PDFParser.py) is a TPG grammar with two parts:

- a token list: separators, brackets, numbers, booleans, names, text runs;
- recursive productions: expression, dictionary, array, name, indirect
  reference, value and string.

`parse(text)` runs the grammar. On a lexical or syntactic error it prints the
text, the offending line and a caret under the offending column, then
re-raises the error. Names are `PDFName` objects (llpdf/types/PDFName.py):
immutable wrappers around a text starting with `/`, compared through the key
`("PDFName", text)`.

The model has these modules:

- `Names`: the `PDFName` value, with its comparison key, equality, ordering
  and string form.
- `Values`: the value tree the parser builds. A Python dict is modelled as an
  association list, and `d[k] = v` is `Assign`.
- `Lexer`: the token declarations, tried in declaration order at each
  position after separators are skipped. The main result is that the token
  stream covers the text and that each token denotes its lexeme.
- `Grammar`: one pure function per production. The functions do ordered
  choice with backtracking and record the furthest token each production
  looked at.
- `Parser`: the `PDFParser` class, whose rule methods work by mutation.
  - It keeps a token cursor `pos` and the furthest token seen, `far`.
  - Each rule method is proved to do what its `Grammar` function does.
  - The `( ... )*` repetitions of dictionaries, arrays and strings are
    `while` loops that build the dict, the list or the string step by step.
  - The module also holds `parse` with its report, and the end-to-end
    properties.
- `GrammarFacts` and `Brackets`: properties of the grammar. They cover
  XRef lookahead, arrays in source order, last-wins dictionaries, strings
  that keep their nested parentheses, and balanced brackets. A missing
  closer is proved to be a syntactic error.
- `Diagnostics`: (line, column) positions, `text.split("\n")`, the caret
  line and the five-line report.
- `Examples`: small token streams run through the grammar.

The `string` token `[^()]*` matches any character other than a
parenthesis, and both parentheses are tokens of their own. So every
non-separator starts some token, and `parse` never raises a lexical error
(`Parser.NoLexicalError`). The grammar has no recursion-depth limit, and
neither does the model.

## Model

| member | source | states |
|---|---|---|
| Names.NewName | llpdf/types/PDFName.py:26-28 | a name can only be built from text starting with `/` (the constructor's assertion as a precondition), and its `value` is that text |
| Names.PDFName.Value | llpdf/types/PDFName.py:33-35 | the `value` property is a text starting with `/` |
| Names.PDFName.CmpKey | llpdf/types/PDFName.py:30-31 | `cmpkey()` is the class tag `PDFName` followed by the name's text |
| Names.PDFName.ToString | llpdf/types/PDFName.py:40-41 | `str` is `Name<`, then the name's text, then `>`, six characters longer than the text |
| Names.PDFName.Repr | llpdf/types/PDFName.py:37-38 | `repr` is `str` |
| Names.PDFName.Equals | llpdf/types/PDFName.py:30-31 | `==` through `cmpkey` holds exactly when the texts are equal, that is, for the same name |
| Names.PDFName.Less | llpdf/types/PDFName.py:30-31 | `<` through `cmpkey` is Python string order on the texts |
| Names.NameTrichotomy | llpdf/types/PDFName.py:30-31 | `==` and `<` through `cmpkey` agree: of two names exactly one of `a < b`, `a == b` and `b < a` holds |
| Names.NameLessIsStrictTotalOrder | llpdf/types/PDFName.py:30-31 | ordering through `cmpkey` is Python string order on the texts, and it is irreflexive, transitive and total on distinct names |
| Names.StrLessIrreflexive | llpdf/types/PDFName.py:30-31 | no string is less than itself under Python's `<` on strings |
| Names.StrLessTransitive | llpdf/types/PDFName.py:30-31 | Python's `<` on strings is transitive |
| Names.StrLessTotal | llpdf/types/PDFName.py:30-31 | of two different strings, one is less than the other |
| Names.ToStringShape | llpdf/types/PDFName.py:37-41 | `repr` equals `str`, which is `Name<`, then the name's text, then `>` |
| Names.ToStringInjective | llpdf/types/PDFName.py:37-41 | different names print differently |
| Values.Get | llpdf/repr/PDFParser.py:59 | a dict lookup finds a value exactly when the key is present, and the value is the one stored with that key |
| Values.Assign | llpdf/repr/PDFParser.py:59 | `d[k] = v` adds an entry only when k is new |
| Values.AssignGet | llpdf/repr/PDFParser.py:59 | after `d[k] = v`, `d[k]` is v and every other key keeps its value |
| Values.AssignUnique | llpdf/repr/PDFParser.py:59 | `d[k] = v` keeps the keys of a dict distinct |
| Values.AssignAllAbsent | llpdf/repr/PDFParser.py:58-60 | assigning pairs none of which has key k leaves `d[k]` as it was |
| Values.AssignAllLast | llpdf/repr/PDFParser.py:58-60 | after assigning pairs in order, a key maps to the value of its last pair |
| Values.AssignAllUnique | llpdf/repr/PDFParser.py:58-60 | assigning pairs in order keeps the keys distinct |
| Values.AssignAllKeys | llpdf/repr/PDFParser.py:58-60 | after assigning pairs in order, a key is present exactly when it was present before or is the key of some pair |
| Values.AssignAll | llpdf/repr/PDFParser.py:58-60 | assigning pairs in order adds at most one entry per pair and removes none |
| Values.Build | llpdf/repr/PDFParser.py:58-60 | the dict built from `d = dict()` and the pairs has distinct keys, no more entries than pairs, and at least one entry when there is a pair |
| Values.BuildLastWins | llpdf/repr/PDFParser.py:58-60 | the dict built from `d = dict()` and the pairs has distinct keys, holds exactly the pairs' keys, and maps each key to the value of its last pair |
| Lexer.Run | llpdf/repr/PDFParser.py:33 | a run of one character class ends at the end of the text or before a character outside the class |
| Lexer.RunAll | llpdf/repr/PDFParser.py:33 | every character of a run belongs to its class |
| Lexer.NextToken | llpdf/repr/PDFParser.py:35-45 | the token found at a non-separator starts there, is not empty and ends within the text |
| Lexer.Lex | llpdf/repr/PDFParser.py:33-45 | a lexical error, if any, is reported at an offset inside the text and at or after where lexing started |
| Lexer.FloatDenotes | llpdf/repr/PDFParser.py:41 | the float match `-?\d*\.\d+` is a float lexeme, not followed by a digit, and the token keeps the lexeme |
| Lexer.FloatBeforeInteger | llpdf/repr/PDFParser.py:41-42 | where a float matches, the token is a float even though the integer pattern also matches (`1.5` is not `1`) |
| Lexer.IntegerDenotes | llpdf/repr/PDFParser.py:42 | the integer match `-?\d+` is an integer lexeme, followed by neither a digit nor a fraction, and the token's value is its `int` |
| Lexer.FloatTokenDenotes | llpdf/repr/PDFParser.py:41 | where a float matches, some token is found and it denotes its lexeme |
| Lexer.IntegerTokenDenotes | llpdf/repr/PDFParser.py:42 | where no float but an integer matches, some token is found and it denotes its lexeme |
| Lexer.IntegerToken | llpdf/repr/PDFParser.py:41-42 | where no float matches and an integer does, the token is the integer with its `int` value |
| Lexer.NameDenotes | llpdf/repr/PDFParser.py:44 | a name match is a whole `/[a-zA-Z][-+a-zA-Z0-9]*` lexeme, not followed by a name character, and the `PDFName` holds exactly it |
| Lexer.StringDenotes | llpdf/repr/PDFParser.py:45 | a text-run match is non-empty, starts with a non-space, holds no parenthesis, and runs up to the next parenthesis |
| Lexer.PunctuationDenotes | llpdf/repr/PDFParser.py:35-40 | the marker `R` (before a word boundary) lexes as `RefMarker` over one character, `<<` and `>>` as `StartDict` and `EndDict` over two, and `[`, `]`, `(`, `)` as `StartArray`, `EndArray`, `StartString`, `EndString` over one; each token denotes its text |
| Lexer.WordDenotes | llpdf/repr/PDFParser.py:43-45 | where no fixed token and no number matches, some token is found, it is a boolean, a name or a text run, and it denotes its lexeme |
| Lexer.BoolToken | llpdf/repr/PDFParser.py:43 | where no fixed token and no number matches, `true` or `false` is the `bool` token, with the value `_to_bool` gives its text |
| Lexer.NameToken | llpdf/repr/PDFParser.py:44 | where no fixed token, number or boolean matches, a name match is the `pdfname_token` token, holding the `PDFName` of exactly its text, which starts with `/` |
| Lexer.TextRunToken | llpdf/repr/PDFParser.py:45 | where no other token matches, the run up to the next parenthesis is non-empty and is the `string` token holding exactly that text |
| Lexer.ToBool | llpdf/repr/PDFParser.py:28-29 | `_to_bool` is true exactly for `true`, and false for `false` |
| Lexer.Tokenize | llpdf/repr/PDFParser.py:33-45 | the token stream of a text, when there is one, covers the text with only separators around the tokens, each denoting its lexeme; an error would be at an offset inside the text |
| Lexer.NextTokenDenotes | llpdf/repr/PDFParser.py:35-45 | at every non-separator some token matches, and it denotes its lexeme |
| Lexer.TokenizeNeverFails | llpdf/repr/PDFParser.py:33-45 | lexing never fails; the tokens follow each other with only separators around them, and each denotes its lexeme |
| Lexer.SkippedSpace | llpdf/repr/PDFParser.py:33 | what the separator skips is all white space |
| Grammar.ParseStart | llpdf/repr/PDFParser.py:47-48 | a syntactic error is reported at a token index within the stream, where the end of the stream stands for end of input |
| Grammar.ParseExpression | llpdf/repr/PDFParser.py:50-56 | a successful expression consumes at least one token, and the furthest token looked at is within the stream |
| Grammar.ParseDict | llpdf/repr/PDFParser.py:58-61 | a successful dict consumes at least one token, and nothing past the end is looked at |
| Grammar.DictPairs | llpdf/repr/PDFParser.py:59-60 | the repetition ends at or after where it started and looks no further than the end |
| Grammar.ParseArray | llpdf/repr/PDFParser.py:63-66 | a successful array consumes at least one token, and nothing past the end is looked at |
| Grammar.ArrayElems | llpdf/repr/PDFParser.py:64-65 | the repetition ends at or after where it started and looks no further than the end |
| Grammar.ParseName | llpdf/repr/PDFParser.py:68-69 | PDFName succeeds exactly at a `pdfname_token`, consuming that one token, and its value is the token's `PDFName`; it looks at that token only |
| Grammar.ParseXRef | llpdf/repr/PDFParser.py:71-72 | a reference consumes three tokens, two integers then `R`, and is the pair of those integers' values; it looks no further than the `R` |
| Grammar.ParseValue | llpdf/repr/PDFParser.py:74-77 | PDFValue succeeds exactly at an integer, float or bool token, consuming that one token; it looks at that token only |
| Grammar.OrElse | llpdf/repr/PDFParser.py:50-56 | ordered choice succeeds exactly when one alternative does, gives the first alternative's outcome when it succeeds and otherwise the second's value and cursor, and on failure of the first the furthest token is the furthest of both |
| Grammar.Concat | llpdf/repr/PDFParser.py:80-83 | the parts joined start with the first part, and one part joined is that part |
| Grammar.ParseString | llpdf/repr/PDFParser.py:79-85 | a successful string consumes at least one token, and nothing past the end is looked at |
| Grammar.ParseStringPart | llpdf/repr/PDFParser.py:81-82 | a string part consumes at least one token |
| Grammar.StringParts | llpdf/repr/PDFParser.py:80-83 | the repetition ends at or after where it started and looks no further than the end |
| GrammarFacts.CloserStartsNothing | llpdf/repr/PDFParser.py:50-56 | no expression starts at `>>`, `]`, `)`, `R` or the end of input |
| GrammarFacts.LeafValues | llpdf/repr/PDFParser.py:50-56 | a float, a boolean or a name token is an expression of its one token, with the value `Real(lexeme)`, `Boolean(b)` or `Name(n)`, as every earlier alternative fails at once |
| GrammarFacts.IntegerLookahead | llpdf/repr/PDFParser.py:50-52 | an integer followed by an integer and `R` is an indirect reference over three tokens; otherwise PDFXRef backtracks and the integer alone is the value, over one token |
| GrammarFacts.ElemsChain | llpdf/repr/PDFParser.py:64-65 | the array elements are expressions parsed one after another, and the repetition stops where no expression starts |
| GrammarFacts.ChainElems | llpdf/repr/PDFParser.py:64-65 | conversely, any chain of expressions up to a token where none starts is what the repetition gathers |
| GrammarFacts.ArrayIsBracketedExpressions | llpdf/repr/PDFParser.py:63-66 | a parsed array is `[`, expressions one after another, then `]`, and its elements are their values in source order |
| GrammarFacts.ArrayFromExpressions | llpdf/repr/PDFParser.py:63-66 | `[`, any chain of expressions, then `]` parses as the array of those values |
| GrammarFacts.IntegerRun | llpdf/repr/PDFParser.py:50-52 | integers with no `R` among or after them are each an expression of their own, an `Integer` with that token's value, because PDFXRef fails at each and the parser backtracks |
| GrammarFacts.ArrayOfIntegers | llpdf/repr/PDFParser.py:63-66 | `[`, any number of integers, then `]` parses as the array of exactly those `Integer`s in source order, with no reference among them |
| GrammarFacts.PairsChain | llpdf/repr/PDFParser.py:59-60 | the dict pairs are (name, expression) pairs parsed one after another |
| GrammarFacts.ChainPairs | llpdf/repr/PDFParser.py:59-60 | conversely, any chain of pairs up to `>>` is what the repetition gathers |
| GrammarFacts.DictIsBracketedPairs | llpdf/repr/PDFParser.py:58-61 | a parsed dict is `<<`, pairs one after another, then `>>`, and its value is the dict that assigning the pairs in order builds |
| GrammarFacts.DictFromPairs | llpdf/repr/PDFParser.py:58-61 | `<<`, any chain of pairs, then `>>` parses as the dict those pairs build |
| GrammarFacts.SpellSplit | llpdf/repr/PDFParser.py:79-85 | the text a token range stands for is the text of its two halves joined |
| GrammarFacts.FinalConcat | llpdf/repr/PDFParser.py:79-85 | reading two texts in turn leaves the nesting depth that reading their concatenation leaves |
| GrammarFacts.FinalShift | llpdf/repr/PDFParser.py:79-85 | starting one level deeper ends one level deeper |
| GrammarFacts.FinalNoParens | llpdf/repr/PDFParser.py:45 | a text run without parentheses leaves the depth unchanged |
| GrammarFacts.WrappedBalanced | llpdf/repr/PDFParser.py:82 | a balanced text between `(` and `)` is balanced |
| GrammarFacts.ConcatBalanced | llpdf/repr/PDFParser.py:81-82 | balanced texts joined are balanced |
| GrammarFacts.TextRunBalanced | llpdf/repr/PDFParser.py:81 | a text run followed by balanced text is balanced |
| GrammarFacts.StringPartsSpelled | llpdf/repr/PDFParser.py:80-83 | the parts of a string joined are the text their tokens stand for, and that text is balanced |
| GrammarFacts.Wrapped | llpdf/repr/PDFParser.py:79-85 | the tokens from a `(` to its `)` stand for the inner tokens' text between parentheses |
| GrammarFacts.StringContent | llpdf/repr/PDFParser.py:79-85 | a parsed string runs from `(` to `)`, and its value is the text of the tokens between them, nested strings with their own parentheses |
| GrammarFacts.StringSpelled | llpdf/repr/PDFParser.py:79-85 | a parsed string's value is balanced, and its tokens from `(` to `)` stand for that value between parentheses (`(a(b)c)` gives `a(b)c`) |
| Brackets.NetConcat | llpdf/repr/PDFParser.py:35-40 | the bracket count of joined token lists is the sum of their counts |
| Brackets.NetSplit | llpdf/repr/PDFParser.py:35-40 | the bracket count of a token range is the sum over its two halves |
| Brackets.Enclosed | llpdf/repr/PDFParser.py:58-85 | an opener, a balanced middle and its closer are balanced |
| Brackets.Plain | llpdf/repr/PDFParser.py:68-77 | tokens that are not brackets are balanced |
| Brackets.ExpressionBalanced | llpdf/repr/PDFParser.py:50-56 | the tokens of a parsed expression hold as many closers as openers of each bracket kind |
| Brackets.DictBalanced | llpdf/repr/PDFParser.py:58-61 | the tokens of a parsed dict are balanced |
| Brackets.DictPairsBalanced | llpdf/repr/PDFParser.py:59-60 | the tokens of the dict pairs are balanced |
| Brackets.ArrayBalanced | llpdf/repr/PDFParser.py:63-66 | the tokens of a parsed array are balanced |
| Brackets.ArrayElemsBalanced | llpdf/repr/PDFParser.py:64-65 | the tokens of the array elements are balanced |
| Brackets.StringBalanced | llpdf/repr/PDFParser.py:79-85 | the tokens of a parsed string are balanced |
| Brackets.StringPartsBalanced | llpdf/repr/PDFParser.py:80-83 | the tokens of the string parts are balanced |
| Brackets.AcceptedIsBalanced | llpdf/repr/PDFParser.py:47-85 | every token stream the parser accepts holds as many closers as openers of each bracket kind |
| Brackets.MissingCloserIsError | llpdf/repr/PDFParser.py:47-85 | a stream with more openers than closers of some bracket kind, or more closers than openers (`<< /Foo`, `[ 1 2`, `(abc`), is a syntactic error |
| Parser.PDFParser.constructor | llpdf/repr/PDFParser.py:94 | a new parser stands at the first token and has looked at nothing yet |
| Parser.PDFParser.Peek | llpdf/repr/PDFParser.py:35-45 | looking at the next token leaves the cursor in place, records it as looked at, and returns its kind or None at the end of input |
| Parser.PDFParser.NameRule | llpdf/repr/PDFParser.py:68-69 | the rule method does what `Grammar.ParseName` does: the same result and new cursor, or the cursor restored on failure, and the same furthest token |
| Parser.PDFParser.XRefRule | llpdf/repr/PDFParser.py:71-72 | the rule method does what `Grammar.ParseXRef` does, restoring the cursor when the second integer or `R` is missing |
| Parser.PDFParser.ValueRule | llpdf/repr/PDFParser.py:74-77 | the rule method does what `Grammar.ParseValue` does |
| Parser.PDFParser.Expression | llpdf/repr/PDFParser.py:50-56 | trying the six alternatives in order, each from the same cursor, does what `Grammar.ParseExpression` does |
| Parser.PDFParser.DictRule | llpdf/repr/PDFParser.py:58-61 | the rule method does what `Grammar.ParseDict` does, restoring the cursor when `>>` is missing |
| Parser.PDFParser.DictBody | llpdf/repr/PDFParser.py:58-60 | the loop that starts from `d = dict()` and runs `d[k] = v` for each pair builds the dict of the pairs `Grammar.DictPairs` gathers, and stops where they end |
| Parser.PDFParser.ArrayRule | llpdf/repr/PDFParser.py:63-66 | the rule method does what `Grammar.ParseArray` does, restoring the cursor when `]` is missing |
| Parser.PDFParser.ArrayBody | llpdf/repr/PDFParser.py:63-65 | the loop that starts from `a = list()` and runs `a.append(e)` for each element ends with exactly the elements `Grammar.ArrayElems` gathers, in order |
| Parser.PDFParser.StringRule | llpdf/repr/PDFParser.py:79-85 | the rule method does what `Grammar.ParseString` does, restoring the cursor when `)` is missing |
| Parser.PDFParser.StringPart | llpdf/repr/PDFParser.py:81-82 | one part is a text run as it is, or a nested string put back between its parentheses, as `Grammar.ParseStringPart` says |
| Parser.PDFParser.StringBody | llpdf/repr/PDFParser.py:79-83 | the loop that starts from `s = ""` and appends each part ends with the parts `Grammar.StringParts` gathers, joined |
| Parser.ConcatSnoc | llpdf/repr/PDFParser.py:81-82 | `s += e` appends e to the parts joined so far |
| Parser.ParseText | llpdf/repr/PDFParser.py:94-95 | running the parser on a text raises a lexical error exactly when the lexer fails, and otherwise succeeds exactly when the grammar accepts the tokens, with the grammar's value |
| Parser.Parse | llpdf/repr/PDFParser.py:92-103 | `parse` returns the parsed value or passes the error on, and prints the report for an error and nothing on success |
| Parser.SpannedTokens | llpdf/repr/PDFParser.py:33-45 | every token of a lexed text lies inside the text, starts with a non-space, and holds a valid name or a parenthesis-free text run as spelled in the text |
| Parser.TokensOfText | llpdf/repr/PDFParser.py:33-45 | the lexer never fails, its text runs have no parentheses, and every name it yields starts with `/` and is spelled as in the text, so names the parser produces are valid |
| Parser.NoLexicalError | llpdf/repr/PDFParser.py:92-96 | `parse` never raises a lexical error |
| Parser.SyntacticReport | llpdf/repr/PDFParser.py:97-101 | for an error at an offset, the fourth printed line is the line holding it, and the fifth is `column - 1` spaces then `^`, standing under the offset's character or just past the end of the line |
| Parser.ReportMarksOffendingToken | llpdf/repr/PDFParser.py:92-103 | a syntactic error prints five lines; the caret stands under the first character of the offending token, or just past the last line at end of input |
| Diagnostics.Column | llpdf/repr/PDFParser.py:101 | columns count from 1 |
| Diagnostics.Split | llpdf/repr/PDFParser.py:100 | `text.split("\n")` yields at least one line |
| Diagnostics.SplitShape | llpdf/repr/PDFParser.py:100 | the lines hold no newline, there are as many as the line number of the end, and the last is one shorter than the end's column |
| Diagnostics.JoinSplit | llpdf/repr/PDFParser.py:100 | joining the lines with newlines gives the text back |
| Diagnostics.SplitJoin | llpdf/repr/PDFParser.py:100 | splitting newline-free lines joined by newlines gives the lines back |
| Diagnostics.SplitPlain | llpdf/repr/PDFParser.py:100 | newline-free text after a newline becomes the new last line |
| Diagnostics.SplitPrefix | llpdf/repr/PDFParser.py:100 | extending a text keeps the lines before the prefix's last line, and only lengthens that line |
| Diagnostics.Repeat | llpdf/repr/PDFParser.py:97 | `c * n` has n characters, each c |
| Diagnostics.Caret | llpdf/repr/PDFParser.py:101 | the caret line is `column - 1` spaces followed by `^` (just `^` for a column below 1, as Python repeats a string a negative number of times as empty) |
| Diagnostics.Index | llpdf/repr/PDFParser.py:100 | Python indexing succeeds exactly for indices from `-len` up to `len - 1`, and a non-negative index gives that element |
| Diagnostics.Report | llpdf/repr/PDFParser.py:97-101 | the report is printed exactly when the error's line can be indexed, and then has five lines, the last being the caret line |
| Diagnostics.OffsetLine | llpdf/repr/PDFParser.py:100 | the line of an offset exists in the whole text, and the text before the offset on that line is a prefix of it |
| Diagnostics.OffsetChar | llpdf/repr/PDFParser.py:100 | the character at an offset, if not a newline, stands on its line right after the text before it |
| Diagnostics.CaretMarksOffset | llpdf/repr/PDFParser.py:100-101 | an offset's line exists, and its column is the position of the offset's character on that line |
| Diagnostics.ReportPointsAt | llpdf/repr/PDFParser.py:97-101 | the report for an offset shows the offending line with the caret under the offending character |
| Examples.XRefTokens | llpdf/repr/PDFParser.py:71-72 | `48 489 R` is the reference (48, 489) |
| Examples.TwoIntegers | llpdf/repr/PDFParser.py:47-56 | `1 2` is not one expression: it is an error at the end of input, the furthest point looked at, where PDFXRef looked for `R` |
| Examples.EmptyDict | llpdf/repr/PDFParser.py:58-61 | `<< >>` is the empty dict |
| Examples.EmptyArray | llpdf/repr/PDFParser.py:63-66 | `[ ]` is the empty array |
| Examples.UnclosedDict | llpdf/repr/PDFParser.py:58-61 | `<< /Foo` is an error at the end of input |
| Examples.LaterValueWins | llpdf/repr/PDFParser.py:59 | two pairs with the same key leave one entry, holding the later value |
| Examples.FiveIntegers | llpdf/repr/PDFParser.py:63-66 | `[12345 9999 48 489 8473]` (any five integers) is an array of five `Integer`s, not one holding a reference |
| Examples.NestedString | llpdf/repr/PDFParser.py:79-85 | `(a(b)c)` (any three text runs so arranged) is the string `a(b)c`, the nested string keeping its parentheses |

## Left out

- TPG is not part of this model. The model assumes how it behaves:
  - the lexer is context-free and tries tokens in the order declared, with
    the inline literal `R` first;
  - `R` must be followed by a word boundary;
  - separators are skipped before every token;
  - `START` must be followed by the end of input;
  - a syntactic error is reported at the furthest token any production
    looked at, with the end of input at offset `len(text)`.
- `\s`, `\d` and `\w` are the ASCII classes: white space (space, `\t` to
  `\r`), `0` to `9`, and letters, digits and `_`. Python's classes also
  match other Unicode white space, digits and word characters. So for `Ré`
  the model sees a word boundary after `R` and yields the `R` token, where
  Python's `\w` matches `é` and sees none.
- Floats are kept as their lexeme. Python's `float` conversion to an IEEE
  double is not modelled.
- Integers are Python's unbounded `int`.
- `PDFXRef` and `Comparable` are not part of this model.
  - An indirect reference is the pair of its two integers.
  - Of `Comparable`'s operators, only `==` and `<` are modelled, through
    `cmpkey`.
- `parse` prints its report. The model returns the printed lines instead.
  An `IndexError` while indexing the lines is modelled as printing nothing.
  It cannot happen for errors the parser reports: `Parser.SyntacticReport`
  proves that the line exists.
- There is no recursion-depth limit, because the source has none. Python's
  stack overflow on deep nesting is not modelled.
- TPG's `VerboseParser` trace output (`verbose = 0`) is not modelled, and
  neither is the `__main__` demonstration.
- llpdf/img/ImageReformatter.py is not part of this model.
- The `ensures` of the recursive grammar functions (`ParseExpression`,
  `ParseDict`, `ParseArray`, `ParseString` and their repetitions) state only
  that the cursor and the furthest token stay within the token stream. What
  each of them parses is stated by the `GrammarFacts` and `Brackets` lemmas
  and by the rule methods of `Parser.PDFParser`.
- The `Examples` lemmas start from token streams, not from text. The
  lexer's behaviour on text is stated for all inputs instead. The token kind
  found at each position is stated by `Lexer.PunctuationDenotes`,
  `Lexer.FloatBeforeInteger`, `Lexer.IntegerToken`, `Lexer.BoolToken`,
  `Lexer.NameToken` and `Lexer.TextRunToken`. The whole stream is stated by
  `Lexer.TokenizeNeverFails`.
